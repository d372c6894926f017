/** fs.c's block and file operations and file.c's chunked write, over the cached blocks and the
    in-memory inodes. */
module FsCode {
  import opened Blocks
  import opened FsSpec
  import LogSpec

  datatype Option<T> = None | Some(value: T)

  /** The result of readi and writei; `Panicked` stops the kernel ("balloc: out of blocks"). */
  datatype Io = Done(n: nat) | Refused | Panicked

  datatype FileResult = Returned(value: int) | Halted

  type int32 = x: int | -0x8000_0000 <= x < 0x8000_0000

  function Min(a: nat, b: nat): nat { if a < b then a else b }
  function Max(a: nat, b: nat): nat { if a < b then b else a }

  /** `c` with `src` written over it at `off`. */
  function Splice(c: seq<byte>, off: nat, src: seq<byte>): seq<byte>
    requires off <= |c|
  {
    c[..off] + src + (if off + |src| < |c| then c[off + |src|..] else [])
  }

  /** Writing a string piece by piece is writing it at once. */
  lemma SpliceTwice(c0: seq<byte>, c1: seq<byte>, off: nat, src: seq<byte>, i: nat, m: nat)
    requires i + m <= |src|
    requires if i == 0 then c1 == c0 else off <= |c0| && c1 == Splice(c0, off, src[..i])
    requires off + i <= |c1|
    ensures off <= |c0| && Splice(c1, off + i, src[i..i + m]) == Splice(c0, off, src[..i + m])
  {
    if i == 0 {
      assert src[..0 + m] == src[0..0 + m];
    } else {
      assert src[..i + m] == src[..i] + src[i..i + m];
    }
  }

  predicate WriteRefused(size: nat, off: uint, n: uint) {
    off > size || (off + n) % UINT_LIMIT < off || (off + n) % UINT_LIMIT > MAXBYTES
  }

  /** The blocks of a file after writei's loop came from `off0` to `off`: none past `off0` if that is
      where it still is. */
  function EndBlock(off0: nat, off: nat): nat { if off == off0 then off0 / BSIZE else CeilDiv(off) }

  function One(b: bool): nat { if b then 1 else 0 }

  /** Most blocks one writei of `n` bytes can log: data blocks, a map block for each new one and for a
      new indirect block, the indirect block if it gets an entry, the inode block if the size grows. */
  function WriteCost(size: nat, off: nat, n: nat): nat {
    var nb, e := CeilDiv(size), EndBlock(off, off + n);
    e - Min(off / BSIZE, e) + Gained(nb, e) + One(e > NDIRECT && e > nb) + One(off + n > size)
  }

  /** How many blocks a file of `nb` blocks gains by growing to `e`, the indirect one included. */
  function Gained(nb: nat, e: nat): nat { Max(nb, e) - nb + One(e > NDIRECT >= nb) }

  /** filewrite's chunk: ((MAXOPBLOCKS-1-1-2) / 2) * 512. */
  const MAXCHUNK: nat := 1536

  /** The transaction bound: a chunk written inside or at the end of a file without holes fits
      MAXOPBLOCKS, even if every block it allocates comes from a different map block. */
  lemma ChunkFitsTransaction(size: nat, off: nat, n: nat)
    requires off <= size && n <= MAXCHUNK
    ensures WriteCost(size, off, n) <= LogSpec.MAXOPBLOCKS
  {
    var a, nb, e := off / BSIZE, CeilDiv(size), CeilDiv(off + n);
    assert off % BSIZE != 0 ==> nb >= a + 1;
    assert off % BSIZE == 0 ==> e <= a + 3;
    assert e <= a + 4;
  }

  // ----- the state of a write in progress -----

  /** Every file but `i` is as in `s0`; file `i` has its blocks up to `off` and its bytes from `off0`
      to `off` are `src`, the others as in `s0`. */
  ghost predicate Written(sb: Sb, s0: Fsys, s: Fsys, i: nat, off0: nat, off: nat, src: seq<byte>)
    ensures Written(sb, s0, s, i, off0, off, src) ==>
      Shape(sb, s0) && Shape(sb, s) && i < sb.ninodes && s.inodes[i].size == s0.inodes[i].size
  {
    && Shape(sb, s0) && Shape(sb, s) && i < sb.ninodes && off0 <= off <= off0 + |src|
    && HasBlocks(sb, s, i, Max(CeilDiv(s0.inodes[i].size), CeilDiv(off)))
    && (forall i' :: 0 <= i' < sb.ninodes ==>
          s.inodes[i'].size == s0.inodes[i'].size && (i' != i ==> s.inodes[i'] == s0.inodes[i']))
    && (forall i', j :: 0 <= i' < sb.ninodes && i' != i && 0 <= j < NSLOTS ==> Ref(sb, s, i', j) == Ref(sb, s0, i', j))
    && (forall i', k :: 0 <= i' < sb.ninodes && 0 <= k < MAXBYTES ==>
          FileByte(sb, s, i', k) == if i' == i && off0 <= k < off then src[k - off0] else FileByte(sb, s0, i', k))
  }

  /** `r` is `s` with `piece` written at `off`, inside one block, and that block mapped. */
  ghost predicate PieceWritten(sb: Sb, s: Fsys, r: Fsys, i: nat, off: nat, piece: seq<byte>)
    ensures PieceWritten(sb, s, r, i, off, piece) ==> Shape(sb, s) && Shape(sb, r)
  {
    && off < MAXBYTES && off % BSIZE + |piece| <= BSIZE
    && MapStep(sb, s, r, i, off / BSIZE)
    && Ref(sb, r, i, SlotOf(off / BSIZE)) != 0
    && (Ref(sb, r, i, NDIRECT) != 0 <==> Ref(sb, s, i, NDIRECT) != 0 || off / BSIZE >= NDIRECT)
    && (forall i', k :: 0 <= i' < sb.ninodes && 0 <= k < MAXBYTES ==>
          FileByte(sb, r, i', k) == if i' == i && off <= k < off + |piece| then piece[k - off] else FileByte(sb, s, i', k))
  }

  /** The blocks bmap logs on the way from `s` to `r`: a new block with its map block, the indirect
      block that got its address, and a new indirect block's map block. */
  ghost function BmapLog(sb: Sb, s: Fsys, r: Fsys, i: nat, bn: nat): set<nat>
    requires Shape(sb, s) && Shape(sb, r) && i < sb.ninodes && bn < MAXFILE
  {
    var e, p := Ref(sb, r, i, SlotOf(bn)), Ref(sb, r, i, NDIRECT);
    (if Ref(sb, s, i, SlotOf(bn)) != 0 then {} else {sb.MapBlock(e), e} + if bn < NDIRECT then {} else {p})
    + if bn >= NDIRECT && Ref(sb, s, i, NDIRECT) == 0 then {sb.MapBlock(p)} else {}
  }

  /** What one pass of writei's loop does, blocks logged included. */
  ghost predicate BlockDone(sb: Sb, s: Fsys, r: Fsys, i: nat, off: nat, piece: seq<byte>, log: set<nat>, log': set<nat>)
    ensures BlockDone(sb, s, r, i, off, piece, log, log') ==> Shape(sb, r)
  {
    && PieceWritten(sb, s, r, i, off, piece)
    && (Ref(sb, s, i, SlotOf(off / BSIZE)) != 0 ==> r.inodes == s.inodes)
    && log' == log + BmapLog(sb, s, r, i, off / BSIZE) + {Ref(sb, r, i, SlotOf(off / BSIZE))}
  }

  lemma PieceByte(sb: Sb, m: Fsys, owner: Owner, i: nat, off: nat, piece: seq<byte>, data: Block, i': nat, k: nat)
    requires RefsOwned(sb, m, owner) && i < sb.ninodes && off < MAXBYTES && off % BSIZE + |piece| <= BSIZE
    requires 0 < Ref(sb, m, i, SlotOf(off / BSIZE)) < sb.size
    requires SameRefs(sb, m, WriteData(sb, m, i, off / BSIZE, data)) && i' < sb.ninodes && k < MAXBYTES
    requires var e := Ref(sb, m, i, SlotOf(off / BSIZE)); forall x :: 0 <= x < BSIZE ==>
      data[x] == if off % BSIZE <= x < off % BSIZE + |piece| then piece[x - off % BSIZE] else m.view[e][x]
    ensures FileByte(sb, WriteData(sb, m, i, off / BSIZE, data), i', k)
      == if i' == i && off <= k < off + |piece| then piece[k - off] else FileByte(sb, m, i', k)
  {
    WriteDataByte(sb, m, owner, i, off / BSIZE, data, i', k);
  }

  lemma PieceStored(sb: Sb, s: Fsys, m: Fsys, owner: Owner, i: nat, off: nat, piece: seq<byte>, data: Block)
    requires off < MAXBYTES && off % BSIZE + |piece| <= BSIZE && Owned(sb, m, owner)
    requires MapStep(sb, s, m, i, off / BSIZE) && SameBytes(sb, s, m) && 0 < Ref(sb, m, i, SlotOf(off / BSIZE)) < sb.size
    requires Ref(sb, m, i, NDIRECT) != 0 <==> Ref(sb, s, i, NDIRECT) != 0 || off / BSIZE >= NDIRECT
    requires var e := Ref(sb, m, i, SlotOf(off / BSIZE)); forall x :: 0 <= x < BSIZE ==>
      data[x] == if off % BSIZE <= x < off % BSIZE + |piece| then piece[x - off % BSIZE] else m.view[e][x]
    ensures var r := WriteData(sb, m, i, off / BSIZE, data);
      Owned(sb, r, owner) && SameRefs(sb, m, r) && PieceWritten(sb, s, r, i, off, piece)
  {
    var r := WriteData(sb, m, i, off / BSIZE, data);
    WriteDataOwned(sb, m, owner, i, off / BSIZE, data);
    forall i', k | 0 <= i' < sb.ninodes && 0 <= k < MAXBYTES
      ensures FileByte(sb, r, i', k) == if i' == i && off <= k < off + |piece| then piece[k - off] else FileByte(sb, s, i', k)
    {
      PieceByte(sb, m, owner, i, off, piece, data, i', k);
      assert FileByte(sb, m, i', k) == FileByte(sb, s, i', k);
    }
  }

  /** One pass of writei's loop extends what is written. */
  lemma WritePass(sb: Sb, s0: Fsys, s: Fsys, r: Fsys, i: nat, off0: nat, off: nat, src: seq<byte>, len: nat)
    requires Written(sb, s0, s, i, off0, off, src) && 0 < len && off + len <= off0 + |src|
    requires PieceWritten(sb, s, r, i, off, src[off - off0..off - off0 + len])
    ensures Written(sb, s0, r, i, off0, off + len, src)
  {
    forall i', k | 0 <= i' < sb.ninodes && 0 <= k < MAXBYTES
      ensures FileByte(sb, r, i', k) == if i' == i && off0 <= k < off + len then src[k - off0] else FileByte(sb, s0, i', k)
    {
      assert FileByte(sb, s, i', k) == if i' == i && off0 <= k < off then src[k - off0] else FileByte(sb, s0, i', k);
    }
  }

  /** The file size set at the end of writei. */
  function Resized(s: Fsys, i: nat, size: uint): Fsys
    requires i < |s.inodes|
  {
    s.(inodes := s.inodes[i := s.inodes[i].(size := size)])
  }

  lemma ResizedOwned(sb: Sb, s: Fsys, owner: Owner, i: nat, size: uint)
    requires Owned(sb, s, owner) && i < sb.ninodes
    ensures Owned(sb, Resized(s, i, size), owner)
  {
    SameRefsOwned(sb, s, Resized(s, i, size), owner);
  }

  lemma WriteContent(sb: Sb, s0: Fsys, s: Fsys, i: nat, off0: nat, n: nat, src: seq<byte>)
    requires Written(sb, s0, s, i, off0, off0 + n, src) && |src| == n && off0 <= s0.inodes[i].size <= MAXBYTES
    requires off0 + n <= MAXBYTES && WellFormed(sb, s0, i)
    ensures var r := Resized(s, i, Max(s0.inodes[i].size, off0 + n));
      && SameRefs(sb, s, r) && WellFormed(sb, r, i)
      && off0 <= |Content(sb, s0, i)| && Content(sb, r, i) == Splice(Content(sb, s0, i), off0, src)
      && (forall i' :: 0 <= i' < sb.ninodes && i' != i ==> r.inodes[i'] == s0.inodes[i'] && SameFile(sb, s0, r, i'))
  {
    var size := Max(s0.inodes[i].size, off0 + n);
    var r := Resized(s, i, size);
    assert CeilDiv(size) == Max(CeilDiv(s0.inodes[i].size), CeilDiv(off0 + n));
    assert HasBlocks(sb, r, i, CeilDiv(size));
  }

  /** itrunc of inode `i` of `s0`, `n` slots done: their bits cleared, the direct pointers zeroed. */
  ghost predicate Truncating(sb: Sb, s0: Fsys, s: Fsys, owner0: Owner, i: nat, n: nat)
    requires Shape(sb, s0) && i < sb.ninodes
    ensures Truncating(sb, s0, s, owner0, i, n) ==> Shape(sb, s)
  {
    && Shape(sb, s)
    && MapIs(sb, s.view, owner0 - Freed(owner0, i, n))
    && (forall b :: sb.DataStart() <= b < sb.size ==> s.view[b] == s0.view[b])
    && |s.inodes| == |s0.inodes| && s.inodes[i].size == s0.inodes[i].size
    && (forall i' :: 0 <= i' < sb.ninodes && i' != i ==> s.inodes[i'] == s0.inodes[i'])
    && (forall j :: 0 <= j <= NDIRECT ==>
          s.inodes[i].addrs[j] == if j < n && j < NDIRECT then 0 else s0.inodes[i].addrs[j])
  }

  /** All slots done: every bit cleared, every pointer zeroed, the size still to go. */
  ghost predicate Emptied(sb: Sb, s0: Fsys, s: Fsys, owner0: Owner, i: nat)
    requires Shape(sb, s0) && i < sb.ninodes
    ensures Emptied(sb, s0, s, owner0, i) ==> Shape(sb, s)
  {
    && Shape(sb, s)
    && MapIs(sb, s.view, owner0 - Freed(owner0, i, NSLOTS))
    && (forall b :: sb.DataStart() <= b < sb.size ==> s.view[b] == s0.view[b])
    && |s.inodes| == |s0.inodes|
    && (forall i' :: 0 <= i' < sb.ninodes && i' != i ==> s.inodes[i'] == s0.inodes[i'])
    && (forall j :: 0 <= j <= NDIRECT ==> s.inodes[i].addrs[j] == 0)
  }

  lemma Truncated(sb: Sb, s0: Fsys, owner0: Owner, i: nat, s: Fsys, r: Fsys)
    requires Owned(sb, s0, owner0) && i < sb.ninodes && Emptied(sb, s0, s, owner0, i)
    requires r.view == s.view && r.inodes == s.inodes[i := s.inodes[i].(size := 0)]
    ensures r.inodes == s0.inodes[i := Inode(0, seq(NDIRECT + 1, _ => 0))]
    ensures Owned(sb, r, Without(owner0, i)) && WellFormed(sb, r, i)
    ensures forall i' :: 0 <= i' < sb.ninodes && i' != i ==> SameFile(sb, s0, r, i')
  {
    assert r.inodes[i].addrs == seq(NDIRECT + 1, _ => 0);
    assert r.inodes == s0.inodes[i := Inode(0, seq(NDIRECT + 1, _ => 0))];
    TruncOwned(sb, s0, owner0, i, r);
  }

  // ----- the blocks a write logs -----

  /** Blocks `a` to `e` of the file. */
  ghost function Datas(sb: Sb, r: Fsys, i: nat, a: nat, e: nat): set<nat>
    requires Shape(sb, r) && i < sb.ninodes && e <= MAXFILE
  {
    set bn | a <= bn < e :: Ref(sb, r, i, SlotOf(bn))
  }

  ghost function NewMaps(sb: Sb, r: Fsys, i: nat, nb: nat, e: nat): set<nat>
    requires Shape(sb, r) && i < sb.ninodes && e <= MAXFILE
  {
    set bn | nb <= bn < e :: sb.MapBlock(Ref(sb, r, i, SlotOf(bn)))
  }

  /** The map blocks of the blocks a file of `nb` blocks gained by growing to `e`, the indirect one
      included. */
  ghost function Maps(sb: Sb, r: Fsys, i: nat, nb: nat, e: nat): set<nat>
    requires Shape(sb, r) && i < sb.ninodes && e <= MAXFILE
  {
    NewMaps(sb, r, i, nb, e) + if e > NDIRECT >= nb then {sb.MapBlock(Ref(sb, r, i, NDIRECT))} else {}
  }

  ghost function Inds(sb: Sb, r: Fsys, i: nat, nb: nat, e: nat): set<nat>
    requires Shape(sb, r) && i < sb.ninodes
  {
    if e > NDIRECT && e > nb then {Ref(sb, r, i, NDIRECT)} else {}
  }

  /** All that writei's loop logs from `off0` to `off`, in terms of where the file's blocks are then. */
  ghost function LoopLog(sb: Sb, s0: Fsys, r: Fsys, i: nat, off0: nat, off: nat): set<nat>
    requires Shape(sb, s0) && Shape(sb, r) && i < sb.ninodes && off0 <= off <= MAXBYTES
  {
    var nb, e := CeilDiv(s0.inodes[i].size), EndBlock(off0, off);
    Datas(sb, r, i, off0 / BSIZE, e) + Maps(sb, r, i, nb, e) + Inds(sb, r, i, nb, e)
  }

  /** All that writei logs. */
  ghost function WriteLog(sb: Sb, s0: Fsys, r: Fsys, i: nat, off: nat, n: nat): set<nat>
    requires Shape(sb, s0) && Shape(sb, r) && i < sb.ninodes && off + n <= MAXBYTES
  {
    LoopLog(sb, s0, r, i, off, off + n) + if off + n > s0.inodes[i].size then {sb.InodeBlock(i)} else {}
  }

  lemma PassFacts(sb: Sb, s0: Fsys, s: Fsys, r: Fsys, i: nat, off0: nat, off: nat, piece: seq<byte>, src: seq<byte>)
    requires Written(sb, s0, s, i, off0, off, src) && off0 <= s0.inodes[i].size
    requires off < MAXBYTES && (off == off0 || off % BSIZE == 0) && PieceWritten(sb, s, r, i, off, piece)
    ensures var bn, nb := off / BSIZE, CeilDiv(s0.inodes[i].size);
      && (Ref(sb, s, i, SlotOf(bn)) != 0 <==> bn < nb)
      && (bn >= NDIRECT ==> (Ref(sb, s, i, NDIRECT) == 0 <==> bn == NDIRECT >= nb))
      && (forall c :: 0 <= c < bn ==> Ref(sb, r, i, SlotOf(c)) == Ref(sb, s, i, SlotOf(c)))
      && (Ref(sb, s, i, NDIRECT) != 0 ==> Ref(sb, r, i, NDIRECT) == Ref(sb, s, i, NDIRECT))
  {
    hide Ref, FileByte;
    var bn, nb := off / BSIZE, CeilDiv(s0.inodes[i].size);
    assert off == off0 ==> CeilDiv(off) <= nb;
    assert off % BSIZE == 0 ==> CeilDiv(off) == bn;
    assert Ref(sb, s, i, SlotOf(bn)) != 0 <==> bn < Max(nb, CeilDiv(off));
  }

  /** One pass logs what `LoopLog` gains by it. */
  lemma LogPass(sb: Sb, s0: Fsys, s: Fsys, r: Fsys, i: nat, off0: nat, off: nat, piece: seq<byte>, src: seq<byte>)
    requires Written(sb, s0, s, i, off0, off, src) && off0 <= s0.inodes[i].size && 0 < |piece| <= BSIZE - off % BSIZE
    requires off < MAXBYTES && (off == off0 || off % BSIZE == 0) && PieceWritten(sb, s, r, i, off, piece)
    requires off + |piece| <= MAXBYTES && off0 <= off
    ensures LoopLog(sb, s0, r, i, off0, off + |piece|)
      == LoopLog(sb, s0, s, i, off0, off) + BmapLog(sb, s, r, i, off / BSIZE) + {Ref(sb, r, i, SlotOf(off / BSIZE))}
    ensures Ref(sb, s, i, SlotOf(off / BSIZE)) != 0 <==> off / BSIZE < CeilDiv(s0.inodes[i].size)
  {
    hide Ref;
    PassFacts(sb, s0, s, r, i, off0, off, piece, src);
    hide Written, PieceWritten, Datas, Maps, Inds, BmapLog;
    var bn := off / BSIZE;
    assert EndBlock(off0, off) == bn && EndBlock(off0, off + |piece|) == bn + 1;
    OneMore(sb, s, r, i, off0 / BSIZE, CeilDiv(s0.inodes[i].size), bn);
  }

  lemma OneMore(sb: Sb, s: Fsys, r: Fsys, i: nat, a: nat, nb: nat, bn: nat)
    requires Shape(sb, s) && Shape(sb, r) && i < sb.ninodes && a <= bn < MAXFILE
    requires forall c :: 0 <= c < bn ==> Ref(sb, r, i, SlotOf(c)) == Ref(sb, s, i, SlotOf(c))
    requires Ref(sb, s, i, NDIRECT) != 0 ==> Ref(sb, r, i, NDIRECT) == Ref(sb, s, i, NDIRECT)
    requires Ref(sb, s, i, SlotOf(bn)) != 0 <==> bn < nb
    requires bn >= NDIRECT ==> (Ref(sb, s, i, NDIRECT) == 0 <==> bn == NDIRECT >= nb)
    ensures Datas(sb, r, i, a, bn + 1) + Maps(sb, r, i, nb, bn + 1) + Inds(sb, r, i, nb, bn + 1)
      == Datas(sb, s, i, a, bn) + Maps(sb, s, i, nb, bn) + Inds(sb, s, i, nb, bn)
         + BmapLog(sb, s, r, i, bn) + {Ref(sb, r, i, SlotOf(bn))}
  {
    hide Ref;
    var e := Ref(sb, r, i, SlotOf(bn));
    assert Datas(sb, r, i, a, bn + 1) == Datas(sb, s, i, a, bn) + {e};
    assert NewMaps(sb, r, i, nb, bn + 1) == NewMaps(sb, s, i, nb, bn) + if nb <= bn then {sb.MapBlock(e)} else {};
  }

  /** Where writei's loop stands: what it has written and what it has logged. */
  ghost predicate Progress(sb: Sb, s0: Fsys, s: Fsys, i: nat, off0: nat, off: nat, src: seq<byte>, log0: set<nat>, log: set<nat>)
    ensures Progress(sb, s0, s, i, off0, off, src, log0, log) ==> Written(sb, s0, s, i, off0, off, src)
  {
    && Written(sb, s0, s, i, off0, off, src) && off <= MAXBYTES
    && log == log0 + LoopLog(sb, s0, s, i, off0, off)
    && (s.inodes != s0.inodes ==> CeilDiv(off) > CeilDiv(s0.inodes[i].size))
  }

  lemma Start(sb: Sb, s: Fsys, i: nat, off: nat, src: seq<byte>, log: set<nat>)
    requires Shape(sb, s) && i < sb.ninodes && WellFormed(sb, s, i) && off <= s.inodes[i].size
    ensures Progress(sb, s, s, i, off, off, src, log, log)
  {
    assert LoopLog(sb, s, s, i, off, off) == {};
  }

  lemma Pass(sb: Sb, s0: Fsys, s: Fsys, r: Fsys, i: nat, off0: nat, off: nat, piece: seq<byte>, src: seq<byte>,
             log0: set<nat>, log: set<nat>, log': set<nat>)
    requires Progress(sb, s0, s, i, off0, off, src, log0, log)
    requires off0 <= off && off0 <= s0.inodes[i].size && 0 < |piece| <= BSIZE - off % BSIZE
    requires off < MAXBYTES && (off == off0 || off % BSIZE == 0)
    requires off + |piece| <= off0 + |src| && piece == src[off - off0..off - off0 + |piece|]
    requires BlockDone(sb, s, r, i, off, piece, log, log')
    ensures Progress(sb, s0, r, i, off0, off + |piece|, src, log0, log')
  {
    hide Written, PieceWritten, Ref, LoopLog, BmapLog;
    WritePass(sb, s0, s, r, i, off0, off, src, |piece|);
    LogPass(sb, s0, s, r, i, off0, off, piece, src);
  }

  // ----- how many that is -----

  /** A write logs its cost less the map blocks that serve more than one new block: the cost is met
      exactly when each block gained comes from a map block of its own. */
  lemma WriteLogExact(sb: Sb, s0: Fsys, r: Fsys, owner: Owner, i: nat, off: nat, n: nat)
    requires Shape(sb, s0) && RefsOwned(sb, r, owner) && i < sb.ninodes && off + n <= MAXBYTES && off <= s0.inodes[i].size
    requires HasBlocks(sb, r, i, Max(CeilDiv(s0.inodes[i].size), CeilDiv(off + n)))
    ensures var nb, e := CeilDiv(s0.inodes[i].size), EndBlock(off, off + n);
      |WriteLog(sb, s0, r, i, off, n)| == WriteCost(s0.inodes[i].size, off, n) - Gained(nb, e) + |Maps(sb, r, i, nb, e)|
  {
    var size := s0.inodes[i].size;
    var a, nb, e := off / BSIZE, CeilDiv(size), EndBlock(off, off + n);
    WriteLogIs(sb, s0, r, i, off, n);
    EndWithin(size, off, n);
    hide CeilDiv, EndBlock, Gained, One;
    Parts(sb, r, owner, i, a, nb, e, Max(nb, CeilDiv(off + n)));
    hide Datas, Maps, Inds, RefsOwned, WriteLog, HasBlocks;
    var b := if off + n > size then {sb.InodeBlock(i)} else {};
    assert sb.InodeBlock(i) < sb.bmapstart;
    FourParts(Datas(sb, r, i, a, e), Maps(sb, r, i, nb, e), Inds(sb, r, i, nb, e), b, sb.bmapstart, sb.DataStart());
  }

  lemma EndWithin(size: nat, off: nat, n: nat)
    requires off <= size
    ensures EndBlock(off, off + n) <= Max(CeilDiv(size), CeilDiv(off + n))
  {
  }

  lemma FourParts(d: set<nat>, m: set<nat>, p: set<nat>, b: set<nat>, lo: nat, hi: nat)
    requires (forall x :: x in d ==> x >= hi) && (forall x :: x in m ==> lo <= x < hi)
    requires (forall x :: x in p ==> x >= hi && x !in d) && (forall x :: x in b ==> x < lo <= hi)
    ensures |d + m + p + b| == |d| + |m| + |p| + |b|
  {
    UnionSize(d, m);
    UnionSize(d + m, p);
    UnionSize(d + m + p, b);
  }

  /** Where the blocks logged lie, and how many of each kind there are. */
  lemma Parts(sb: Sb, r: Fsys, owner: Owner, i: nat, a: nat, nb: nat, e: nat, have: nat)
    requires RefsOwned(sb, r, owner) && i < sb.ninodes && HasBlocks(sb, r, i, have) && e <= have
    ensures forall x :: x in Datas(sb, r, i, a, e) ==> x >= sb.DataStart()
    ensures forall x :: x in Maps(sb, r, i, nb, e) ==> sb.bmapstart <= x < sb.DataStart()
    ensures forall x :: x in Inds(sb, r, i, nb, e) ==> x >= sb.DataStart() && x !in Datas(sb, r, i, a, e)
    ensures |Datas(sb, r, i, a, e)| == e - Min(a, e) && |Inds(sb, r, i, nb, e)| == One(e > NDIRECT && e > nb)
  {
    forall j | 0 <= j < e ensures Ref(sb, r, i, SlotOf(j)) != 0 {}
    assert e > NDIRECT ==> Ref(sb, r, i, NDIRECT) != 0;
    hide HasBlocks, Ref, RefsOwned, Datas, Maps, Inds;
    DatasDistinct(sb, r, owner, i, a, e);
    MapsArePlaced(sb, r, owner, i, nb, e);
    DatasSize(sb, r, i, a, e);
    IndsPlaced(sb, r, owner, i, a, nb, e);
  }

  lemma WriteLogIs(sb: Sb, s0: Fsys, r: Fsys, i: nat, off: nat, n: nat)
    requires Shape(sb, s0) && Shape(sb, r) && i < sb.ninodes && off + n <= MAXBYTES
    ensures var nb, e := CeilDiv(s0.inodes[i].size), EndBlock(off, off + n);
      WriteLog(sb, s0, r, i, off, n)
        == Datas(sb, r, i, off / BSIZE, e) + Maps(sb, r, i, nb, e) + Inds(sb, r, i, nb, e)
           + if off + n > s0.inodes[i].size then {sb.InodeBlock(i)} else {}
  {
  }

  lemma DatasDistinct(sb: Sb, r: Fsys, owner: Owner, i: nat, a: nat, e: nat)
    requires RefsOwned(sb, r, owner) && i < sb.ninodes && e <= MAXFILE
    requires forall j :: 0 <= j < e ==> Ref(sb, r, i, SlotOf(j)) != 0
    ensures forall j, k :: a <= j < k < e ==> Ref(sb, r, i, SlotOf(j)) != Ref(sb, r, i, SlotOf(k))
    ensures forall x :: x in Datas(sb, r, i, a, e) ==> x >= sb.DataStart()
  {
    hide Ref;
    forall j | 0 <= j < e ensures Ref(sb, r, i, SlotOf(j)) >= sb.DataStart() { RefInRange(sb, r, owner, i, SlotOf(j)); }
    forall j, k | a <= j < k < e ensures Ref(sb, r, i, SlotOf(j)) != Ref(sb, r, i, SlotOf(k)) {
      assert SlotOwned(sb, r, owner, i, SlotOf(j)) && SlotOwned(sb, r, owner, i, SlotOf(k));
    }
  }

  lemma MapsArePlaced(sb: Sb, r: Fsys, owner: Owner, i: nat, nb: nat, e: nat)
    requires RefsOwned(sb, r, owner) && i < sb.ninodes && e <= MAXFILE
    requires forall j :: 0 <= j < e ==> Ref(sb, r, i, SlotOf(j)) != 0
    requires e > NDIRECT >= nb ==> Ref(sb, r, i, NDIRECT) != 0
    ensures forall x :: x in Maps(sb, r, i, nb, e) ==> sb.bmapstart <= x < sb.DataStart()
  {
    hide Ref;
    forall j | 0 <= j < e ensures Ref(sb, r, i, SlotOf(j)) < sb.size { RefInRange(sb, r, owner, i, SlotOf(j)); }
    if e > NDIRECT >= nb { RefInRange(sb, r, owner, i, NDIRECT); }
  }

  lemma IndsPlaced(sb: Sb, r: Fsys, owner: Owner, i: nat, a: nat, nb: nat, e: nat)
    requires RefsOwned(sb, r, owner) && i < sb.ninodes && e <= MAXFILE
    requires forall j :: 0 <= j < e ==> Ref(sb, r, i, SlotOf(j)) != 0
    requires e > NDIRECT && e > nb ==> Ref(sb, r, i, NDIRECT) != 0
    ensures forall x :: x in Inds(sb, r, i, nb, e) ==> x >= sb.DataStart() && x !in Datas(sb, r, i, a, e)
    ensures |Inds(sb, r, i, nb, e)| == One(e > NDIRECT && e > nb)
  {
    hide Ref;
    if e > NDIRECT && e > nb {
      RefInRange(sb, r, owner, i, NDIRECT);
      assert SlotOwned(sb, r, owner, i, NDIRECT);
      forall j | a <= j < e ensures Ref(sb, r, i, SlotOf(j)) != Ref(sb, r, i, NDIRECT) {
        assert SlotOwned(sb, r, owner, i, SlotOf(j));
      }
    }
  }

  /** The bound is met by a real write, and only just: one full chunk from byte 5633, the end of the
      file, logs ten blocks exactly when the four blocks it gains come from four map blocks; and a
      chunk one byte longer, from byte 6144, eleven when its five come from five. */
  lemma ChunkBoundTight(sb: Sb, s0: Fsys, r: Fsys, owner: Owner, i: nat)
    requires Shape(sb, s0) && RefsOwned(sb, r, owner) && i < sb.ninodes
    ensures s0.inodes[i].size == 5633 && HasBlocks(sb, r, i, 15) ==>
      (|WriteLog(sb, s0, r, i, 5633, MAXCHUNK)| == LogSpec.MAXOPBLOCKS <==> |Maps(sb, r, i, 12, 15)| == 4)
    ensures s0.inodes[i].size == 6144 && HasBlocks(sb, r, i, 16) ==>
      (|WriteLog(sb, s0, r, i, 6144, MAXCHUNK + 1)| == LogSpec.MAXOPBLOCKS + 1 <==> |Maps(sb, r, i, 12, 16)| == 5)
  {
    assert CeilDiv(5633) == 12 && CeilDiv(5633 + MAXCHUNK) == 15;
    assert CeilDiv(6144) == 12 && CeilDiv(6144 + MAXCHUNK + 1) == 16;
    hide WriteLog, Maps, HasBlocks, RefsOwned;
    if s0.inodes[i].size == 5633 && HasBlocks(sb, r, i, 15) { WriteLogExact(sb, s0, r, owner, i, 5633, MAXCHUNK); }
    if s0.inodes[i].size == 6144 && HasBlocks(sb, r, i, 16) { WriteLogExact(sb, s0, r, owner, i, 6144, MAXCHUNK + 1); }
  }

  lemma SameLog(sb: Sb, s0: Fsys, s: Fsys, r: Fsys, i: nat, off0: nat, off: nat)
    requires Shape(sb, s0) && i < sb.ninodes && off0 <= off <= MAXBYTES && Shape(sb, s) && Shape(sb, r) && SameRefs(sb, s, r)
    ensures LoopLog(sb, s0, r, i, off0, off) == LoopLog(sb, s0, s, i, off0, off)
  {
    hide Ref;
  }

  /** Every file but `i` is as it was: inode, blocks and bytes. */
  ghost predicate OthersKept(sb: Sb, s: Fsys, r: Fsys, i: nat)
    requires Shape(sb, s) && Shape(sb, r)
  {
    forall i' :: 0 <= i' < sb.ninodes && i' != i ==> r.inodes[i'] == s.inodes[i'] && SameFile(sb, s, r, i')
  }

  lemma KeptSelf(sb: Sb, s: Fsys, i: nat)
    requires Shape(sb, s)
    ensures OthersKept(sb, s, s, i)
  {
  }

  lemma OthersKeptTwice(sb: Sb, s: Fsys, m: Fsys, r: Fsys, i: nat)
    requires Shape(sb, s) && Shape(sb, m) && Shape(sb, r) && OthersKept(sb, s, m, i) && OthersKept(sb, m, r, i)
    ensures OthersKept(sb, s, r, i)
  {
    hide FileByte, Ref;
    forall i' | 0 <= i' < sb.ninodes && i' != i ensures SameFile(sb, s, r, i') {
      assert SameFile(sb, s, m, i') && SameFile(sb, m, r, i');
    }
  }

  ghost function Union(txs: seq<set<nat>>): set<nat> {
    if txs == [] then {} else Union(txs[..|txs| - 1]) + txs[|txs| - 1]
  }

  lemma UnionNone(log: set<nat>)
    ensures log == log + Union([])
  {
  }

  lemma UnionMore(log: set<nat>, txs: seq<set<nat>>, tx: set<nat>)
    ensures log + Union(txs + [tx]) == log + Union(txs) + tx
  {
    assert (txs + [tx])[..|txs|] == txs;
  }

  lemma SpliceSize(c: seq<byte>, off: nat, src: seq<byte>)
    requires off <= |c|
    ensures |Splice(c, off, src)| >= off + |src|
  {
  }

  /** A chunk is refused in a call that starts past the end, or when the call goes past the largest
      file and this is the chunk that would. */
  lemma WhenRefused(size0: nat, size: nat, off0: uint, i: nat, n: nat, n1: nat)
    requires size0 <= MAXBYTES && size <= MAXBYTES && i < n && i % MAXCHUNK == 0 && n1 == Min(n - i, MAXCHUNK)
    requires if i == 0 then size == size0 else off0 <= size0 && off0 + i <= size
    requires off0 + i < UINT_LIMIT && WriteRefused(size, off0 + i, n1)
    ensures off0 > size0 || off0 + n > MAXBYTES
    ensures i == if off0 > size0 then 0 else (MAXBYTES - off0) / MAXCHUNK * MAXCHUNK
  {
  }

  lemma UnionSize<T>(a: set<T>, b: set<T>)
    ensures |a + b| <= |a| + |b|
    ensures a !! b ==> |a + b| == |a| + |b|
  {
    assert |a + b| == |a| + |b| - |a * b|;
  }

  /** No write logs more than its cost. */
  lemma WriteLogFits(sb: Sb, s0: Fsys, r: Fsys, i: nat, off: nat, n: nat)
    requires Shape(sb, s0) && Shape(sb, r) && i < sb.ninodes && off + n <= MAXBYTES && off <= s0.inodes[i].size
    ensures |WriteLog(sb, s0, r, i, off, n)| <= WriteCost(s0.inodes[i].size, off, n)
  {
    var size := s0.inodes[i].size;
    var nb, e := CeilDiv(size), EndBlock(off, off + n);
    var d, m, p := Datas(sb, r, i, off / BSIZE, e), Maps(sb, r, i, nb, e), Inds(sb, r, i, nb, e);
    DatasSize(sb, r, i, off / BSIZE, e);
    MapsSize(sb, r, i, nb, e);
    hide Datas, Maps, Inds;
    UnionSize(d, m);
    UnionSize(d + m, p);
    UnionSize(d + m + p, if off + n > size then {sb.InodeBlock(i)} else {});
  }

  lemma {:induction false} DatasSize(sb: Sb, r: Fsys, i: nat, a: nat, e: nat)
    requires Shape(sb, r) && i < sb.ninodes && e <= MAXFILE
    ensures |Datas(sb, r, i, a, e)| <= e - Min(a, e)
    ensures (forall j, k :: a <= j < k < e ==> Ref(sb, r, i, SlotOf(j)) != Ref(sb, r, i, SlotOf(k))) ==>
      |Datas(sb, r, i, a, e)| == e - Min(a, e)
    decreases e
  {
    hide Ref;
    if a < e {
      DatasSize(sb, r, i, a, e - 1);
      assert Datas(sb, r, i, a, e) == Datas(sb, r, i, a, e - 1) + {Ref(sb, r, i, SlotOf(e - 1))};
    } else {
      assert Datas(sb, r, i, a, e) == {};
    }
  }

  lemma {:induction false} NewMapsSize(sb: Sb, r: Fsys, i: nat, nb: nat, e: nat)
    requires Shape(sb, r) && i < sb.ninodes && e <= MAXFILE
    ensures |NewMaps(sb, r, i, nb, e)| <= Max(nb, e) - nb
    decreases e
  {
    hide Ref;
    if nb < e {
      NewMapsSize(sb, r, i, nb, e - 1);
      assert NewMaps(sb, r, i, nb, e) == NewMaps(sb, r, i, nb, e - 1) + {sb.MapBlock(Ref(sb, r, i, SlotOf(e - 1)))};
    } else {
      assert NewMaps(sb, r, i, nb, e) == {};
    }
  }

  lemma MapsSize(sb: Sb, r: Fsys, i: nat, nb: nat, e: nat)
    requires Shape(sb, r) && i < sb.ninodes && e <= MAXFILE
    ensures |Maps(sb, r, i, nb, e)| <= Gained(nb, e)
  {
    NewMapsSize(sb, r, i, nb, e);
    hide NewMaps;
    UnionSize(NewMaps(sb, r, i, nb, e), if e > NDIRECT >= nb then {sb.MapBlock(Ref(sb, r, i, NDIRECT))} else {});
  }

  lemma NotRefused(size: nat, off: uint, n: uint)
    requires size <= MAXBYTES && !WriteRefused(size, off, n)
    ensures off <= size && off + n <= MAXBYTES
  {
  }

  lemma UsedInMapBlock(sb: Sb, view: seq<Block>, b: nat, bi: nat)
    requires sb.Valid() && |view| == sb.size && b % BPB == 0 && bi < BPB && b + bi < sb.size
    ensures Used(sb, view, b + bi) == Bit(view[sb.MapBlock(b)], bi)
  {
    assert (b + bi) / BPB == b / BPB && (b + bi) % BPB == bi;
  }

  class Fs {
    const sb: Sb
    var view: seq<Block>
    var inodes: seq<Inode>   // in-memory copies
    var dinodes: seq<Inode>  // copies in the inode blocks
    ghost var owner: Owner
    ghost var logged: set<nat>

    ghost function S(): Fsys
      reads this
    {
      Fsys(view, inodes)
    }

    ghost predicate Valid()
      reads this
      ensures Valid() ==> Shape(sb, S())
    {
      Owned(sb, S(), owner) && |dinodes| == sb.ninodes
    }

    ghost predicate FullDisk()
      reads this
      requires sb.Valid() && |view| == sb.size
    {
      forall b :: 0 <= b < sb.size ==> Used(sb, view, b)
    }

    /** balloc: the lowest free block, marked and zeroed; None is its panic. */
    method Balloc() returns (r: Option<uint>)
      requires sb.Valid() && |view| == sb.size
      modifies this`view, this`logged
      ensures r.None? ==> view == old(view) && FullDisk()
      ensures r.Some? ==>
        && r.value < sb.size && !Used(sb, old(view), r.value)
        && (forall c :: 0 <= c < r.value ==> Used(sb, old(view), c))
        && view == Alloc(sb, old(view), r.value)
        && logged == old(logged) + {sb.MapBlock(r.value), r.value}
    {
      hide Used, PutUsed, Sb.MapBlock, Sb.DataStart;
      var b := 0;
      while b < sb.size
        invariant b % BPB == 0 && view == old(view) && logged == old(logged)
        invariant forall c :: 0 <= c < b && c < sb.size ==> Used(sb, view, c)
      {
        var bi := ScanMapBlock(b);
        if b + bi < sb.size && bi < BPB {
          SetMapBit(b + bi, true);
          Bzero(b + bi);
          return Some(b + bi);
        }
        b := b + BPB;
      }
      r := None;
    }

    /** The inner loop of balloc: the first clear bit of one map block. */
    method ScanMapBlock(b: nat) returns (bi: nat)
      requires sb.Valid() && |view| == sb.size && b < sb.size && b % BPB == 0
      ensures bi <= BPB && forall c :: b <= c < b + bi && c < sb.size ==> Used(sb, view, c)
      ensures bi < BPB && b + bi < sb.size ==> !Used(sb, view, b + bi)
      ensures bi < BPB ==> b + bi <= sb.size
    {
      var bp := view[sb.MapBlock(b)];
      bi := 0;
      while bi < BPB && b + bi < sb.size
        invariant bi <= BPB && (bi < BPB ==> b + bi <= sb.size)
        invariant forall c :: b <= c < b + bi && c < sb.size ==> Used(sb, view, c)
      {
        UsedInMapBlock(sb, view, b, bi);
        if !Bit(bp, bi) { return; }
        bi := bi + 1;
      }
    }

    method Bzero(b: nat)
      requires b < |view|
      modifies this`view, this`logged
      ensures view == old(view)[b := ZeroBlock()] && logged == old(logged) + {b}
    {
      view := view[b := ZeroBlock()];
      logged := logged + {b};
    }

    /** bfree; a free block is its panic. */
    method Bfree(b: uint)
      requires sb.Valid() && |view| == sb.size && b < sb.size && Used(sb, view, b)
      modifies this`view, this`logged
      ensures view == PutUsed(sb, old(view), b, false) && logged == old(logged) + {sb.MapBlock(b)}
    {
      SetMapBit(b, false);
    }

    /** The map block of `b` read, one bit of it changed, and logged. */
    method SetMapBit(b: nat, on: bool)
      requires sb.Valid() && |view| == sb.size && b < sb.size
      modifies this`view, this`logged
      ensures view == PutUsed(sb, old(view), b, on) && logged == old(logged) + {sb.MapBlock(b)}
    {
      var bp := view[sb.MapBlock(b)];
      view := view[sb.MapBlock(b) := PutBit(bp, b % BPB, on)];
      logged := logged + {sb.MapBlock(b)};
    }

    /** A fresh block put into an empty pointer of an inode: `ip->addrs[j] = balloc(ip->dev)`. */
    method AllocPointer(i: nat, j: nat) returns (r: Option<uint>)
      requires Valid() && i < sb.ninodes && j <= NDIRECT && Ref(sb, S(), i, j) == 0
      modifies this`view, this`inodes, this`owner, this`logged
      ensures Valid() && SameBytes(sb, old(S()), S())
      ensures r.None? ==> S() == old(S()) && FullDisk()
      ensures r.Some? ==>
        && Attached(sb, old(S()), S(), i, j, r.value)
        && inodes == old(inodes)[i := old(inodes)[i].(addrs := old(inodes)[i].addrs[j := r.value])]
        && logged == old(logged) + {sb.MapBlock(r.value), r.value}
    {
      ghost var s0, owner0 := S(), owner;
      r := Balloc();
      if r.Some? {
        var b := r.value;
        assert sb.DataStart() <= b && b !in owner0;
        inodes := inodes[i := inodes[i].(addrs := inodes[i].addrs[j := b])];
        owner := owner[b := (i, j)];
        AttachDirectOwned(sb, s0, owner0, i, j, b);
        MapAfterAlloc(sb, s0.view, owner0, b, (i, j));
      }
    }

    /** A fresh block put into an empty entry of an indirect block: `a[k] = balloc(ip->dev)`. */
    method AllocEntry(i: nat, k: nat, p: nat) returns (r: Option<uint>)
      requires Valid() && i < sb.ninodes && k < NINDIRECT && p == Ref(sb, S(), i, NDIRECT)
      requires sb.DataStart() <= p < sb.size && Ref(sb, S(), i, NDIRECT + 1 + k) == 0
      modifies this`view, this`owner, this`logged
      ensures Valid() && SameBytes(sb, old(S()), S())
      ensures r.None? ==> S() == old(S()) && FullDisk()
      ensures r.Some? ==>
        && Attached(sb, old(S()), S(), i, NDIRECT + 1 + k, r.value)
        && logged == old(logged) + {sb.MapBlock(r.value), r.value} + {p}
    {
      ghost var s0, owner0 := S(), owner;
      r := Balloc();
      if r.Some? {
        var b := r.value;
        assert sb.DataStart() <= b && b !in owner0;
        ghost var was := view[p];
        var data := StoreWord(view[p], k, b);
        view := view[p := data];
        logged := logged + {p};
        owner := owner0[b := (i, NDIRECT + 1 + k)];
        EntryAllocated(sb, s0, owner0, i, k, b, Fsys(view, s0.inodes), was, data);
      }
    }

    /** bmap: the block holding block `bn` of the file, allocated if there is none. No byte of any
        file changes; the slots that may change are the one asked for and the indirect pointer. */
    method Bmap(i: nat, bn: nat) returns (r: Option<uint>)
      requires Valid() && i < sb.ninodes && bn < MAXFILE
      modifies this`view, this`inodes, this`owner, this`logged
      ensures Valid() && SameBytes(sb, old(S()), S()) && MapStep(sb, old(S()), S(), i, bn)
      ensures r.None? ==> FullDisk()
      ensures r.Some? ==> r.value != 0 && r.value == Ref(sb, S(), i, SlotOf(bn))
      ensures r.Some? ==> (Ref(sb, S(), i, NDIRECT) != 0 <==> Ref(sb, old(S()), i, NDIRECT) != 0 || bn >= NDIRECT)
      ensures Ref(sb, old(S()), i, SlotOf(bn)) != 0 ==> r.Some? && S() == old(S()) && logged == old(logged)
      ensures r.Some? ==> logged == old(logged) + BmapLog(sb, old(S()), S(), i, bn)
    {
      if bn < NDIRECT {
        r := BmapDirect(i, bn);
      } else {
        r := BmapIndirect(i, bn - NDIRECT);
      }
    }

    method BmapDirect(i: nat, bn: nat) returns (r: Option<uint>)
      requires Valid() && i < sb.ninodes && bn < NDIRECT
      modifies this`view, this`inodes, this`owner, this`logged
      ensures Valid() && SameBytes(sb, old(S()), S()) && MapStep(sb, old(S()), S(), i, bn)
      ensures r.None? ==> FullDisk()
      ensures r.Some? ==> r.value != 0 && r.value == Ref(sb, S(), i, bn)
      ensures Ref(sb, S(), i, NDIRECT) == Ref(sb, old(S()), i, NDIRECT)
      ensures Ref(sb, old(S()), i, bn) != 0 ==> r.Some? && S() == old(S()) && logged == old(logged)
      ensures r.Some? ==> logged == old(logged) + BmapLog(sb, old(S()), S(), i, bn)
    {
      ghost var s0 := S();
      var addr := inodes[i].addrs[bn];
      if addr == 0 {
        r := AllocPointer(i, bn);
      } else {
        r := Some(addr);
      }
    }

    method BmapIndirect(i: nat, k: nat) returns (r: Option<uint>)
      requires Valid() && i < sb.ninodes && k < NINDIRECT
      modifies this`view, this`inodes, this`owner, this`logged
      ensures var j := NDIRECT + 1 + k;
        && Valid() && SameBytes(sb, old(S()), S()) && MapStep(sb, old(S()), S(), i, NDIRECT + k)
        && (r.None? ==> FullDisk())
        && (r.Some? ==> r.value != 0 && r.value == Ref(sb, S(), i, j) && Ref(sb, S(), i, NDIRECT) != 0)
        && (Ref(sb, old(S()), i, j) != 0 ==> r.Some? && S() == old(S()) && logged == old(logged))
        && (r.Some? ==> logged == old(logged) + BmapLog(sb, old(S()), S(), i, NDIRECT + k))
    {
      ghost var s0, bn := S(), NDIRECT + k;
      if inodes[i].addrs[NDIRECT] == 0 {
        var ind := AllocPointer(i, NDIRECT);
        if ind.None? { return None; }
      }
      ghost var s1 := S();
      var p, addr := LoadEntry(i, k);
      if addr == 0 {
        r := AllocEntry(i, k, p);
      } else {
        r := Some(addr);
      }
    }

    method LoadEntry(i: nat, k: nat) returns (p: nat, addr: uint)
      requires Valid() && i < sb.ninodes && k < NINDIRECT && Ref(sb, S(), i, NDIRECT) != 0
      ensures p == Ref(sb, S(), i, NDIRECT) && sb.DataStart() <= p < sb.size && addr == Ref(sb, S(), i, NDIRECT + 1 + k)
    {
      p := inodes[i].addrs[NDIRECT];
      assert SlotOwned(sb, S(), owner, i, NDIRECT) && BlockOwned(sb, S(), p, owner[p]);
      addr := Word(view[p], k);
    }

    /** The body of writei's loop: map the block at `off`, copy `piece` into it, log it. */
    method WriteBlock(i: nat, off: nat, piece: seq<byte>) returns (ok: bool)
      requires Valid() && i < sb.ninodes && off < MAXBYTES && off % BSIZE + |piece| <= BSIZE
      modifies this`view, this`inodes, this`owner, this`logged
      ensures Valid() && (!ok ==> FullDisk())
      ensures ok ==> BlockDone(sb, old(S()), S(), i, off, piece, old(logged), logged)
    {
      hide RefsOwned, MapIs, MapStep, Ref, PieceWritten;
      var bn := off / BSIZE;
      ghost var s := S();
      var addr := Bmap(i, bn);
      if addr.None? { return false; }
      ok := true;
      var e := addr.value;
      ghost var m := S();
      RefInRange(sb, m, owner, i, SlotOf(bn));
      var data := CopyInto(view[e], off % BSIZE, piece);
      view := view[e := data];
      logged := logged + {e};
      PieceStored(sb, s, m, owner, i, off, piece, data);
    }

    /** writei's loop. */
    method WriteBlocks(i: nat, src: seq<byte>, off0: nat, n: nat) returns (ok: bool)
      requires Valid() && i < sb.ninodes && |src| == n && WellFormed(sb, S(), i)
      requires off0 <= inodes[i].size && off0 + n <= MAXBYTES
      modifies this`view, this`inodes, this`owner, this`logged
      ensures Valid() && (!ok ==> FullDisk())
      ensures ok ==> Progress(sb, old(S()), S(), i, off0, off0 + n, src, old(logged), logged)
    {
      hide Owned, Written, PieceWritten, WellFormed, Ref, Progress, MapStep, BlockDone;
      ghost var s0, log0 := S(), logged;
      var tot, off := 0, off0;
      Start(sb, s0, i, off0, src, log0);
      while tot < n
        invariant tot <= n && off == off0 + tot && Valid()
        invariant tot == 0 || tot == n || off % BSIZE == 0
        invariant Progress(sb, s0, S(), i, off0, off, src, log0, logged)
      {
        ghost var s, log := S(), logged;
        var len := Min(n - tot, BSIZE - off % BSIZE);
        var piece := src[tot..tot + len];
        var done := WriteBlock(i, off, piece);
        if !done { return false; }
        Pass(sb, s0, s, S(), i, off0, off, piece, src, log0, log, logged);
        tot, off := tot + len, off + len;
      }
      ok := true;
    }

    /** writei, for a file that is not a device. */
    method Writei(i: nat, src: seq<byte>, off0: uint, n: uint) returns (r: Io)
      requires Valid() && i < sb.ninodes && |src| == n && WellFormed(sb, S(), i)
      modifies this`view, this`inodes, this`dinodes, this`owner, this`logged
      ensures Valid()
      ensures r.Refused? <==> WriteRefused(old(inodes)[i].size, off0, n)
      ensures r.Refused? ==> S() == old(S()) && dinodes == old(dinodes) && logged == old(logged)
      ensures r.Panicked? ==> FullDisk()
      ensures r.Done? ==> r.n == n && WellFormed(sb, S(), i)
      ensures r.Done? ==> off0 <= |Content(sb, old(S()), i)| && Content(sb, S(), i) == Splice(Content(sb, old(S()), i), off0, src)
      ensures r.Done? ==> OthersKept(sb, old(S()), S(), i)
      ensures r.Done? && old(dinodes[i] == inodes[i]) ==> dinodes == old(dinodes)[i := inodes[i]]
      ensures r.Done? ==> off0 + n <= MAXBYTES && logged == old(logged) + WriteLog(sb, old(S()), S(), i, off0, n)
    {
      hide Owned, Written, WellFormed, SameFile, Content, Splice, SameRefs, LoopLog;
      ghost var s0, log0 := S(), logged;
      var size := inodes[i].size;
      if off0 > size || (off0 + n) % UINT_LIMIT < off0 { return Refused; }
      if (off0 + n) % UINT_LIMIT > MAXFILE * BSIZE { return Refused; }
      assert off0 + n <= MAXBYTES;
      var ok := WriteBlocks(i, src, off0, n);
      if !ok { return Panicked; }
      ghost var s1 := S();
      WriteContent(sb, s0, s1, i, off0, n, src);
      SameLog(sb, s0, s1, Resized(s1, i, Max(size, off0 + n)), i, off0, off0 + n);
      if n > 0 && off0 + n > inodes[i].size {
        inodes := inodes[i := inodes[i].(size := off0 + n)];
        ResizedOwned(sb, s1, owner, i, off0 + n);
        Iupdate(i);
      } else {
        assert S() == Resized(s1, i, Max(s0.inodes[i].size, off0 + n));
      }
      r := Done(n);
    }

    /** One pass of readi's loop: the block at `off` is there already, so bmap changes nothing. */
    method ReadBlock(i: nat, off: nat, m: nat) returns (piece: seq<byte>)
      requires Valid() && i < sb.ninodes && off < MAXBYTES && off % BSIZE + m <= BSIZE
      requires Ref(sb, S(), i, SlotOf(off / BSIZE)) != 0
      modifies this`view, this`inodes, this`owner, this`logged
      ensures S() == old(S()) && logged == old(logged) && Valid() && |piece| == m
      ensures forall x :: 0 <= x < m && off + x < MAXBYTES ==> piece[x] == FileByte(sb, S(), i, off + x)
    {
      hide RefsOwned, MapIs, Used, MapStep;
      var bn := off / BSIZE;
      var addr := Bmap(i, bn);
      RefInRange(sb, S(), owner, i, SlotOf(bn));
      piece := view[addr.value][off % BSIZE..off % BSIZE + m];
      forall x | 0 <= x < m && off + x < MAXBYTES ensures piece[x] == FileByte(sb, S(), i, off + x) {
        assert (off + x) / BSIZE == bn && (off + x) % BSIZE == off % BSIZE + x;
      }
    }

    /** readi, for a file that is not a device: `dst` is what is copied out. It allocates nothing. */
    method Readi(i: nat, off0: uint, n0: uint) returns (r: Io, dst: seq<byte>)
      requires Valid() && i < sb.ninodes && WellFormed(sb, S(), i)
      modifies this`view, this`inodes, this`owner, this`logged
      ensures S() == old(S()) && logged == old(logged) && Valid()
      ensures !r.Panicked? && (r.Refused? <==> off0 > inodes[i].size || off0 + n0 >= UINT_LIMIT)
      ensures r.Done? ==> var c := Content(sb, S(), i);
        r.n == |dst| && off0 <= |c| && dst == c[off0..Min(off0 + n0, |c|)]
    {
      hide Owned, Ref, FileByte;
      dst := [];
      var size := inodes[i].size;
      if off0 > size || (off0 + n0) % UINT_LIMIT < off0 { return Refused, dst; }
      assert off0 + n0 < UINT_LIMIT;
      var n := if off0 + n0 > size then size - off0 else n0;
      var tot, off := 0, off0;
      ghost var s0 := S();
      while tot < n
        invariant tot <= n && off == off0 + tot && Valid() && S() == s0 && logged == old(logged)
        invariant |dst| == tot && forall k :: 0 <= k < tot ==> dst[k] == FileByte(sb, s0, i, off0 + k)
      {
        assert off / BSIZE < CeilDiv(size);
        var m := Min(n - tot, BSIZE - off % BSIZE);
        var piece := ReadBlock(i, off, m);
        dst := dst + piece;
        tot, off := tot + m, off + m;
      }
      r := Done(n);
    }

    /** itrunc: every block of the file given back, each once; no other file touched. */
    method Itrunc(i: nat)
      requires Valid() && i < sb.ninodes
      modifies this`view, this`inodes, this`dinodes, this`owner, this`logged
      ensures Valid() && owner == Without(old(owner), i)
      ensures inodes == old(inodes)[i := Inode(0, seq(NDIRECT + 1, _ => 0))] && WellFormed(sb, S(), i)
      ensures dinodes == old(dinodes)[i := inodes[i]]
      ensures forall i' :: 0 <= i' < sb.ninodes && i' != i ==> SameFile(sb, old(S()), S(), i')
    {
      hide Owned, RefsOwned, Used, WellFormed, SameFile, Truncating, Emptied, Without;
      ghost var s0, owner0 := S(), owner;
      TruncDirect(i, s0, owner0);
      TruncRest(i, s0, owner0);
      ghost var s := S();
      inodes := inodes[i := inodes[i].(size := 0)];
      owner := Without(owner0, i);
      Truncated(sb, s0, owner0, i, s, S());
      Iupdate(i);
    }

    /** itrunc after the direct pointers: the indirect block's entries, then the block. */
    method TruncRest(i: nat, ghost s0: Fsys, ghost owner0: Owner)
      requires Owned(sb, s0, owner0) && i < sb.ninodes && Truncating(sb, s0, S(), owner0, i, NDIRECT)
      modifies this`view, this`inodes, this`logged
      ensures Emptied(sb, s0, S(), owner0, i)
    {
      hide RefsOwned, Used, Freed, MapIs;
      if inodes[i].addrs[NDIRECT] != 0 {
        var p := inodes[i].addrs[NDIRECT];
        FreedStep(sb, s0, owner0, i, NDIRECT);
        TruncIndirect(i, p, s0, owner0);
        MapAfterFree(sb, view, owner0, Freed(owner0, i, NSLOTS - 1), p);
        Bfree(p);
        inodes := inodes[i := inodes[i].(addrs := inodes[i].addrs[NDIRECT := 0])];
      } else {
        FreedDirectOnly(sb, s0, owner0, i);
      }
    }

    /** itrunc's loop over the direct pointers. */
    method TruncDirect(i: nat, ghost s0: Fsys, ghost owner0: Owner)
      requires Owned(sb, s0, owner0) && S() == s0 && i < sb.ninodes
      modifies this`view, this`inodes, this`logged
      ensures Truncating(sb, s0, S(), owner0, i, NDIRECT)
    {
      hide RefsOwned, Used;
      var j := 0;
      assert owner0 - Freed(owner0, i, 0) == owner0;
      while j < NDIRECT
        invariant j <= NDIRECT && Truncating(sb, s0, S(), owner0, i, j)
      {
        FreedStep(sb, s0, owner0, i, j);
        if inodes[i].addrs[j] != 0 {
          MapAfterFree(sb, view, owner0, Freed(owner0, i, j), inodes[i].addrs[j]);
          Bfree(inodes[i].addrs[j]);
          inodes := inodes[i := inodes[i].(addrs := inodes[i].addrs[j := 0])];
        }
        j := j + 1;
      }
    }

    /** itrunc's loop over the indirect block. */
    method TruncIndirect(i: nat, p: nat, ghost s0: Fsys, ghost owner0: Owner)
      requires RefsOwned(sb, s0, owner0) && i < sb.ninodes && p == Ref(sb, s0, i, NDIRECT) && sb.DataStart() <= p < sb.size
      requires Truncating(sb, s0, S(), owner0, i, NDIRECT)
      modifies this`view, this`logged
      ensures Truncating(sb, s0, S(), owner0, i, NSLOTS - 1)
    {
      hide RefsOwned, Used, MapIs, Freed;
      var k := 0;
      while k < NINDIRECT
        invariant k <= NINDIRECT && Truncating(sb, s0, S(), owner0, i, NDIRECT + k) && inodes == old(inodes)
      {
        var a := Word(view[p], k);
        assert a == Ref(sb, s0, i, NDIRECT + 1 + k);
        FreedStep(sb, s0, owner0, i, NDIRECT + 1 + k);
        if a != 0 {
          MapAfterFree(sb, view, owner0, Freed(owner0, i, NDIRECT + k), a);
          Bfree(a);
        }
        k := k + 1;
      }
    }

    /** filewrite's loop for an inode file: chunks of at most MAXCHUNK bytes, each its own transaction.
        `off` is f->off after the call, `i` the bytes written, `txs` the blocks each finished chunk
        logged; the call returns n, or -1 exactly when it starts past the end of the file or would
        end past the largest file. */
    method Filewrite(inum: nat, src: seq<byte>, off0: uint, n: int32)
      returns (r: FileResult, off: nat, i: nat, ghost txs: seq<set<nat>>)
      requires Valid() && inum < sb.ninodes && |src| == n && WellFormed(sb, S(), inum) && dinodes[inum] == inodes[inum]
      modifies this`view, this`inodes, this`dinodes, this`owner, this`logged
      ensures Valid() && 0 <= i <= n && (r.Halted? ==> FullDisk())
      ensures r.Returned? ==> off == off0 + i && (r.value == n <==> i == n) && (r.value == -1 <==> i < n)
      ensures r.Returned? ==> (r.value == -1 <==> n > 0 && (off0 > old(inodes)[inum].size || off0 + n > MAXBYTES))
      ensures r.Returned? && r.value == -1 ==>
        i == if off0 > old(inodes)[inum].size then 0 else (MAXBYTES - off0) / MAXCHUNK * MAXCHUNK
      ensures r.Returned? ==> WellFormed(sb, S(), inum) && dinodes[inum] == inodes[inum]
      ensures r.Returned? && i > 0 ==>
        off0 <= old(inodes)[inum].size && Content(sb, S(), inum) == Splice(Content(sb, old(S()), inum), off0, src[..i])
      ensures r.Returned? && i == 0 ==> Content(sb, S(), inum) == Content(sb, old(S()), inum)
      ensures r.Returned? ==> OthersKept(sb, old(S()), S(), inum)
      ensures r.Returned? ==> logged == old(logged) + Union(txs)
      ensures forall k :: 0 <= k < |txs| ==> |txs[k]| <= LogSpec.MAXOPBLOCKS
    {
      hide Owned, WellFormed, OthersKept, WriteCost, Content, RefsOwned, Splice, WriteRefused, WriteLog, Union;
      ghost var c0, s0, log0 := Content(sb, S(), inum), S(), logged;
      i, off, txs := 0, off0, [];
      KeptSelf(sb, s0, inum);
      UnionNone(log0);
      while i < n
        invariant 0 <= i <= n && off == off0 + i && Valid() && WellFormed(sb, S(), inum) && dinodes[inum] == inodes[inum]
        invariant i == 0 ==> Content(sb, S(), inum) == c0 && inodes[inum].size == s0.inodes[inum].size
        invariant i > 0 ==> off0 <= |c0| && off <= MAXBYTES && Content(sb, S(), inum) == Splice(c0, off0, src[..i])
        invariant i > 0 ==> off <= inodes[inum].size
        invariant i == n || i % MAXCHUNK == 0
        invariant OthersKept(sb, s0, S(), inum) && logged == log0 + Union(txs)
        invariant forall k :: 0 <= k < |txs| ==> |txs[k]| <= LogSpec.MAXOPBLOCKS
      {
        var n1 := if n - i > MAXCHUNK then MAXCHUNK else n - i;
        ghost var s1, c1, log1 := S(), Content(sb, S(), inum), logged;
        var r1 := Writei(inum, src[i..i + n1], off, n1);
        if r1.Refused? {
          WhenRefused(s0.inodes[inum].size, s1.inodes[inum].size, off0, i, n, n1);
          return Returned(-1), off, i, txs;
        }
        if r1.Panicked? { return Halted, off, i, txs; }
        NotRefused(s1.inodes[inum].size, off, n1);
        OthersKeptTwice(sb, s0, s1, S(), inum);
        ghost var tx := WriteLog(sb, s1, S(), inum, off, n1);
        WriteLogFits(sb, s1, S(), inum, off, n1);
        ChunkFitsTransaction(s1.inodes[inum].size, off, n1);
        UnionMore(log0, txs, tx);
        SpliceTwice(c0, c1, off0, src, i, n1);
        SpliceSize(c1, off, src[i..i + n1]);
        txs, i, off := txs + [tx], i + n1, off + n1;
      }
      r := Returned(n);
    }

    /** memmove of `src` into a block at `o`. */
    method CopyInto(b: Block, o: nat, src: seq<byte>) returns (r: Block)
      requires o + |src| <= BSIZE
      ensures forall x :: 0 <= x < BSIZE ==> r[x] == if o <= x < o + |src| then src[x - o] else b[x]
    {
      r := b[..o] + src + b[o + |src|..];
    }

    method Iupdate(i: nat)
      requires i < |inodes| && i < |dinodes|
      modifies this`dinodes, this`logged
      ensures dinodes == old(dinodes)[i := inodes[i]] && logged == old(logged) + {sb.InodeBlock(i)}
    {
      dinodes := dinodes[i := inodes[i]];
      logged := logged + {sb.InodeBlock(i)};
    }
  }

  lemma EntryAllocated(sb: Sb, s: Fsys, owner: Owner, i: nat, k: nat, b: uint, r: Fsys, was: Block, data: Block)
    requires Owned(sb, s, owner) && i < sb.ninodes && k < NINDIRECT && sb.DataStart() <= b < sb.size && b !in owner
    requires Ref(sb, s, i, NDIRECT) != 0 && Ref(sb, s, i, NDIRECT + 1 + k) == 0
    requires Ref(sb, s, i, NDIRECT) < sb.size && r.inodes == s.inodes
    requires var p, v := Ref(sb, s, i, NDIRECT), Alloc(sb, s.view, b);
      was == v[p] && r.view == v[p := data] && Stored(was, data, k, b)
    ensures Owned(sb, r, owner[b := (i, NDIRECT + 1 + k)]) && SameBytes(sb, s, r)
    ensures Attached(sb, s, r, i, NDIRECT + 1 + k, b)
  {
    var p, slot := Ref(sb, s, i, NDIRECT), (i, NDIRECT + 1 + k);
    assert SlotOwned(sb, s, owner, i, NDIRECT);
    assert BlockOwned(sb, s, p, owner[p]);
    EntryStored(sb, s, owner, i, k, b, r, was, data);
    MapAfterAlloc(sb, s.view, owner, b, slot);
    SameMap(sb, Alloc(sb, s.view, b), r.view, owner[b := slot]);
  }

  lemma EntryStored(sb: Sb, s: Fsys, owner: Owner, i: nat, k: nat, b: uint, r: Fsys, was: Block, data: Block)
    requires RefsOwned(sb, s, owner) && i < sb.ninodes && k < NINDIRECT && sb.DataStart() <= b < sb.size && b !in owner
    requires Ref(sb, s, i, NDIRECT) != 0 && Ref(sb, s, i, NDIRECT + 1 + k) == 0 && r.inodes == s.inodes
    requires var p := Ref(sb, s, i, NDIRECT);
      && sb.DataStart() <= p < sb.size && p != b && was == Alloc(sb, s.view, b)[p]
      && r.view == Alloc(sb, s.view, b)[p := data] && Stored(was, data, k, b)
    ensures RefsOwned(sb, r, owner[b := (i, NDIRECT + 1 + k)]) && SameBytes(sb, s, r)
    ensures Attached(sb, s, r, i, NDIRECT + 1 + k, b)
    ensures forall m :: 0 <= m < sb.DataStart() ==> r.view[m] == Alloc(sb, s.view, b)[m]
  {
    var p := Ref(sb, s, i, NDIRECT);
    StoreView(sb, s.view, p, b, data);
    forall c | c in owner && c != p ensures c < sb.size && r.view[c] == s.view[c] {
      assert BlockOwned(sb, s, c, owner[c]);
    }
    AttachIndirectOwned(sb, s, owner, i, k, b, r);
  }

  /** The same bytes at every offset and the same blocks. */
  ghost predicate SameFile(sb: Sb, s: Fsys, r: Fsys, i: nat)
    requires Shape(sb, s) && Shape(sb, r) && i < sb.ninodes
  {
    && (forall k :: 0 <= k < MAXBYTES ==> FileByte(sb, r, i, k) == FileByte(sb, s, i, k))
    && (forall j :: 0 <= j < NSLOTS ==> Ref(sb, r, i, j) == Ref(sb, s, i, j))
  }

  // ----- what bmap may change -----

  /** Every slot but the one of block `bn` (and the indirect pointer on the way to it) is kept, and
      every inode but its addresses. */
  ghost predicate MapStep(sb: Sb, s: Fsys, r: Fsys, i: nat, bn: nat)
    ensures MapStep(sb, s, r, i, bn) ==> Shape(sb, s) && Shape(sb, r)
  {
    && Shape(sb, s) && Shape(sb, r) && i < sb.ninodes && bn < MAXFILE
    && (forall i', j :: 0 <= i' < sb.ninodes && 0 <= j < NSLOTS ==>
          Ref(sb, r, i', j) == Ref(sb, s, i', j) || (i' == i && (j == SlotOf(bn) || (j == NDIRECT && bn >= NDIRECT))))
    && (forall i' :: 0 <= i' < sb.ninodes ==>
          r.inodes[i'].size == s.inodes[i'].size && (i' != i ==> r.inodes[i'] == s.inodes[i']))
    && (Ref(sb, s, i, NDIRECT) != 0 ==> Ref(sb, r, i, NDIRECT) == Ref(sb, s, i, NDIRECT))
  }

}
