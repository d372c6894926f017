/** Disk blocks as byte strings, read as words and as bits. */
module Blocks {
  // Two typed views the kernel lays over a block: little-endian 32-bit words (log header, indirect
  // blocks) and bits (the free map).

  const BSIZE: nat := 512
  const NWORDS: nat := 128  // BSIZE / 4
  const BPB: nat := 4096    // BSIZE * 8
  const UINT_LIMIT: nat := 0x1_0000_0000

  type byte = x: int | 0 <= x < 256
  type uint = x: int | 0 <= x < UINT_LIMIT
  type Block = b: seq<byte> | |b| == BSIZE witness seq(BSIZE, _ => 0)

  /** bzero's block. */
  function ZeroBlock(): Block { seq(BSIZE, _ => 0) }

  // ----- words -----

  function Word(b: Block, i: nat): uint
    requires i < NWORDS
  {
    b[4 * i] as int + 0x100 * (b[4 * i + 1] as int) + 0x1_0000 * (b[4 * i + 2] as int)
      + 0x100_0000 * (b[4 * i + 3] as int)
  }

  function SetWord(b: Block, i: nat, w: uint): Block
    requires i < NWORDS
  {
    b[4 * i := w % 0x100]
     [4 * i + 1 := w / 0x100 % 0x100]
     [4 * i + 2 := w / 0x1_0000 % 0x100]
     [4 * i + 3 := w / 0x100_0000]
  }

  lemma WordBytes(w: uint)
    ensures w == w % 0x100 + 0x100 * (w / 0x100 % 0x100) + 0x1_0000 * (w / 0x1_0000 % 0x100)
                 + 0x100_0000 * (w / 0x100_0000)
  {
    assert w / 0x1_0000 == w / 0x100 / 0x100;
    assert w / 0x100_0000 == w / 0x1_0000 / 0x100;
  }

  /** Storing a word changes that word and no other. */
  lemma WordOfSetWord(b: Block, i: nat, w: uint, j: nat)
    requires i < NWORDS && j < NWORDS
    ensures Word(SetWord(b, i, w), j) == if j == i then w else Word(b, j)
  {
    WordBytes(w);
  }

  lemma WordsOfSetWord(b: Block, i: nat, w: uint)
    requires i < NWORDS
    ensures forall j :: 0 <= j < NWORDS ==> Word(SetWord(b, i, w), j) == if j == i then w else Word(b, j)
  {
    forall j | 0 <= j < NWORDS { WordOfSetWord(b, i, w, j); }
  }

  /** `b` is `a` with word `i` holding `w`. */
  ghost predicate Stored(a: Block, b: Block, i: nat, w: uint) {
    i < NWORDS && forall j :: 0 <= j < NWORDS ==> Word(b, j) == if j == i then w else Word(a, j)
  }

  method StoreWord(a: Block, i: nat, w: uint) returns (b: Block)
    requires i < NWORDS
    ensures Stored(a, b, i, w)
  {
    b := SetWord(a, i, w);
    WordsOfSetWord(a, i, w);
  }

  // ----- bits -----

  /** Bit `k` of `x`, low bit first: `x & (1 << k)`. */
  predicate NatBit(x: nat, k: nat) {
    if k == 0 then x % 2 == 1 else NatBit(x / 2, k - 1)
  }

  /** `x | 1 << k` when `on`, `x & ~(1 << k)` otherwise. */
  function PutNatBit(x: nat, k: nat, on: bool): nat {
    if k == 0 then x / 2 * 2 + (if on then 1 else 0) else PutNatBit(x / 2, k - 1, on) * 2 + x % 2
  }

  lemma {:induction false} NatBitOfPut(x: nat, k: nat, on: bool, j: nat)
    ensures NatBit(PutNatBit(x, k, on), j) == if j == k then on else NatBit(x, j)
  {
    if k == 0 {
      assert PutNatBit(x, k, on) / 2 == x / 2;
    } else {
      var r := PutNatBit(x, k, on);
      assert r / 2 == PutNatBit(x / 2, k - 1, on) && r % 2 == x % 2;
      if j > 0 { NatBitOfPut(x / 2, k - 1, on, j - 1); }
    }
  }

  function Pow2(n: nat): nat { if n == 0 then 1 else 2 * Pow2(n - 1) }

  lemma {:induction false} PutNatBitFits(x: nat, k: nat, on: bool, n: nat)
    requires k < n && x < Pow2(n)
    ensures PutNatBit(x, k, on) < Pow2(n)
  {
    if k > 0 { PutNatBitFits(x / 2, k - 1, on, n - 1); }
  }

  function PutByteBit(x: byte, k: nat, on: bool): byte
    requires k < 8
  {
    assert Pow2(8) == 256 by { assert Pow2(4) == 16; }
    PutNatBitFits(x, k, on, 8);
    PutNatBit(x, k, on)
  }

  predicate Bit(b: Block, i: nat)
    requires i < BPB
  {
    NatBit(b[i / 8], i % 8)
  }

  function PutBit(b: Block, i: nat, on: bool): Block
    requires i < BPB
  {
    b[i / 8 := PutByteBit(b[i / 8], i % 8, on)]
  }

  /** Marking one bit of a free-map block changes that bit and no other. */
  lemma BitOfPutBit(b: Block, i: nat, on: bool, j: nat)
    requires i < BPB && j < BPB
    ensures Bit(PutBit(b, i, on), j) == if j == i then on else Bit(b, j)
  {
    NatBitOfPut(b[i / 8], i % 8, on, j % 8);
  }
}
