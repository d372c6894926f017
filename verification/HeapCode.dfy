/** umalloc.c's free, morecore and malloc on a memory of headers indexed by address, in units of
    one Header; the ring of free blocks is relinked in place. */
module HeapCode {
  import Blocks
  import opened HeapSpec

  /** One unit of memory read as a header. */
  datatype Header = Header(ptr: int, size: nat)

  /** What sbrk answers: the first unit of a new region, or refusal. */
  datatype Sbrk = Region(addr: nat) | Refused

  const MIN_UNITS: nat := 4096

  function MoreUnits(nu: nat): nat {
    if nu < MIN_UNITS then MIN_UNITS else nu
  }

  /** What sbrk is asked for: the byte count in 32 bits, read as a signed int. */
  function SbrkArg(units: nat): int {
    var w := units * HEADER % Blocks.UINT_LIMIT;
    if w < 0x8000_0000 then w else w - Blocks.UINT_LIMIT
  }

  /** malloc asks sbrk for the units it then puts in the list exactly when the request is below 2 GB
      or its rounding has wrapped; otherwise sbrk gets a negative count or zero. */
  lemma SbrkAsksEnough(nbytes: nat)
    requires nbytes < Blocks.UINT_LIMIT
    ensures SbrkArg(MoreUnits(NUnits(nbytes))) == MoreUnits(NUnits(nbytes)) * HEADER <==>
      nbytes <= 0x7fff_fff0 || nbytes + HEADER - 1 >= Blocks.UINT_LIMIT
  {
    var q := (nbytes + HEADER - 1) / HEADER;
    assert nbytes <= 0x7fff_fff0 <==> q <= 0xfff_fffe;
  }

  /** Address of the block after position `i` in the ring; the last one leads back to base. */
  function Succ(f: seq<Block>, i: nat): int
    requires i < |f|
  {
    if i + 1 < |f| then f[i + 1].addr else f[0].addr
  }

  ghost predicate Linked(m: seq<Header>, f: seq<Block>, i: nat)
    requires i < |f|
  {
    0 <= f[i].addr < |m| && m[f[i].addr] == Header(Succ(f, i), f[i].size)
  }

  /** The headers in memory form the circular list `f`. */
  ghost predicate Ring(m: seq<Header>, f: seq<Block>) {
    |f| > 0 && forall i :: 0 <= i < |f| ==> Linked(m, f, i)
  }

  /** Each live block lies in memory and its header holds its size. */
  ghost predicate Headed(m: seq<Header>, alloc: set<Block>) {
    forall b :: b in alloc ==> Holds(m, b)
  }

  ghost predicate Holds(m: seq<Header>, b: Block) {
    0 <= b.addr && b.End() <= |m| && b.size > 0 && m[b.addr].size == b.size
  }

  ghost predicate Fits(m: seq<Header>, f: seq<Block>) {
    forall i :: 0 <= i < |f| ==> f[i].End() <= |m|
  }

  /** The two headers free writes. */
  function AfterFree(m: seq<Header>, p: int, bp: int): (r: seq<Header>)
    requires 0 <= p < |m| && 0 <= bp < |m| && 0 <= m[p].ptr < |m|
    ensures |r| == |m| && forall i :: 0 <= i < |m| && i != p && i != bp ==> r[i] == m[i]
  {
    var q := m[p].ptr;
    var h := if bp + m[bp].size == q then Header(m[q].ptr, m[bp].size + m[q].size) else Header(q, m[bp].size);
    var l := if p + m[p].size == bp then Header(h.ptr, m[p].size + h.size) else Header(bp, m[p].size);
    m[bp := h][p := l]
  }

  /** Increasing addresses, as the lists here have. */
  ghost predicate Rising(f: seq<Block>) {
    forall i, j {:trigger Lower(f[i], f[j])} :: 0 <= i < j < |f| ==> Lower(f[i], f[j])
  }

  ghost predicate Lower(a: Block, b: Block) { a.addr < b.addr }

  /** Threading a new block between position `t` and its successor. */
  lemma InsertRing(m: seq<Header>, f: seq<Block>, t: nat, g: seq<Block>, c: Block, skip: int, n: seq<Header>)
    requires Ring(m, f) && Rising(f) && Rising(g) && Spliced(f, g, t, c, skip) && 0 <= c.addr < |m|
    requires |n| == |m| && n[c.addr] == Header(Succ(g, t + 1), c.size)
    requires 0 <= f[t].addr < |m| && n[f[t].addr] == Header(c.addr, f[t].size)
    requires forall i :: 0 <= i < |m| && i != f[t].addr && i != c.addr ==> n[i] == m[i]
    ensures Ring(n, g)
  {
    assert |g| > 0;
    hide Ring, Spliced, Rising;
    forall i | 0 <= i < |g| ensures Linked(n, g, i) {
      InsertLink(m, f, t, g, c, skip, n, i);
    }
    RingIntro(n, g);
  }

  lemma RingIntro(n: seq<Header>, g: seq<Block>)
    requires |g| > 0 && forall i :: 0 <= i < |g| ==> Linked(n, g, i)
    ensures Ring(n, g)
  {
  }

  lemma InsertLink(m: seq<Header>, f: seq<Block>, t: nat, g: seq<Block>, c: Block, skip: int, n: seq<Header>, i: nat)
    requires Ring(m, f) && Rising(f) && Rising(g) && Spliced(f, g, t, c, skip) && 0 <= c.addr < |m| && i < |g|
    requires |n| == |m| && n[c.addr] == Header(Succ(g, t + 1), c.size)
    requires 0 <= f[t].addr < |m| && n[f[t].addr] == Header(c.addr, f[t].size)
    requires forall i :: 0 <= i < |m| && i != f[t].addr && i != c.addr ==> n[i] == m[i]
    ensures Linked(n, g, i)
  {
    hide Ring;
    if i < t {
      assert Lower(g[i], g[t]) && Lower(g[i], g[t + 1]);
      LinkedOf(m, f, i);
    } else if i > t + 1 {
      assert Lower(g[t], g[i]) && Lower(g[t + 1], g[i]);
      LinkedOf(m, f, i - skip);
    }
  }

  lemma LinkedOf(m: seq<Header>, f: seq<Block>, i: nat)
    requires Ring(m, f) && i < |f|
    ensures Linked(m, f, i)
  {
  }

  /** Joining two neighbours that touch. */
  lemma JoinRing(n: seq<Header>, g: seq<Block>, t: nat, r: seq<Block>, n2: seq<Header>)
    requires Ring(n, g) && Rising(g) && t + 1 < |g| && |r| == |g| - 1
    requires r[t] == Block(g[t].addr, g[t].size + g[t + 1].size)
    requires forall i :: 0 <= i < t ==> r[i] == g[i]
    requires forall i :: t < i < |r| ==> r[i] == g[i + 1]
    requires 0 <= g[t].addr < |n| && 0 <= g[t + 1].addr < |n| && |n2| == |n|
    requires n2[g[t].addr] == Header(n[g[t + 1].addr].ptr, r[t].size)
    requires forall i :: 0 <= i < |n| && i != g[t].addr ==> n2[i] == n[i]
    ensures Ring(n2, r)
  {
    hide Ring;
    forall i | 0 <= i < |r| ensures Linked(n2, r, i) {
      if i < t {
        assert Lower(g[i], g[t]);
        LinkedOf(n, g, i);
      } else {
        assert i > t ==> Lower(g[t], g[i + 1]);
        LinkedOf(n, g, i + 1);
      }
    }
    RingIntro(n2, r);
  }

  lemma SortedRises(f: seq<Block>, base: int)
    requires Sorted(f, base)
    ensures Rising(f)
  {
    forall i, j | 0 <= i < j < |f| ensures Lower(f[i], f[j]) { assert Before(f[i], f[j]); }
  }

  lemma NearlyRises(f: seq<Block>, base: int, t: nat)
    requires NearlySorted(f, base, t) && f[t].addr < f[t + 1].addr
    ensures Rising(f)
  {
    forall i, j | 0 <= i < j < |f| ensures Lower(f[i], f[j]) {
      if !(i == t && j == t + 1) { assert Before(f[i], f[j]); }
    }
  }

  /** The two writes turn the ring of the old list into the ring of the new one. */
  lemma FreeRing(m: seq<Header>, f: seq<Block>, base: int, b: Block, t: nat, r: seq<Block>)
    requires Sorted(f, base) && Clear(f, base, b) && t == Below(f, b.addr) && r == FreeAt(f, b, t)
    requires Ring(m, f) && Holds(m, b)
    ensures 0 <= f[t].addr < |m| && 0 <= m[f[t].addr].ptr < |m|
    ensures Ring(AfterFree(m, f[t].addr, b.addr), r)
  {
    BelowIs(f, base, b, t);
    LinkedOf(m, f, t);
    LinkedOf(m, f, if t + 1 < |f| then t + 1 else 0);
    var p, bp := f[t].addr, b.addr;
    var c, g := WithUpper(f, b, t), Joined(f, b, t);
    var skip := if t + 1 < |f| && b.End() == f[t + 1].addr then 0 else 1;
    JoinedSpliced(f, b, t, skip);
    InsertOrdered(f, base, b, t, g, c, skip);
    SortedRises(f, base);
    NearlyRises(g, base, t);
    FreeAtJoined(f, b, t, g, r);
    WrittenHeaders(m, f, base, b, t, g, skip);
    var m' := AfterFree(m, p, bp);
    var n := m'[p := Header(bp, m[p].size)];
    assert m[p].size == f[t].size && f[t].addr < b.addr && m'[bp] == Header(Succ(g, t + 1), c.size);
    assert f[t].End() == b.addr ==> m'[p] == Header(m'[bp].ptr, r[t].size);
    assert f[t].End() != b.addr ==> m'[p] == Header(bp, f[t].size);
    hide Ring, NearlySorted, Sorted, Clear, Spliced, FreeAt, AfterFree, Below, Rising, Joined;
    InsertRing(m, f, t, g, c, skip, n);
    if f[t].End() == b.addr {
      JoinRing(n, g, t, r, m');
    } else {
      assert n == m';
    }
  }

  lemma WrittenHeaders(m: seq<Header>, f: seq<Block>, base: int, b: Block, t: nat, g: seq<Block>, skip: int)
    requires Sorted(f, base) && Clear(f, base, b) && t < |f| && Spliced(f, g, t, WithUpper(f, b, t), skip)
    requires skip == if t + 1 < |f| && b.End() == f[t + 1].addr then 0 else 1
    requires f[t].addr < b.addr && Ring(m, f) && Holds(m, b)
    requires 0 <= f[t].addr < |m| && 0 <= m[f[t].addr].ptr < |m|
    ensures AfterFree(m, f[t].addr, b.addr)[b.addr] == Header(Succ(g, t + 1), WithUpper(f, b, t).size)
    ensures AfterFree(m, f[t].addr, b.addr)[f[t].addr] ==
      if f[t].End() == b.addr then Header(Succ(g, t + 1), f[t].size + WithUpper(f, b, t).size)
      else Header(b.addr, f[t].size)
  {
    LinkedOf(m, f, t);
    if skip == 0 {
      LinkedOf(m, f, t + 1);
    }
  }

  lemma CarveRingWhole(m: seq<Header>, f: seq<Block>, i: nat, r: seq<Block>, n: seq<Header>)
    requires Ring(m, f) && Rising(f) && 0 < i < |f| && r == f[..i] + f[i + 1..]
    requires |n| == |m| && 0 <= f[i - 1].addr < |m| && n[f[i - 1].addr] == Header(Succ(f, i), f[i - 1].size)
    requires forall k :: 0 <= k < |m| && k != f[i - 1].addr ==> n[k] == m[k]
    ensures Ring(n, r)
  {
    hide Ring;
    forall k | 0 <= k < |r| ensures Linked(n, r, k) {
      if k < i {
        assert k < i - 1 ==> Lower(f[k], f[i - 1]);
        LinkedOf(m, f, k);
      } else {
        assert Lower(f[i - 1], f[k + 1]);
        LinkedOf(m, f, k + 1);
      }
    }
    RingIntro(n, r);
  }

  lemma CarveRingTail(m: seq<Header>, f: seq<Block>, base: int, i: nat, z: nat, r: seq<Block>, n: seq<Header>)
    requires Ring(m, f) && Sorted(f, base) && 0 < i < |f| && 0 < z < f[i].size && r == f[i := Block(f[i].addr, z)]
    requires |n| == |m| && 0 <= f[i].addr < |m| && n[f[i].addr] == Header(Succ(f, i), z)
    requires forall k :: 0 <= k < |m| && k != f[i].addr && k != f[i].addr + z ==> n[k] == m[k]
    ensures Ring(n, r)
  {
    hide Ring;
    forall k | 0 <= k < |r| ensures Linked(n, r, k) {
      LinkedOf(m, f, k);
      assert k < i ==> Before(f[k], f[i]);
      assert i < k ==> Before(f[i], f[k]);
      assert Succ(r, k) == Succ(f, k);
    }
    RingIntro(n, r);
  }

  /** Position `k` has been passed by a walk from `start`'s successor that is now at `i`. */
  predicate Passed(k: int, start: nat, i: nat) {
    if start < i then start < k < i else k < i || start < k
  }

  /** `i` is the first block with `n` units met after `start`. */
  ghost predicate NextFit(f: seq<Block>, start: nat, i: nat, n: nat) {
    && i < |f| && f[i].size >= n
    && forall k :: 0 <= k < |f| && Passed(k, start, i) ==> f[k].size < n
  }

  ghost predicate SomeFit(f: seq<Block>, n: nat) {
    exists i :: 0 <= i < |f| && f[i].size >= n
  }

  /** Steps from position `a` to position `i` going forward round a ring of `n`. */
  function Lap(a: nat, i: nat, n: nat): int {
    if a <= i then i - a else i - a + n
  }

  lemma BelowClear(h: Heap, base: int, b: Block)
    requires Inv(h, base) && b.size > 0 && base < b.addr
    requires b in h.alloc || forall u :: b.Has(u) ==> u !in h.given
    ensures Clear(h.free, base, b)
    ensures Inv(if b in h.alloc then Release(h, b) else Grow(h, b), base)
  {
    if b in h.alloc {
      forall i | 0 <= i < |h.free| ensures Disjoint(h.free[i], b) { assert Disjoint(b, h.free[i]); }
      FreeKeeps(h, base, b);
    } else {
      GrowKeeps(h, base, b);
    }
  }

  lemma NotBelow(m: seq<Header>, f: seq<Block>, base: int, b: Block, t: nat)
    requires Ring(m, f) && Sorted(f, base) && Clear(f, base, b) && t == Below(f, b.addr)
    ensures 0 <= f[t].addr < |m| && f[t].addr < b.addr && 0 <= m[f[t].addr].ptr < |m| && m[f[t].addr].ptr != b.addr
  {
    BelowIs(f, base, b, t);
    LinkedOf(m, f, t);
    LinkedOf(m, f, if t + 1 < |f| then t + 1 else 0);
  }

  lemma FreeFits(m: seq<Header>, f: seq<Block>, base: int, b: Block, t: nat, r: seq<Block>, n: seq<Header>)
    requires |n| == |m| && Fits(m, f) && b.End() <= |m| && t < |f| && r == FreeAt(f, b, t)
    ensures Fits(n, r) && t < |r| && r[t].addr == f[t].addr
  {
    var c, g := WithUpper(f, b, t), Joined(f, b, t);
    var skip := if t + 1 < |f| && b.End() == f[t + 1].addr then 0 else 1;
    JoinedSpliced(f, b, t, skip);
    FreeAtJoined(f, b, t, g, r);
    assert g[t] == f[t] && g[t + 1].End() <= |m|;
    assert forall i :: t + 2 <= i < |g| ==> g[i].End() <= |m|;
    hide FreeAt, Joined;
  }

  /** Writing the size of a region that is not yet the heap's. */
  lemma StampFresh(m: seq<Header>, h: Heap, base: int, a: nat, n: seq<Header>)
    requires Inv(h, base) && Headed(m, h.alloc) && a < |m| && a !in h.given && base < a
    requires |n| == |m| && forall i :: 0 <= i < |m| && i != a ==> n[i] == m[i]
    ensures Headed(n, h.alloc)
    ensures Ring(m, h.free) ==> Ring(n, h.free)
  {
    forall c | c in h.alloc ensures Holds(n, c) {
      assert Holds(m, c) && c.Has(c.addr);
      assert InAlloc(h.alloc, c.addr);
    }
    if Ring(m, h.free) {
      forall i | 0 <= i < |h.free| ensures Linked(n, h.free, i) {
        LinkedOf(m, h.free, i);
        assert i > 0 ==> h.free[i].Has(h.free[i].addr);
        assert i > 0 ==> InFree(h.free, h.free[i].addr);
      }
    }
  }

  lemma SameFits(m: seq<Header>, n: seq<Header>, f: seq<Block>)
    requires Fits(m, f) && |n| == |m|
    ensures Fits(n, f)
  {
  }

  lemma GrowFits(f: seq<Block>, b: Block, t: nat)
    requires t < |f|
    ensures SomeFit(FreeAt(f, b, t), b.size)
  {
    var r := FreeAt(f, b, t);
    var k := if f[t].End() == b.addr then t else t + 1;
    assert k < |r| && r[k].size >= b.size;
  }

  lemma TakeReady(m: seq<Header>, h: Heap, base: int, i: nat, n: nat, r: seq<Block>)
    requires Inv(h, base) && Ring(m, h.free) && Fits(m, h.free) && 0 < i < |h.free| && 0 < n <= h.free[i].size
    requires r == CarveList(h.free, i, n)
    ensures Sorted(h.free, base) && Rising(h.free) && Fits(m, r) && i - 1 < |r| && r[i - 1] == h.free[i - 1]
    ensures 0 <= h.free[i - 1].addr < |m| && 0 <= h.free[i].addr && h.free[i].End() <= |m|
    ensures m[h.free[i].addr] == Header(Succ(h.free, i), h.free[i].size)
    ensures m[h.free[i - 1].addr].size == h.free[i - 1].size && h.free[i - 1].addr != h.free[i].addr
    ensures h.free[i].size == n ==> r == h.free[..i] + h.free[i + 1..]
    ensures h.free[i].size != n ==> r == h.free[i := Block(h.free[i].addr, h.free[i].size - n)]
  {
    SortedRises(h.free, base);
    LinkedOf(m, h.free, i - 1);
    LinkedOf(m, h.free, i);
    assert Before(h.free[i - 1], h.free[i]);
  }

  /** Taking block `i`: the ring, the headers and the bounds afterwards. */
  lemma TakeMemory(m: seq<Header>, h: Heap, base: int, i: nat, z: nat, n: seq<Header>)
    requires Inv(h, base) && 0 < i < |h.free| && 0 < z <= h.free[i].size
    requires Headed(m, h.alloc) && Fits(m, h.free) && |n| == |m|
    requires forall k :: 0 <= k < |m| && k !in {h.free[i - 1].addr, h.free[i].addr, Carved(h.free, i, z).addr} ==>
               n[k] == m[k]
    requires 0 <= Carved(h.free, i, z).addr < |m| && n[Carved(h.free, i, z).addr].size == z
    ensures Headed(n, Carve(h, i, z).alloc)
  {
    var b := Carved(h.free, i, z);
    forall c | c in Carve(h, i, z).alloc ensures Holds(n, c) {
      if c != b {
        assert Disjoint(c, h.free[i]) && Disjoint(c, h.free[i - 1]) && Holds(m, c);
      } else {
        assert h.free[i].End() <= |m|;
      }
    }
  }

  /** `h` after taking `n` units from the first block big enough, walking from `start`. */
  ghost predicate Took(g: Heap, start: nat, n: nat, h: Heap, ap: nat) {
    exists i :: 0 < i < |g.free| && NextFit(g.free, start, i, n)
      && h == Carve(g, i, n) && ap == Carved(g.free, i, n).addr + 1
  }

  /** malloc's search: at block `i` after `prevp`, everything passed is too small. */
  ghost predicate Walking(f: seq<Block>, start: nat, i: nat, prevp: int, p: int, n: nat)
    ensures Walking(f, start, i, prevp, p, n) ==> i < |f| && p == f[i].addr && (i > 0 ==> prevp == f[i - 1].addr)
  {
    && i < |f| && p == f[i].addr && (i > 0 ==> prevp == f[i - 1].addr)
    && forall k :: 0 <= k < |f| && Passed(k, start, i) ==> f[k].size < n
  }

  lemma FitIsTook(g: Heap, start: nat, i: nat, n: nat)
    requires NextFit(g.free, start, i, n) && i > 0
    ensures i < |g.free| && n <= g.free[i].size && SomeFit(g.free, n)
    ensures forall ap: nat :: ap == Carved(g.free, i, n).addr + 1 ==> Took(g, start, n, Carve(g, i, n), ap)
  {
  }

  class Umalloc {
    var mem: array<Header>
    var freep: nat
    const base: nat
    ghost var heap: Heap
    ghost var at: nat

    /** The list invariant, and the memory that represents it; before the first malloc `freep` is 0. */
    ghost predicate Valid()
      reads this, mem
      ensures Valid() ==> at < |heap.free|
    {
      && 0 < base < mem.Length
      && Inv(heap, base) && at < |heap.free|
      && Headed(mem[..], heap.alloc)
      && Fits(mem[..], heap.free)
      && (freep == 0 ==> heap == Heap([Block(base, 0)], {}, {}) && at == 0)
      && (freep != 0 ==> Ring(mem[..], heap.free) && freep == heap.free[at].addr)
    }

    constructor (m: array<Header>, b: nat)
      requires 0 < b < m.Length
      ensures Valid() && mem == m && base == b && heap == Heap([Block(b, 0)], {}, {}) && freep == 0
    {
      mem, freep, base := m, 0, b;
      heap, at := Heap([Block(b, 0)], {}, {}), 0;
    }

    /** A block the caller may pass to free: live, or fresh from sbrk. */
    ghost predicate Freeable(b: Block)
      reads this, mem
    {
      && Holds(mem[..], b) && base < b.addr
      && (b in heap.alloc || forall u :: b.Has(u) ==> u !in heap.given)
    }

    /** free's scan: ends within one lap of the ring, at the block `bp` belongs after. */
    method Place(bp: nat, ghost f: seq<Block>, ghost t: nat) returns (p: nat)
      requires Ring(mem[..], f) && Sorted(f, base) && at < |f| && freep == f[at].addr && t < |f|
      requires forall i :: 0 <= i <= t ==> f[i].addr < bp
      requires forall i :: t < i < |f| ==> bp < f[i].addr
      ensures p == f[t].addr
    {
      SortedRises(f, base);
      ghost var m := mem[..];
      p := freep;
      ghost var i, hops := at, 0;
      LinkedOf(m, f, i);
      hide Ring, Sorted;
      while !(bp > p && bp < mem[p].ptr)
        invariant 0 <= i < |f| && p == f[i].addr && Linked(m, f, i)
        invariant 0 <= hops < |f| && Lap(i, t, |f|) == Lap(at, t, |f|) - hops
        decreases Lap(i, t, |f|)
      {
        assert i + 1 < |f| ==> Lower(f[i], f[i + 1]);
        assert i > 0 ==> Lower(f[0], f[i]);
        if p >= mem[p].ptr && (bp > p || bp < mem[p].ptr) {
          break;
        }
        p := mem[p].ptr;
        i := if i + 1 < |f| then i + 1 else 0;
        hops := hops + 1;
        LinkedOf(m, f, i);
      }
      assert i + 1 < |f| ==> Lower(f[i], f[i + 1]);
      assert i > 0 ==> Lower(f[0], f[i]);
    }

    /** free's two header writes. */
    method Thread(p: nat, bp: nat)
      requires p < mem.Length && bp < mem.Length && 0 <= mem[p].ptr < mem.Length
      requires p != bp && mem[p].ptr != bp
      modifies mem
      ensures mem[..] == AfterFree(old(mem[..]), p, bp)
    {
      if bp + mem[bp].size == mem[p].ptr {
        mem[bp] := mem[bp].(size := mem[bp].size + mem[mem[p].ptr].size);
        mem[bp] := mem[bp].(ptr := mem[mem[p].ptr].ptr);
      } else {
        mem[bp] := mem[bp].(ptr := mem[p].ptr);
      }
      if p + mem[p].size == bp {
        mem[p] := mem[p].(size := mem[p].size + mem[bp].size);
        mem[p] := mem[p].(ptr := mem[bp].ptr);
      } else {
        mem[p] := mem[p].(ptr := bp);
      }
    }

    /** free: the block is in the list, merged with whatever it touches. */
    method Free(ap: nat, ghost b: Block)
      requires Valid() && freep != 0 && ap == b.addr + 1 && Freeable(b)
      modifies this`freep, this`heap, this`at, mem
      ensures Valid() && freep != 0
      ensures heap == if b in old(heap.alloc) then Release(old(heap), b) else Grow(old(heap), b)
      ensures at == Below(old(heap.free), b.addr)
    {
      var bp := ap - 1;
      ghost var m, h, t := mem[..], heap, Below(heap.free, b.addr);
      hide Ring, Headed, Fits, Clear, Below, FreeAt, Sorted, AfterFree, Holds;
      BelowClear(h, base, b);
      assert Sorted(h.free, base);
      hide Inv;
      BelowIs(h.free, base, b, t);
      FreeRing(m, h.free, base, b, t, FreeAt(h.free, b, t));
      var p := Place(bp, h.free, t);
      NotBelow(m, h.free, base, b, t);
      Thread(p, bp);
      FreeFits(m, h.free, base, b, t, FreeAt(h.free, b, t), mem[..]);
      freep := p;
      heap := if b in h.alloc then Release(h, b) else Grow(h, b);
      at := t;
    }

    /** The region sbrk gives is new to the heap, above base, inside memory. */
    ghost predicate Sound(n: nat, sbrk: Sbrk)
      reads this, mem
    {
      sbrk.Region? ==>
        && base < sbrk.addr && sbrk.addr + n <= mem.Length
        && forall u :: sbrk.addr <= u < sbrk.addr + n ==> u !in heap.given
    }

    /** morecore: the region joins the free list, where `nu` units now fit. */
    method Morecore(nu: nat, sbrk: Sbrk) returns (p: nat)
      requires Valid() && freep != 0 && Sound(MoreUnits(nu), sbrk)
      modifies this`freep, this`heap, this`at, mem
      ensures Valid() && freep != 0
      ensures sbrk.Refused? ==> p == 0 && heap == old(heap) && at == old(at)
      ensures sbrk.Region? ==>
        && p == freep && SomeFit(heap.free, nu) && at == Below(old(heap.free), sbrk.addr)
        && heap == Grow(old(heap), Block(sbrk.addr, MoreUnits(nu)))
    {
      var n := if nu < MIN_UNITS then MIN_UNITS else nu;
      if sbrk.Refused? {
        return 0;
      }
      ghost var m := mem[..];
      var hp := sbrk.addr;
      ghost var b := Block(hp, n);
      assert b.Has(hp);
      mem[hp] := mem[hp].(size := n);
      StampFresh(m, heap, base, hp, mem[..]);
      assert b in heap.alloc ==> InAlloc(heap.alloc, hp);
      GrowFits(heap.free, b, Below(heap.free, hp));
      Free(hp + 1, b);
      p := freep;
    }

    /** malloc's unlinking of the block found, all of it or its tail. */
    method Take(prevp: nat, q: nat, nunits: nat, ghost i: nat) returns (ap: nat)
      requires Valid() && freep != 0 && 0 < i < |heap.free| && 0 < nunits <= heap.free[i].size
      requires prevp == heap.free[i - 1].addr && q == heap.free[i].addr
      modifies this`freep, this`heap, this`at, mem
      ensures Valid() && freep != 0 && at == i - 1
      ensures heap == Carve(old(heap), i, nunits) && ap == Carved(old(heap.free), i, nunits).addr + 1
    {
      hide Inv, Headed, Fits, Ring, Sorted, Rising, CarveList, Succ, Linked;
      ghost var m, h, r := mem[..], heap, CarveList(heap.free, i, nunits);
      CarveKeeps(h, base, i, nunits);
      TakeReady(m, h, base, i, nunits, r);
      var p := q;
      if mem[p].size == nunits {
        mem[prevp] := mem[prevp].(ptr := mem[p].ptr);
        CarveRingWhole(m, h.free, i, r, mem[..]);
      } else {
        mem[p] := mem[p].(size := mem[p].size - nunits);
        p := p + mem[p].size;
        mem[p] := mem[p].(size := nunits);
        CarveRingTail(m, h.free, base, i, h.free[i].size - nunits, r, mem[..]);
      }
      TakeMemory(m, h, base, i, nunits, mem[..]);
      SameFits(m, mem[..], r);
      freep := prevp;
      heap := Carve(h, i, nunits);
      at := i - 1;
      return p + 1;
    }

    /** First call: the ring is base alone, pointing at itself. */
    method Init()
      requires Valid() && freep == 0
      modifies this`freep, mem
      ensures Valid() && freep == base
    {
      mem[base] := Header(base, mem[base].size);
      freep := base;
      mem[base] := Header(mem[base].ptr, 0);
      assert Linked(mem[..], heap.free, 0);
      assert Headed(mem[..], heap.alloc);
    }

    /** Units to look for: the header and the bytes, rounded up in 32-bit arithmetic. */
    method Round(nbytes: nat) returns (nunits: nat)
      requires nbytes < Blocks.UINT_LIMIT
      ensures nunits == NUnits(nbytes) && nunits > 0
    {
      nunits := (nbytes + HEADER - 1) % Blocks.UINT_LIMIT / HEADER + 1;
    }

    lemma WalkStart(n: nat) returns (i: nat)
      requires Valid() && freep != 0
      ensures freep < mem.Length && mem[freep].ptr >= 0
      ensures Walking(heap.free, at, i, freep, mem[freep].ptr, n)
    {
      LinkedOf(mem[..], heap.free, at);
      i := if at + 1 < |heap.free| then at + 1 else 0;
      LinkedOf(mem[..], heap.free, i);
    }

    /** One look at block `i`: it is big enough, or the walk moves on, or the lap is over. */
    lemma WalkOn(i: nat, prevp: int, p: int, n: nat) returns (next: nat)
      requires Valid() && freep != 0 && n > 0 && Walking(heap.free, at, i, prevp, p, n)
      ensures 0 <= p < mem.Length && mem[p].ptr >= 0 && at < |heap.free| && (i > 0 ==> prevp >= 0)
      ensures mem[p].size >= n ==> NextFit(heap.free, at, i, n) && i > 0
      ensures mem[p].size < n && p == freep ==> !SomeFit(heap.free, n)
      ensures mem[p].size < n && p != freep ==>
        && Walking(heap.free, at, next, p, mem[p].ptr, n)
        && Lap(next, at, |heap.free|) < Lap(i, at, |heap.free|)
    {
      var f := heap.free;
      LinkedOf(mem[..], f, i);
      if i > 0 { LinkedOf(mem[..], f, i - 1); }
      SortedRises(f, base);
      assert i < at ==> Lower(f[i], f[at]);
      assert at < i ==> Lower(f[at], f[i]);
      next := if i + 1 < |f| then i + 1 else 0;
      LinkedOf(mem[..], f, next);
    }

    /** malloc: the first block big enough from `freep` on; otherwise one call of morecore, after
        which the search succeeds. */
    method Malloc(nbytes: nat, sbrk: Sbrk) returns (ap: nat)
      requires Valid() && nbytes < Blocks.UINT_LIMIT
      requires !SomeFit(heap.free, NUnits(nbytes)) ==> Sound(MoreUnits(NUnits(nbytes)), sbrk)
      modifies this`freep, this`heap, this`at, mem
      ensures Valid()
      ensures old(SomeFit(heap.free, NUnits(nbytes))) ==>
        Took(old(heap), old(at), NUnits(nbytes), heap, ap)
      ensures !old(SomeFit(heap.free, NUnits(nbytes))) && sbrk.Refused? ==>
        ap == 0 && heap == old(heap)
      ensures !old(SomeFit(heap.free, NUnits(nbytes))) && sbrk.Region? ==>
        Took(Grow(old(heap), Block(sbrk.addr, MoreUnits(NUnits(nbytes)))), Below(old(heap.free), sbrk.addr),
             NUnits(nbytes), heap, ap)
    {
      hide Valid, Walking, NextFit, SomeFit, NUnits, Grow, Below, Carve, MoreUnits, Took;
      var nunits := Round(nbytes);
      if freep == 0 {
        Init();
      }
      ghost var h0, at0, grown := heap, at, false;
      ghost var i := WalkStart(nunits);
      var prevp := freep;
      var p := mem[prevp].ptr;
      while true
        invariant Valid() && freep != 0 && Walking(heap.free, at, i, prevp, p, nunits)
        invariant !grown ==> heap == h0 && at == at0
        invariant grown ==> SomeFit(heap.free, nunits) && !SomeFit(h0.free, nunits) && sbrk.Region?
        invariant grown ==> at == Below(h0.free, sbrk.addr) && heap == Grow(h0, Block(sbrk.addr, MoreUnits(nunits)))
        decreases !grown, Lap(i, at, |heap.free|)
      {
        ghost var next := WalkOn(i, prevp, p, nunits);
        if mem[p].size >= nunits {
          ghost var h, j := heap, at;
          FitIsTook(h, j, i, nunits);
          ap := Take(prevp, p, nunits, i);
          assert Took(h, j, nunits, heap, ap);
          return;
        }
        if p == freep {
          p := Morecore(nunits, sbrk);
          if p == 0 {
            return 0;
          }
          grown := true;
          next := WalkStart(nunits);
        }
        prevp := p;
        p := mem[p].ptr;
        i := next;
      }
    }
  }
}
