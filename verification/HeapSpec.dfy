/** The Kernighan & Ritchie heap of umalloc.c: its free list. */
module HeapSpec {
  // Addresses and sizes are in units of one Header (8 bytes).

  import Blocks

  datatype Block = Block(addr: int, size: nat) {
    function End(): int { addr + size }
    predicate Has(u: int) { addr <= u < addr + size }
  }

  const HEADER: nat := 8

  /** The free list in address order, `base` (size 0) first; no two blocks overlap or touch. */
  ghost predicate Sorted(f: seq<Block>, base: int) {
    && |f| > 0 && f[0] == Block(base, 0)
    && (forall i :: 1 <= i < |f| ==> f[i].size > 0 && base < f[i].addr)
    && (forall i, j {:trigger Before(f[i], f[j])} :: 0 <= i < j < |f| ==> Before(f[i], f[j]))
  }

  /** `a` ends below `b` and does not touch it. */
  ghost predicate Before(a: Block, b: Block) { a.addr + a.size < b.addr }

  ghost predicate InFree(f: seq<Block>, u: int) { exists i :: 0 <= i < |f| && f[i].Has(u) }

  ghost predicate InAlloc(alloc: set<Block>, u: int) { exists b :: b in alloc && b.Has(u) }

  ghost predicate Disjoint(a: Block, b: Block) { a.End() <= b.addr || b.End() <= a.addr }

  /** Free list, live blocks and every unit sbrk gave. */
  datatype Heap = Heap(free: seq<Block>, alloc: set<Block>, given: set<int>)

  /** Free and live blocks are pairwise disjoint and account for every unit given. */
  ghost predicate Inv(h: Heap, base: int) {
    && Sorted(h.free, base)
    && (forall b :: b in h.alloc ==> b.size > 0 && base < b.addr)
    && (forall b, i :: b in h.alloc && 0 <= i < |h.free| ==> Disjoint(b, h.free[i]))
    && (forall b, c :: b in h.alloc && c in h.alloc && b != c ==> Disjoint(b, c))
    && (forall u :: u in h.given <==> InFree(h.free, u) || InAlloc(h.alloc, u))
  }

  // ----- free -----

  /** The block joins the list: last position below it, merged with a neighbour it touches. */
  function Below(f: seq<Block>, a: int): (t: nat)
    requires |f| > 0
    ensures t < |f|
  {
    if |f| == 1 || f[|f| - 1].addr < a then |f| - 1 else Below(f[..|f| - 1], a)
  }

  lemma {:induction false} BelowIs(f: seq<Block>, base: int, b: Block, t: nat)
    requires Sorted(f, base) && base < b.addr && b.size > 0 && forall i :: 0 <= i < |f| ==> Disjoint(f[i], b)
    requires t == Below(f, b.addr)
    ensures f[t].End() <= b.addr && (t + 1 < |f| ==> b.End() <= f[t + 1].addr)
    ensures forall i :: 0 <= i <= t ==> f[i].addr < b.addr
    ensures forall i :: t < i < |f| ==> b.addr < f[i].addr
  {
    if |f| == 1 || f[|f| - 1].addr < b.addr {
      assert forall i :: 0 <= i < |f| - 1 ==> Before(f[i], f[|f| - 1]);
      assert Disjoint(f[|f| - 1], b);
    } else {
      assert Disjoint(f[|f| - 1], b);
      BelowIs(f[..|f| - 1], base, b, t);
    }
  }

  /** The block after merging with what follows it, and what is left of the list above. */
  function WithUpper(f: seq<Block>, b: Block, t: nat): Block
    requires t < |f|
  {
    if t + 1 < |f| && b.End() == f[t + 1].addr then Block(b.addr, b.size + f[t + 1].size) else b
  }

  function Above(f: seq<Block>, b: Block, t: nat): seq<Block>
    requires t < |f|
  {
    if t + 1 < |f| && b.End() == f[t + 1].addr then f[t + 2..] else f[t + 1..]
  }

  function FreeAt(f: seq<Block>, b: Block, t: nat): seq<Block>
    requires t < |f|
  {
    var c := WithUpper(f, b, t);
    if f[t].End() == b.addr
    then f[..t] + [Block(f[t].addr, f[t].size + c.size)] + Above(f, b, t)
    else f[..t + 1] + [c] + Above(f, b, t)
  }

  /** `g` is `f` with `c` put after position `t`, in place of `1 - skip` following blocks. */
  ghost predicate Spliced(f: seq<Block>, g: seq<Block>, t: nat, c: Block, skip: int) {
    && t < |f| && 0 <= skip <= 1 && t + 1 - skip < |f| && |g| == |f| + skip
    && g[t + 1] == c
    && (forall i :: 0 <= i <= t ==> g[i] == f[i])
    && (forall i :: t + 2 <= i < |g| ==> g[i] == f[i - skip])
  }

  /** Sorted, except that positions `t` and `t + 1` may touch. */
  ghost predicate NearlySorted(g: seq<Block>, base: int, t: nat)
    ensures NearlySorted(g, base, t) ==> t + 1 < |g|
  {
    && t + 1 < |g| && g[0] == Block(base, 0)
    && (forall i :: 1 <= i < |g| ==> g[i].size > 0 && base < g[i].addr)
    && (forall i, j {:trigger Before(g[i], g[j])} :: 0 <= i < j < |g| && !(i == t && j == t + 1) ==> Before(g[i], g[j]))
    && g[t].End() <= g[t + 1].addr
  }

  ghost predicate Clear(f: seq<Block>, base: int, b: Block) {
    base < b.addr && b.size > 0 && forall i :: 0 <= i < |f| ==> Disjoint(f[i], b)
  }

  lemma InsertOrdered(f: seq<Block>, base: int, b: Block, t: nat, g: seq<Block>, c: Block, skip: int)
    requires Sorted(f, base) && Clear(f, base, b) && t == Below(f, b.addr)
    requires c == WithUpper(f, b, t) && Spliced(f, g, t, c, skip)
    requires skip == 0 <==> t + 1 < |f| && b.End() == f[t + 1].addr
    ensures NearlySorted(g, base, t)
  {
    BelowIs(f, base, b, t);
    assert c.addr == b.addr && c.End() == if skip == 0 then f[t + 1].End() else b.End();
    hide InFree, Below, WithUpper, Clear;
    forall i, j | 0 <= i < j < |g| && !(i == t && j == t + 1) ensures Before(g[i], g[j]) {
      if i == t + 1 {
        NewBefore(f, base, b, t, g, c, skip, j);
      } else {
        OldBefore(f, base, b, t, g, c, skip, i, j);
      }
    }
  }

  lemma NewBefore(f: seq<Block>, base: int, b: Block, t: nat, g: seq<Block>, c: Block, skip: int, j: nat)
    requires Sorted(f, base) && Spliced(f, g, t, c, skip) && t + 1 < j < |g|
    requires skip == 0 <==> t + 1 < |f| && b.End() == f[t + 1].addr
    requires t + 1 < |f| ==> b.End() <= f[t + 1].addr
    requires c.addr == b.addr && c.End() == if skip == 0 then f[t + 1].End() else b.End()
    ensures Before(g[t + 1], g[j])
  {
    if skip == 0 {
      assert Before(f[t + 1], f[j]);
    } else if j - 1 > t + 1 {
      assert Before(f[t + 1], f[j - 1]);
    }
  }

  lemma OldBefore(f: seq<Block>, base: int, b: Block, t: nat, g: seq<Block>, c: Block, skip: int, i: nat, j: nat)
    requires Sorted(f, base) && Spliced(f, g, t, c, skip) && i < j < |g| && i != t + 1 && !(i == t && j == t + 1)
    requires c.addr == b.addr && f[t].End() <= b.addr && f[t].addr < b.addr
    ensures Before(g[i], g[j])
  {
    if j == t + 1 {
      assert Before(f[i], f[t]);
    } else {
      assert Before(f[if i <= t then i else i - skip], f[if j <= t then j else j - skip]);
    }
  }

  lemma InsertUnits(f: seq<Block>, b: Block, t: nat, g: seq<Block>, c: Block, skip: int)
    requires t < |f| && c == WithUpper(f, b, t) && Spliced(f, g, t, c, skip)
    requires skip == 0 <==> t + 1 < |f| && b.End() == f[t + 1].addr
    ensures forall u :: InFree(g, u) <==> InFree(f, u) || b.Has(u)
  {
    forall u ensures InFree(g, u) <==> InFree(f, u) || b.Has(u) {
      if InFree(g, u) {
        var i :| 0 <= i < |g| && g[i].Has(u);
        if i == t + 1 {
          assert b.Has(u) || f[t + 1].Has(u);
        } else {
          assert f[if i <= t then i else i - skip].Has(u);
        }
      }
      if b.Has(u) { assert g[t + 1].Has(u); }
      if i :| 0 <= i < |f| && f[i].Has(u) {
        assert g[if i <= t then i else if i == t + 1 && skip == 0 then i else i + skip].Has(u);
      }
    }
  }

  lemma LowerMerge(g: seq<Block>, base: int, t: nat, r: seq<Block>)
    requires NearlySorted(g, base, t) && g[t].End() == g[t + 1].addr
    requires |r| == |g| - 1 && forall i :: 0 <= i < t ==> r[i] == g[i]
    requires r[t] == Block(g[t].addr, g[t].size + g[t + 1].size)
    requires forall i :: t < i < |r| ==> r[i] == g[i + 1]
    ensures Sorted(r, base)
    ensures forall u :: InFree(r, u) <==> InFree(g, u)
  {
    if t > 0 {
      assert Sorted(r, base) by {
        hide InFree;
        forall i, j | 0 <= i < j < |r| ensures Before(r[i], r[j]) {
          var x, y := if i < t then i else i + 1, if j <= t then j else j + 1;
          assert Before(g[x], g[y]);
        }
      }
    }
    forall u ensures InFree(r, u) <==> InFree(g, u) {
      if i :| 0 <= i < |g| && g[i].Has(u) { assert r[if i <= t then i else i - 1].Has(u); }
      if i :| 0 <= i < |r| && r[i].Has(u) {
        assert if i < t then g[i].Has(u) else if i > t then g[i + 1].Has(u) else g[t].Has(u) || g[t + 1].Has(u);
      }
    }
  }

  /** The list before the block is joined to the one below it. */
  function Joined(f: seq<Block>, b: Block, t: nat): seq<Block>
    requires t < |f|
  {
    f[..t + 1] + [WithUpper(f, b, t)] + Above(f, b, t)
  }

  lemma JoinedSpliced(f: seq<Block>, b: Block, t: nat, skip: int)
    requires t < |f| && skip == if t + 1 < |f| && b.End() == f[t + 1].addr then 0 else 1
    ensures Spliced(f, Joined(f, b, t), t, WithUpper(f, b, t), skip)
  {
  }

  lemma FreeAtJoined(f: seq<Block>, b: Block, t: nat, g: seq<Block>, r: seq<Block>)
    requires t < |f| && g == Joined(f, b, t) && r == FreeAt(f, b, t)
    ensures f[t].End() != b.addr ==> r == g
    ensures f[t].End() == b.addr ==> |r| == |g| - 1 && r[t] == Block(g[t].addr, g[t].size + g[t + 1].size)
    ensures f[t].End() == b.addr ==> forall i :: 0 <= i < t ==> r[i] == g[i]
    ensures f[t].End() == b.addr ==> forall i :: t < i < |r| ==> r[i] == g[i + 1]
  {
  }

  /** free keeps the list sorted with no two adjacent blocks, and adds exactly the block's units. */
  lemma FreeSorted(f: seq<Block>, base: int, b: Block)
    requires Sorted(f, base) && Clear(f, base, b)
    ensures Sorted(FreeAt(f, b, Below(f, b.addr)), base)
    ensures forall u :: InFree(FreeAt(f, b, Below(f, b.addr)), u) <==> InFree(f, u) || b.Has(u)
  {
    var t := Below(f, b.addr);
    var c, g, r := WithUpper(f, b, t), Joined(f, b, t), FreeAt(f, b, t);
    var skip := if t + 1 < |f| && b.End() == f[t + 1].addr then 0 else 1;
    JoinedSpliced(f, b, t, skip);
    assert g[t] == f[t] && g[t + 1].addr == b.addr;
    hide InFree, NearlySorted, Sorted, Clear, Below, Joined, FreeAt, WithUpper, Spliced;
    InsertOrdered(f, base, b, t, g, c, skip);
    InsertUnits(f, b, t, g, c, skip);
    FreeAtJoined(f, b, t, g, r);
    if f[t].End() == b.addr {
      LowerMerge(g, base, t, r);
    } else {
    }
  }

  function Release(h: Heap, b: Block): Heap
    requires |h.free| > 0
  {
    Heap(FreeAt(h.free, b, Below(h.free, b.addr)), h.alloc - {b}, h.given)
  }

  /** free of a live block keeps the heap in order and loses no unit. */
  lemma FreeKeeps(h: Heap, base: int, b: Block)
    requires Inv(h, base) && b in h.alloc
    ensures Inv(Release(h, b), base)
  {
    forall i | 0 <= i < |h.free| ensures Disjoint(h.free[i], b) { assert Disjoint(b, h.free[i]); }
    FreeSorted(h.free, base, b);
    var r := Release(h, b);
    forall c, i | c in r.alloc && 0 <= i < |r.free| ensures Disjoint(c, r.free[i]) {
      ApartFromUnits(c, r.free[i], r.free, h.free, b, i);
    }
    forall u ensures u in r.given <==> InFree(r.free, u) || InAlloc(r.alloc, u) {
      if InAlloc(h.alloc, u) {
        var c :| c in h.alloc && c.Has(u);
        if c != b { assert c in r.alloc; }
      }
      if InAlloc(r.alloc, u) { var c :| c in r.alloc && c.Has(u); assert c in h.alloc; }
    }
  }

  /** Two non-empty intervals are disjoint when no unit is in both: a list block made of free units
      and of `b` cannot meet a block apart from both. */
  lemma ApartFromUnits(c: Block, x: Block, g: seq<Block>, f: seq<Block>, b: Block, i: nat)
    requires c.size > 0 && i < |g| && x == g[i] && Disjoint(c, b)
    requires forall j :: 0 <= j < |f| ==> Disjoint(c, f[j])
    requires forall u :: InFree(g, u) <==> InFree(f, u) || b.Has(u)
    ensures x.size > 0 ==> Disjoint(c, x)
    ensures x.size == 0 && x in f ==> Disjoint(c, x)
  {
    var u := if c.addr < x.addr then x.addr else c.addr;
    assert x.Has(u) ==> InFree(g, u);
  }

  // ----- growing -----

  function Units(b: Block): (r: set<int>)
    ensures forall u :: u in r <==> b.Has(u)
    decreases b.size
  {
    if b.size == 0 then {} else Units(Block(b.addr, b.size - 1)) + {b.addr + b.size - 1}
  }

  /** morecore: a fresh region given to the heap through free. */
  function Grow(h: Heap, b: Block): Heap
    requires |h.free| > 0
  {
    Heap(FreeAt(h.free, b, Below(h.free, b.addr)), h.alloc, h.given + Units(b))
  }

  lemma GrowKeeps(h: Heap, base: int, b: Block)
    requires Inv(h, base) && b.size > 0 && base < b.addr
    requires forall u :: b.Has(u) ==> u !in h.given
    ensures forall i :: 0 <= i < |h.free| ==> Disjoint(h.free[i], b)
    ensures Inv(Grow(h, b), base)
  {
    forall i | 0 <= i < |h.free| ensures Disjoint(h.free[i], b) { FreshApart(h, base, b, h.free[i]); }
    FreeSorted(h.free, base, b);
    var r := Grow(h, b);
    forall c, i | c in r.alloc && 0 <= i < |r.free| ensures Disjoint(c, r.free[i]) {
      var u := if c.addr < b.addr then b.addr else c.addr;
      assert c.Has(u) ==> InAlloc(h.alloc, u);
      assert b.Has(u) ==> u !in h.given;
      ApartFromUnits(c, r.free[i], r.free, h.free, b, i);
    }
  }

  lemma FreshApart(h: Heap, base: int, b: Block, x: Block)
    requires Inv(h, base) && b.size > 0 && base < b.addr && x in h.free
    requires forall u :: b.Has(u) ==> u !in h.given
    ensures Disjoint(x, b)
  {
    var u := if x.addr < b.addr then b.addr else x.addr;
    assert x.Has(u) ==> InFree(h.free, u);
    assert b.Has(u) ==> u !in h.given;
  }

  // ----- malloc -----

  /** The block taken from the tail of free block `i`, or all of it. */
  function Carved(f: seq<Block>, i: nat, n: nat): Block
    requires i < |f| && n <= f[i].size
  {
    Block(f[i].addr + f[i].size - n, n)
  }

  function CarveList(f: seq<Block>, i: nat, n: nat): seq<Block>
    requires i < |f| && n <= f[i].size
  {
    if f[i].size == n then f[..i] + f[i + 1..] else f[i := Block(f[i].addr, f[i].size - n)]
  }

  function Carve(h: Heap, i: nat, n: nat): Heap
    requires i < |h.free| && n <= h.free[i].size
  {
    Heap(CarveList(h.free, i, n), h.alloc + {Carved(h.free, i, n)}, h.given)
  }

  /** Every block of `g` lies in the block of `f` at the same address. */
  ghost predicate Shrunk(g: seq<Block>, f: seq<Block>) {
    forall j :: 0 <= j < |g| ==> Inside(g[j], f)
  }

  ghost predicate Inside(x: Block, f: seq<Block>) {
    exists k :: 0 <= k < |f| && f[k].addr == x.addr && x.End() <= f[k].End()
  }

  lemma CarveTail(f: seq<Block>, base: int, i: nat, n: nat, g: seq<Block>, b: Block)
    requires Sorted(f, base) && 0 < i < |f| && 0 < n < f[i].size
    requires |g| == |f| && g[i] == Block(f[i].addr, f[i].size - n) && b == Carved(f, i, n)
    requires forall j :: 0 <= j < |f| && j != i ==> g[j] == f[j]
    ensures Sorted(g, base)
    ensures forall j :: 0 <= j < |g| ==> Disjoint(b, g[j])
  {
    hide InFree;
    forall j | 0 <= j < |g| ensures Disjoint(b, g[j]) {
      assert j < i ==> Before(f[j], f[i]);
      assert i < j ==> Before(f[i], f[j]);
    }
    forall j, k | 0 <= j < k < |g| ensures Before(g[j], g[k]) {
      assert Before(f[j], f[k]);
    }
  }

  lemma CarveTailUnits(f: seq<Block>, i: nat, n: nat, g: seq<Block>, b: Block)
    requires 0 < i < |f| && 0 < n < f[i].size
    requires |g| == |f| && g[i] == Block(f[i].addr, f[i].size - n) && b == Carved(f, i, n)
    requires forall j :: 0 <= j < |f| && j != i ==> g[j] == f[j]
    ensures Shrunk(g, f)
    ensures forall u :: InFree(f, u) <==> InFree(g, u) || b.Has(u)
  {
    forall j | 0 <= j < |g| ensures Inside(g[j], f) {
      assert f[j].addr == g[j].addr;
    }
    forall u ensures InFree(f, u) <==> InFree(g, u) || b.Has(u) {
      if k :| 0 <= k < |f| && f[k].Has(u) { assert b.Has(u) || g[k].Has(u); }
      if j :| 0 <= j < |g| && g[j].Has(u) { assert f[j].Has(u); }
      if b.Has(u) { assert f[i].Has(u); }
    }
  }

  lemma CarveWhole(f: seq<Block>, base: int, i: nat, g: seq<Block>)
    requires Sorted(f, base) && 0 < i < |f| && |g| == |f| - 1
    requires forall j :: 0 <= j < |g| ==> g[j] == f[if j < i then j else j + 1]
    ensures Sorted(g, base)
    ensures forall j :: 0 <= j < |g| ==> Disjoint(f[i], g[j])
  {
    hide InFree;
    forall j | 0 <= j < |g| ensures Disjoint(f[i], g[j]) {
      assert j < i ==> Before(f[j], f[i]);
      assert i <= j ==> Before(f[i], f[j + 1]);
    }
    forall j, k | 0 <= j < k < |g| ensures Before(g[j], g[k]) {
      assert Before(f[if j < i then j else j + 1], f[if k < i then k else k + 1]);
    }
  }

  lemma CarveWholeUnits(f: seq<Block>, i: nat, g: seq<Block>)
    requires 0 < i < |f| && |g| == |f| - 1
    requires forall j :: 0 <= j < |g| ==> g[j] == f[if j < i then j else j + 1]
    ensures Shrunk(g, f)
    ensures forall u :: InFree(f, u) <==> InFree(g, u) || f[i].Has(u)
  {
    forall j | 0 <= j < |g| ensures Inside(g[j], f) {
      assert f[if j < i then j else j + 1] == g[j];
    }
    forall u ensures InFree(f, u) <==> InFree(g, u) || f[i].Has(u) {
      if k :| 0 <= k < |f| && f[k].Has(u) {
        if k != i { assert g[if k < i then k else k - 1].Has(u); }
      }
      if j :| 0 <= j < |g| && g[j].Has(u) { assert f[if j < i then j else j + 1].Has(u); }
    }
  }

  lemma CarveUnits(f: seq<Block>, base: int, i: nat, n: nat, g: seq<Block>, b: Block)
    requires Sorted(f, base) && 0 < i < |f| && 0 < n <= f[i].size
    requires g == CarveList(f, i, n) && b == Carved(f, i, n)
    ensures Sorted(g, base) && Shrunk(g, f)
    ensures forall u :: InFree(f, u) <==> InFree(g, u) || b.Has(u)
    ensures forall j :: 0 <= j < |g| ==> Disjoint(b, g[j])
  {
    hide Sorted, Shrunk, InFree;
    if f[i].size == n {
      CarveWhole(f, base, i, g);
      CarveWholeUnits(f, i, g);
    } else {
      CarveTail(f, base, i, n, g, b);
      CarveTailUnits(f, i, n, g, b);
    }
  }

  /** malloc hands out units that were free, each still counted once. */
  lemma CarveKeeps(h: Heap, base: int, i: nat, n: nat)
    requires Inv(h, base) && i < |h.free| && 0 < n <= h.free[i].size
    ensures Inv(Carve(h, i, n), base) && Carved(h.free, i, n) !in h.alloc
  {
    var b, r := Carved(h.free, i, n), Carve(h, i, n);
    CarveUnits(h.free, base, i, n, r.free, b);
    hide Sorted, CarveList;
    forall c | c in h.alloc ensures Disjoint(c, b) && c != b {
      assert Disjoint(c, h.free[i]);
    }
    forall c, j | c in r.alloc && 0 <= j < |r.free| ensures Disjoint(c, r.free[j]) {
      if c != b {
        assert Inside(r.free[j], h.free);
        var k :| 0 <= k < |h.free| && h.free[k].addr == r.free[j].addr && r.free[j].End() <= h.free[k].End();
        assert Disjoint(c, h.free[k]);
      }
    }
    forall u ensures u in r.given <==> InFree(r.free, u) || InAlloc(r.alloc, u) {
      if InAlloc(h.alloc, u) { var c :| c in h.alloc && c.Has(u); assert c in r.alloc; }
      if b.Has(u) { assert b in r.alloc; }
    }
  }

  // ----- sizes -----

  /** malloc's size in units, with its 32-bit addition. */
  function NUnits(nbytes: nat): nat
    requires nbytes < Blocks.UINT_LIMIT
  {
    (nbytes + HEADER - 1) % Blocks.UINT_LIMIT / HEADER + 1
  }

  /** The block malloc looks for holds the bytes asked for, after its header, exactly when the
      rounding does not wrap. */
  lemma NUnitsSuffice(nbytes: nat)
    requires nbytes < Blocks.UINT_LIMIT
    ensures (NUnits(nbytes) - 1) * HEADER >= nbytes <==> nbytes + HEADER - 1 < Blocks.UINT_LIMIT
  {
  }

  /** The units behind a live block's header hold no header of the allocator's, so its owner may
      write them all. */
  lemma PayloadHoldsNoHeader(h: Heap, base: int, b: Block, u: int)
    requires Inv(h, base) && b in h.alloc && b.addr < u < b.End()
    ensures u in h.given && forall i :: 0 <= i < |h.free| ==> h.free[i].addr != u
    ensures forall c :: c in h.alloc ==> c.addr != u
  {
    assert b.Has(u) && InAlloc(h.alloc, u);
    forall i | 0 <= i < |h.free| ensures h.free[i].addr != u { assert Disjoint(b, h.free[i]); }
    forall c | c in h.alloc ensures c.addr != u { assert c != b ==> Disjoint(b, c); }
  }
}
