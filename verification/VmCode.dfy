/** kalloc.c and vm.c over physical memory: frames are pages of words, updated in place, and the
    free frames a linked list threaded through them, as kalloc.c keeps it. */
module VmCode {
  import opened VmSpec

  const JUNK: nat := 0x0101_0101

  function JunkPage(): Page { seq(NPTENTRIES, _ => JUNK) }

  ghost function Frames(s: seq<nat>): set<nat> { set f | f in s }

  /** PGROUNDUP of a size, as a page number. */
  function Up(sz: nat): nat { (sz + PGSIZE - 1) / PGSIZE }

  ghost predicate Threaded(m: Memory, free: seq<nat>, i: nat)
    requires i < |free|
  {
    free[i] < |m| && m[free[i]][0] == if i + 1 < |free| then free[i + 1] else 0
  }

  /** The list of free frames is threaded through their first words from `head`. */
  ghost predicate FreeList(m: Memory, lo: nat, head: nat, free: seq<nat>) {
    && 0 < lo <= |m|
    && (forall f :: f in free ==> lo <= f < |m|)
    && (forall i, j :: 0 <= i < j < |free| ==> free[i] != free[j])
    && head == (if free == [] then 0 else free[0])
    && (forall i :: 0 <= i < |free| ==> Threaded(m, free, i))
  }

  /** Only the free frames matter to the list. */
  lemma ListFrame(m: Memory, m': Memory, lo: nat, head: nat, free: seq<nat>)
    requires FreeList(m, lo, head, free) && |m'| == |m| && forall f :: f in free ==> m'[f] == m[f]
    ensures FreeList(m', lo, head, free)
  {
    forall i | 0 <= i < |free| ensures Threaded(m', free, i) {
      assert Threaded(m, free, i) && free[i] in free;
    }
  }

  lemma ListPush(m: Memory, m': Memory, lo: nat, head: nat, free: seq<nat>, f: nat)
    requires FreeList(m, lo, head, free) && |m'| == |m| && lo <= f < |m| && f !in free
    requires m'[f][0] == head && forall g :: 0 <= g < |m| && g != f ==> m'[g] == m[g]
    ensures FreeList(m', lo, f, [f] + free)
  {
    var n := [f] + free;
    forall i | 0 <= i < |n| ensures Threaded(m', n, i) {
      if i > 0 { assert Threaded(m, free, i - 1) && free[i - 1] in free; }
    }
  }

  lemma ListPop(m: Memory, lo: nat, head: nat, free: seq<nat>)
    requires FreeList(m, lo, head, free) && free != []
    ensures head == free[0] && lo <= head < |m| && head !in free[1..] && FreeList(m, lo, m[head][0], free[1..])
    ensures Frames(free) == Frames(free[1..]) + {head}
  {
    var n := free[1..];
    assert free == [free[0]] + n && free[0] in free;
    assert Threaded(m, free, 0);
    assert forall f :: f in n ==> f in free;
    forall i, j | 0 <= i < j < |n| ensures n[i] != n[j] { assert free[i + 1] != free[j + 1]; }
    forall i | 0 <= i < |n| ensures Threaded(m, n, i) { assert Threaded(m, free, i + 1); }
  }

  /** What the allocator and an address space need of memory together. */
  ghost predicate InUse(m: Memory, lo: nat, free: seq<nat>, sp: Space) {
    && Rep(m, sp) && Separate(sp)
    && forall f :: f in Owned(sp) ==> lo <= f < |m| && f !in free
  }

  lemma NewTable(m: Memory, lo: nat, free: seq<nat>, head: nat, sp: Space, x: nat, t: nat, m': Memory)
    requires InUse(m, lo, free, sp) && free != [] && t == free[0] && x < NPDENTRIES && x !in sp.tables
    requires FreeList(m, lo, head, free[1..]) && lo <= t < |m| && t !in free[1..]
    requires m' == m[t := ZeroPage()][sp.dir := m[sp.dir][x := Word(Pte(t, TABLE_FLAGS))]]
    ensures var n := sp.(tables := sp.tables[x := t]);
      && InUse(m', lo, free[1..], n) && FreeList(m', lo, head, free[1..])
      && Frames(free[1..]) + Structure(n) == Frames(free) + Structure(sp) && Structure(sp) <= Structure(n)
  {
    assert t in free;
    var rest := free[1..];
    assert free == [t] + rest;
    AddTable(m, sp, x, t, m');
    AddTableSeparate(sp, x, t);
    ListFrame(m, m', lo, head, rest);
  }

  /** The pages `a ..= last` are unmapped, and user pages among them get frames nobody has. */
  ghost predicate Mappable(lo: nat, size: nat, free: seq<nat>, sp: Space, a: nat, last: nat, frame: nat) {
    forall v :: a <= v <= last ==> v !in sp.pages && (User(v) ==> Spare(lo, size, free, sp, frame + (v - a)))
  }

  ghost predicate Spare(lo: nat, size: nat, free: seq<nat>, sp: Space, f: nat) {
    lo <= f < size && f !in Owned(sp) && f !in free
  }

  lemma NotTaken(m: Memory, m': Memory, lo: nat, was: seq<nat>, free: seq<nat>, sp: Space, n: Space, a: nat, k: nat,
                 last: nat, frame: nat, flags: nat, size: nat, v: nat, f: nat)
    requires Mappable(lo, size, was, sp, a, last, frame) && a + k <= last && v == a + k && f == frame + k
    requires Mapped(sp, n, a, k, frame, flags) && Grew(m, m', was, free, sp, n)
    ensures v !in n.pages && (User(v) ==> Spare(lo, size, free, n, f))
  {
    assert v !in sp.pages && (User(v) ==> Spare(lo, size, was, sp, frame + (v - a)));
    forall u | u in n.pages && User(u) && User(v) ensures n.pages[u].frame != f {
      if u in sp.pages { assert sp.pages[u].frame in UserFrames(sp.pages); }
    }
  }

  /** One more page mapped, in memory and in the address space. */
  lemma MapOne(m: Memory, lo: nat, free: seq<nat>, head: nat, n: Space, v: nat, e: Pte, m': Memory, next: Space)
    requires InUse(m, lo, free, n) && FreeList(m, lo, head, free) && v < NPAGES && v !in n.pages && Pdx(v) in n.tables
    requires e.flags < PGSIZE && e.flags % 2 == 1 && (User(v) ==> Spare(lo, |m|, free, n, e.frame))
    requires n.tables[Pdx(v)] < |m| && m' == m[n.tables[Pdx(v)] := m[n.tables[Pdx(v)]][Ptx(v) := Word(e)]]
    requires next == n.(pages := n.pages[v := e])
    ensures InUse(m', lo, free, next) && FreeList(m', lo, head, free) && Structure(next) == Structure(n)
  {
    WritePte(m, n, v, Word(e), next, m');
    MapSeparate(n, v, e);
    UserFramesAdd(n.pages, v, e);
    assert n.tables[Pdx(v)] in Structure(n);
    hide Rep, Separate;
    ListFrame(m, m', lo, head, free);
  }

  /** Page tables may have been added from the free list; nothing else in memory changed, and no frame
      was lost. */
  ghost predicate Grew(m: Memory, m': Memory, was: seq<nat>, free: seq<nat>, sp: Space, n: Space) {
    && |m'| == |m| && n.dir == sp.dir
    && Frames(free) + Structure(n) == Frames(was) + Structure(sp) && Structure(sp) <= Structure(n)
    && (forall f :: f in free ==> f in was)
    && (forall f :: 0 <= f < |m| && f !in Structure(n) ==> m'[f] == m[f])
  }

  lemma GrewTrans(m0: Memory, m1: Memory, m2: Memory, f0: seq<nat>, f1: seq<nat>, f2: seq<nat>,
                  s0: Space, s1: Space, s2: Space)
    requires Grew(m0, m1, f0, f1, s0, s1) && Grew(m1, m2, f1, f2, s1, s2)
    ensures Grew(m0, m2, f0, f2, s0, s2)
  {
    hide Structure, Frames;
  }

  /** The first `k` pages were mapped, short of the last. */
  ghost predicate Partly(sp: Space, n: Space, a: nat, last: nat, frame: nat, flags: nat) {
    exists k :: 0 <= k <= last - a && Mapped(sp, n, a, k, frame, flags)
  }

  /** `k` pages from `a` were mapped, and no other. */
  ghost predicate Mapped(sp: Space, n: Space, a: nat, k: nat, frame: nat, flags: nat) {
    n.pages == sp.pages + Run(a, k, frame, flags)
  }

  lemma MappedNext(sp: Space, n: Space, a: nat, k: nat, frame: nat, flags: nat, v: nat, f: nat, next: Space)
    requires Mapped(sp, n, a, k, frame, flags) && v == a + k && f == frame + k
    requires next.pages == n.pages[v := Pte(f, flags)]
    ensures Mapped(sp, next, a, k + 1, frame, flags)
  {
  }

  lemma StopsAt(sp: Space, n: Space, next: Space, a: nat, k: nat, last: nat, frame: nat, flags: nat)
    requires Mapped(sp, n, a, k, frame, flags) && next.pages == n.pages && k <= last - a
    ensures Partly(sp, next, a, last, frame, flags)
  {
    assert Mapped(sp, next, a, k, frame, flags);
  }

  lemma SpareStays(lo: nat, was: seq<nat>, free: seq<nat>, sp: Space, n: Space, f: nat, size: nat)
    requires Frames(free) + Structure(n) == Frames(was) + Structure(sp) && n.pages == sp.pages
    requires forall g :: g in free ==> g in was
    ensures Spare(lo, size, was, sp, f) ==> Spare(lo, size, free, n, f)
  {
  }

  /** Pages were unmapped and their frames freed; tables stay, and so does the content of the pages
      left and of frames that were never the address space's. */
  ghost predicate Shrank(m: Memory, m': Memory, was: seq<nat>, free: seq<nat>, sp: Space, n: Space) {
    && |m'| == |m| && n.dir == sp.dir && n.tables == sp.tables && UserFrames(n.pages) <= UserFrames(sp.pages)
    && Frames(free) + Owned(n) == Frames(was) + Owned(sp)
    && (forall f :: 0 <= f < |m| && f !in Structure(sp) && (f in UserFrames(n.pages) || f !in Owned(sp)) ==> m'[f] == m[f])
  }

  lemma ShrankTrans(m0: Memory, m1: Memory, m2: Memory, f0: seq<nat>, f1: seq<nat>, f2: seq<nat>,
                    s0: Space, s1: Space, s2: Space)
    requires Shrank(m0, m1, f0, f1, s0, s1) && Shrank(m1, m2, f1, f2, s1, s2)
    ensures Shrank(m0, m2, f0, f2, s0, s2)
  {
    hide UserFrames, Frames;
  }

  lemma ShrankSame(m: Memory, free: seq<nat>, sp: Space)
    ensures Shrank(m, m, free, free, sp, sp)
  {
  }

  /** The pages of `sp` outside `a .. b` are what `n` maps. */
  ghost predicate Unmapped(sp: Space, n: Space, a: nat, b: nat) {
    n.dir == sp.dir && n.tables == sp.tables && n.pages == Without(sp.pages, a, b)
  }

  lemma UnmappedNext(sp: Space, n: Space, a: nat, v: nat, next: Space)
    requires Unmapped(sp, n, a, v) && a <= v && next == n.(pages := n.pages - {v})
    ensures Unmapped(sp, next, a, v + 1)
  {
  }

  /** One page unmapped and freed, in memory and in the address space. */
  lemma UnmapOne(m: Memory, lo: nat, free: seq<nat>, head: nat, sp: Space, v: nat, f: nat, m1: Memory, m2: Memory, n: Space)
    requires InUse(m, lo, free, sp) && v in sp.pages && v < KERNPAGE && f == sp.pages[v].frame
    requires |m1| == |m| && FreeList(m1, lo, head, [f] + free)
    requires forall g :: 0 <= g < |m| && g != f ==> m1[g] == m[g]
    requires Pdx(v) in sp.tables && sp.tables[Pdx(v)] < |m|
    requires m2 == m1[sp.tables[Pdx(v)] := m1[sp.tables[Pdx(v)]][Ptx(v) := 0]]
    requires n == sp.(pages := sp.pages - {v})
    ensures InUse(m2, lo, [f] + free, n) && FreeList(m2, lo, head, [f] + free)
    ensures Shrank(m, m2, free, [f] + free, sp, n)
  {
    var t := sp.tables[Pdx(v)];
    UnmapSeparate(sp, v);
    assert t in Structure(sp) && f in UserFrames(sp.pages);
    hide Separate;
    assert f !in Structure(sp) by { StructureApart(sp); }
    RepFrame(m, m1, sp);
    WritePte(m1, sp, v, 0, n, m2);
    hide Rep;
    assert t !in [f] + free;
    ListFrame(m1, m2, lo, head, [f] + free);
  }

  lemma StructureApart(sp: Space)
    requires Separate(sp)
    ensures UserFrames(sp.pages) !! Structure(sp)
  {
  }

  /** The first page under the table after the one for page `a`. */
  function NextTable(a: nat): nat { (Pdx(a) + 1) * NPTENTRIES }

  /** No page under an absent table is mapped, so jumping to the next table skips nothing. */
  lemma SkipTable(sp: Space, n: Space, from: nat, a: nat, next: nat, to: nat)
    requires Unmapped(sp, n, from, a) && from <= a < to && Pdx(a) !in n.tables && next == NextTable(a)
    requires forall v :: v in n.pages ==> Pdx(v) in n.tables
    ensures a < next && Unmapped(sp, n, from, next) && (next > to ==> Unmapped(sp, n, from, to))
  {
    forall v | v in sp.pages && !(from <= v < a) ensures !(a <= v < next) {
      assert v in n.pages;
      assert Pdx(v) != Pdx(a);
    }
  }

  datatype Got = Frame(f: nat) | NoFrame | NoTable(f: nat)

  ghost function InHand(got: Got): (r: set<nat>)
    ensures !got.NoTable? ==> r == {}
  {
    if got.NoTable? then {got.f} else {}
  }

  /** From `sp` to `n`: every frame is free, owned, or in hand as before; frames that were neither free
      nor the address space's are untouched, and so is the content of the pages kept. */
  ghost predicate Moved(m: Memory, m': Memory, was: seq<nat>, free: seq<nat>, hand: set<nat>, sp: Space, n: Space) {
    && |m'| == |m| && n.dir == sp.dir
    && Frames(free) + Owned(n) + hand == Frames(was) + Owned(sp)
    && (forall f :: 0 <= f < |m| && f !in was && f !in Owned(sp) ==> m'[f] == m[f])
    && (forall v :: v in sp.pages && v in n.pages && User(v) ==> KeptPage(m, m', sp, n, v))
  }

  ghost predicate KeptPage(m: Memory, m': Memory, sp: Space, n: Space, v: nat)
    requires v in sp.pages && v in n.pages
  {
    n.pages[v] == sp.pages[v] && (sp.pages[v].frame < |m| == |m'| ==> m'[sp.pages[v].frame] == m[sp.pages[v].frame])
  }

  lemma FrameTaken(lo: nat, was: seq<nat>, free: seq<nat>, head: nat, f: nat, sp: Space, m: Memory)
    requires was != [] && f == was[0] && free == was[1..] && InUse(m, lo, was, sp)
    ensures Frames(was) == Frames(free) + {f} && f !in Owned(sp) && f in was
  {
    assert was == [f] + free;
  }

  lemma StillInUse(m: Memory, m1: Memory, lo: nat, was: seq<nat>, free: seq<nat>, head: nat, sp: Space, f: nat)
    requires InUse(m, lo, was, sp) && f in was && f < |m| == |m1| && Frames(was) == Frames(free) + {f}
    requires FreeList(m, lo, head, free) && f !in free && forall g :: 0 <= g < |m| && g != f ==> m1[g] == m[g]
    ensures InUse(m1, lo, free, sp) && FreeList(m1, lo, head, free)
  {
    assert forall g :: g in free ==> g in Frames(free);
    RepFrame(m, m1, sp);
    ListFrame(m, m1, lo, head, free);
  }

  /** The frames after one user page is mapped, or not, on frame `f` taken from the list. */
  lemma PageFrames(m1: Memory, m2: Memory, was: seq<nat>, f1: seq<nat>, free: seq<nat>, sp: Space, n: Space,
                   f: nat, v: nat, flags: nat, ok: bool)
    requires User(v) && v !in sp.pages && Frames(was) == Frames(f1) + {f} && f !in Owned(sp)
    requires Grew(m1, m2, f1, free, sp, n) && f !in f1 && f < |m1|
    requires n.pages == if ok then sp.pages[v := Pte(f, flags)] else sp.pages
    ensures Frames(free) + Owned(n) + (if ok then {} else {f}) == Frames(was) + Owned(sp)
    ensures f !in Structure(n) && f !in free && (!ok ==> f !in Owned(n)) && m2[f] == m1[f]
  {
    assert f !in Frames(f1) + Structure(sp);
    UserFramesAdd(sp.pages, v, Pte(f, flags));
  }

  /** What one call of mappages for a user page on frame `f` in hand does. */
  lemma PageMoved(m: Memory, m1: Memory, m2: Memory, was: seq<nat>, f1: seq<nat>, free: seq<nat>, sp: Space, n: Space,
                  f: nat, v: nat, flags: nat, ok: bool)
    requires Separate(sp) && User(v) && v !in sp.pages && Frames(was) == Frames(f1) + {f} && f in was && f !in Owned(sp)
    requires |m1| == |m| && forall g :: 0 <= g < |m| && g != f ==> m1[g] == m[g]
    requires Grew(m1, m2, f1, free, sp, n) && forall g :: g in Owned(sp) ==> g !in was
    requires n.pages == if ok then sp.pages[v := Pte(f, flags)] else sp.pages
    requires Separate(n) && f < |m| && f !in f1
    ensures Moved(m, m2, was, free, if ok then {} else {f}, sp, n)
    ensures m2[f] == m1[f] && f !in free && (!ok ==> f !in Owned(n))
  {
    PageFrames(m1, m2, was, f1, free, sp, n, f, v, flags, ok);
    forall u | u in sp.pages && u in n.pages && User(u) ensures KeptPage(m, m2, sp, n, u) {
      assert sp.pages[u].frame in UserFrames(sp.pages) && n.pages[u].frame in UserFrames(n.pages);
    }
    forall g | 0 <= g < |m| && g !in was && g !in Owned(sp) ensures m2[g] == m[g] {
      assert g !in Frames(was) + Owned(sp);
    }
    hide Separate, Owned, Frames, KeptPage;
  }

  lemma UpIsMonotone(x: nat, y: nat)
    requires x <= y
    ensures Up(x) <= Up(y) && (y <= KERNBASE ==> Up(y) <= KERNPAGE)
  {
  }

  lemma UnmappedKeeps(sp: Space, n: Space, a: nat, b: nat)
    requires Unmapped(sp, n, a, b)
    ensures forall v :: v in sp.pages && v in n.pages ==> n.pages[v] == sp.pages[v]
  {
  }

  lemma ShrankMoved(m: Memory, m': Memory, was: seq<nat>, free: seq<nat>, sp: Space, n: Space, lo: nat)
    requires Shrank(m, m', was, free, sp, n) && InUse(m, lo, was, sp)
    requires forall v :: v in sp.pages && v in n.pages ==> n.pages[v] == sp.pages[v]
    ensures Moved(m, m', was, free, {}, sp, n)
  {
    forall v | v in sp.pages && v in n.pages && User(v) ensures KeptPage(m, m', sp, n, v) {
      assert sp.pages[v].frame in UserFrames(n.pages) && sp.pages[v].frame in UserFrames(sp.pages);
    }
  }

  lemma NothingMoved(m: Memory, free: seq<nat>, sp: Space)
    ensures Moved(m, m, free, free, {}, sp, sp)
  {
  }

  lemma MovedTrans(m0: Memory, m1: Memory, m2: Memory, f0: seq<nat>, f1: seq<nat>, f2: seq<nat>, h1: set<nat>, h2: set<nat>,
                   s0: Space, s1: Space, s2: Space)
    requires Moved(m0, m1, f0, f1, h1, s0, s1) && Moved(m1, m2, f1, f2, h2, s1, s2)
    requires forall v :: v in s0.pages && v in s2.pages ==> v in s1.pages
    ensures Moved(m0, m2, f0, f2, h1 + h2, s0, s2)
  {
    forall f | 0 <= f < |m0| && f !in f0 && f !in Owned(s0) ensures m2[f] == m0[f] {
      assert f !in Frames(f0) + Owned(s0);
      assert f !in Frames(f1) + Owned(s1);
    }
    forall v | v in s0.pages && v in s2.pages && User(v) ensures KeptPage(m0, m2, s0, s2, v) {
      assert KeptPage(m0, m1, s0, s1, v) && KeptPage(m1, m2, s1, s2, v);
    }
  }

  /** Pages `a .. b` are new, zeroed and the user's; the others are as they were. */
  ghost predicate Grown(m: Memory, sp: Space, n: Space, a: nat, b: nat) {
    && (forall v :: v in n.pages <==> v in sp.pages || a <= v < b)
    && (forall v :: v in sp.pages ==> n.pages[v] == sp.pages[v])
    && (forall v :: a <= v < b && v in n.pages ==> NewPage(m, n.pages[v]))
  }

  ghost predicate NewPage(m: Memory, e: Pte) { e.flags == USER_FLAGS && e.frame < |m| && m[e.frame] == ZeroPage() }

  lemma GrownNothing(m: Memory, sp: Space, a: nat)
    ensures Grown(m, sp, sp, a, a)
  {
  }

  lemma GrownEmpty(m: Memory, sp: Space, n: Space, a: nat)
    requires Grown(m, sp, n, a, a)
    ensures n.pages == sp.pages
  {
  }

  /** Growing and then shrinking back gives the mapping back. */
  lemma GrowShrinkRestores(m: Memory, sp: Space, n: Space, back: Space, oldsz: nat, newsz: nat)
    requires oldsz < newsz && Grown(m, sp, n, Up(oldsz), Up(newsz)) && Unmapped(n, back, Up(oldsz), Up(newsz))
    requires forall v :: Up(oldsz) <= v < Up(newsz) ==> v !in sp.pages
    ensures back.pages == sp.pages && UserFrames(back.pages) == UserFrames(sp.pages)
  {
    UpIsMonotone(oldsz, newsz);
    BackToStart(m, sp, n, n, back, Up(oldsz), Up(newsz), Up(newsz));
  }

  lemma GrownDomain(m: Memory, sp: Space, n: Space, a: nat, b: nat)
    requires Grown(m, sp, n, a, b)
    ensures forall v :: v in n.pages <==> v in sp.pages || a <= v < b
  {
  }

  lemma GrownNext(m0: Memory, m1: Memory, m2: Memory, f0: seq<nat>, f1: seq<nat>, f2: seq<nat>,
                  s0: Space, s1: Space, s2: Space, a: nat, b: nat, f: nat, lo: nat)
    requires Grown(m1, s0, s1, a, b) && Moved(m0, m1, f0, f1, {}, s0, s1) && Moved(m1, m2, f1, f2, {}, s1, s2)
    requires b !in s1.pages && s2.pages == s1.pages[b := Pte(f, USER_FLAGS)] && f < |m2| && m2[f] == ZeroPage()
    requires a <= b < KERNPAGE
    ensures Grown(m2, s0, s2, a, b + 1) && Moved(m0, m2, f0, f2, {}, s0, s2)
  {
    var none: set<nat> := {};
    MovedTrans(m0, m1, m2, f0, f1, f2, none, none, s0, s1, s2);
    assert none + none == none;
    forall v | a <= v < b ensures KeptPage(m1, m2, s1, s2, v) { assert v in s1.pages && v in s2.pages; }
    hide Moved;
    forall v | a <= v < b + 1 && v in s2.pages ensures NewPage(m2, s2.pages[v]) {
      if v < b { assert NewPage(m1, s1.pages[v]) && KeptPage(m1, m2, s1, s2, v); }
    }
  }

  /** Unmapping everything the growth had mapped gives the old mapping back. */
  lemma BackToStart(m: Memory, sp: Space, n1: Space, n2: Space, n3: Space, a: nat, b: nat, end: nat)
    requires Grown(m, sp, n1, a, b) && n2.pages == n1.pages && Unmapped(n2, n3, a, end) && a <= b <= end
    requires forall v :: a <= v < end ==> v !in sp.pages
    ensures n3.pages == sp.pages
  {
  }

  lemma NotInHand(m: Memory, m': Memory, was: seq<nat>, free: seq<nat>, sp: Space, n: Space, f: nat)
    requires Moved(m, m', was, free, {}, sp, n) && f !in was && f !in Owned(sp)
    ensures f !in free && f !in Owned(n)
  {
    assert f !in Frames(was) + Owned(sp);
    assert f in free ==> f in Frames(free);
  }

  /** Freeing the frame in hand. */
  lemma HandReturned(m0: Memory, m3: Memory, m4: Memory, f0: seq<nat>, f3: seq<nat>, f: nat, sp: Space, n: Space, lo: nat)
    requires Moved(m0, m3, f0, f3, {f}, sp, n) && InUse(m3, lo, f3, n) && f !in f3 && f !in Owned(n) && |m4| == |m3|
    requires forall g :: 0 <= g < |m3| && g != f ==> m4[g] == m3[g]
    ensures Moved(m0, m4, f0, [f] + f3, {}, sp, n) && InUse(m4, lo, [f] + f3, n)
  {
    assert Frames([f] + f3) == Frames(f3) + {f} by {
      assert forall g :: g in [f] + f3 <==> g == f || g in f3;
    }
    assert f in Frames(f0) + Owned(sp);
    RepFrame(m3, m4, n);
    forall v | v in sp.pages && v in n.pages && User(v) ensures KeptPage(m0, m4, sp, n, v) {
      assert KeptPage(m0, m3, sp, n, v);
      assert n.pages[v].frame in UserFrames(n.pages);
    }
  }

  ghost function TablesBelow(tables: map<nat, nat>, i: nat): set<nat> { set x | x in tables && x < i :: tables[x] }

  /** After deallocuvm(KERNBASE, 0) only the directory and the tables are left. */
  lemma FreedEverything(m: Memory, m': Memory, was: seq<nat>, free: seq<nat>, sp: Space, n: Space)
    requires Moved(m, m', was, free, {}, sp, n) && Unmapped(sp, n, Up(0), Up(KERNBASE))
    ensures UserFrames(n.pages) == {} && n.dir == sp.dir && n.tables == sp.tables
    ensures Frames(free) + Structure(n) == Frames(was) + Owned(sp)
    ensures forall f :: 0 <= f < |m| && f !in was && f !in Owned(sp) ==> f < |m'| && m'[f] == m[f]
  {
    assert Up(0) == 0 && Up(KERNBASE) == KERNPAGE;
  }

  /** A directory entry read back. */
  lemma DirEntry(m: Memory, lo: nat, free: seq<nat>, n: Space, i: nat)
    requires InUse(m, lo, free, n) && i < NPDENTRIES
    ensures n.dir < |m| && n.dir !in n.tables.Values && (Present(m[n.dir][i]) <==> i in n.tables)
    ensures i in n.tables ==> FrameOf(m[n.dir][i]) == n.tables[i]
  {
    assert DirSlot(m, n, i);
    if i in n.tables { WordReads(Pte(n.tables[i], TABLE_FLAGS)); }
  }

  lemma TablesSkip(tables: map<nat, nat>, i: nat)
    requires i !in tables
    ensures TablesBelow(tables, i + 1) == TablesBelow(tables, i)
  {
  }

  /** The next table is not free yet, and freeing it is one step on. */
  lemma TableInHand(m: Memory, lo: nat, f1: seq<nat>, free: seq<nat>, n: Space, i: nat)
    requires InUse(m, lo, f1, n) && i in n.tables && Frames(free) == Frames(f1) + TablesBelow(n.tables, i)
    ensures lo <= n.tables[i] < |m| && n.tables[i] !in free && n.tables[i] in n.tables.Values && n.tables[i] != n.dir
    ensures Frames([n.tables[i]] + free) == Frames(f1) + TablesBelow(n.tables, i + 1)
  {
    var f := n.tables[i];
    assert f in Owned(n);
    assert f in free ==> f in Frames(free);
    assert forall g :: g in [f] + free <==> g == f || g in free;
    assert TablesBelow(n.tables, i + 1) == TablesBelow(n.tables, i) + {f};
  }

  lemma AllTables(n: Space)
    requires forall x :: x in n.tables ==> x < NPDENTRIES
    ensures TablesBelow(n.tables, NPDENTRIES) == n.tables.Values
  {
    forall f | f in n.tables.Values ensures f in TablesBelow(n.tables, NPDENTRIES) {
      var x :| x in n.tables && n.tables[x] == f;
    }
  }

  lemma DirInHand(m: Memory, lo: nat, f1: seq<nat>, free: seq<nat>, n: Space)
    requires InUse(m, lo, f1, n) && Frames(free) == Frames(f1) + n.tables.Values
    ensures lo <= n.dir < |m| && n.dir !in free && Frames([n.dir] + free) == Frames(f1) + Structure(n)
  {
    assert n.dir in Owned(n);
    assert n.dir in free ==> n.dir in Frames(free);
    assert forall g :: g in [n.dir] + free <==> g == n.dir || g in free;
  }

  /** Everything the new address space owns came from the free list, and nothing else changed. */
  ghost predicate Built(m: Memory, m': Memory, was: seq<nat>, free: seq<nat>, n: Space) {
    && |m'| == |m| && Frames(free) + Owned(n) == Frames(was) && UserFrames(n.pages) == {}
    && forall f :: 0 <= f < |m| && f !in was ==> m'[f] == m[f]
  }

  lemma NewDirectory(m: Memory, lo: nat, was: seq<nat>, head: nat, d: nat, m': Memory, n: Space)
    requires was != [] && d == was[0] && FreeList(m, lo, head, was[1..]) && lo <= d < |m| && d !in was[1..]
    requires m' == m[d := ZeroPage()] && n == Space(d, map[], map[])
    ensures FreeList(m', lo, head, was[1..]) && InUse(m', lo, was[1..], n) && Built(m, m', was, was[1..], n)
  {
    ListFrame(m, m', lo, head, was[1..]);
    assert was == [d] + was[1..];
    assert forall f :: f in was <==> f == d || f in was[1..];
    forall x | 0 <= x < NPDENTRIES ensures DirSlot(m', n, x) {}
  }

  lemma RowFree(lo: nat, size: nat, free: seq<nat>, data: nat, i: nat, n: Space)
    requires DataOk(data) && i < 4 && n.pages == KPages(data, i)
    ensures var r := KMap(data)[i];
      && r.Size() > 0 && r.virt + r.Size() <= NPAGES * PGSIZE && r.perm < PGSIZE
      && r.First() <= r.Last() && r.First() == r.virt / PGSIZE && r.Last() == (r.virt + r.Size() - 1) / PGSIZE
    ensures Mappable(lo, size, free, n, KMap(data)[i].First(), KMap(data)[i].Last(), KMap(data)[i].start / PGSIZE)
  {
    RowFits(data, i);
    var r := KMap(data)[i];
    forall v | r.First() <= v <= r.Last() ensures v !in n.pages && !User(v) {
      if v in n.pages { KPagesBelow(data, i, v); }
    }
  }

  lemma RowBuilt(m: Memory, m1: Memory, m2: Memory, was: seq<nat>, f1: seq<nat>, f2: seq<nat>, n1: Space, n2: Space,
                 data: nat, i: nat, ok: bool)
    requires DataOk(data) && i < 4 && n1.pages == KPages(data, i) && Built(m, m1, was, f1, n1)
    requires Grew(m1, m2, f1, f2, n1, n2)
    requires var r := KMap(data)[i];
      r.virt + r.Size() > 0 && r.First() <= r.Last() &&
      if ok then Mapped(n1, n2, r.First(), r.Last() - r.First() + 1, r.start / PGSIZE, WithP(r.perm))
      else Partly(n1, n2, r.First(), r.Last(), r.start / PGSIZE, WithP(r.perm))
    ensures Built(m, m2, was, f2, n2)
    ensures ok ==> n2.pages == KPages(data, i + 1)
  {
    NoUserPages(n1, n2, data, i, ok);
    hide KMap, KPages, Mapped, Partly;
    assert forall f :: f in f1 ==> f in Frames(f1);
    assert forall f :: f in was <==> f in Frames(was);
  }

  lemma NoUserPages(n1: Space, n2: Space, data: nat, i: nat, ok: bool)
    requires DataOk(data) && i < 4 && n1.pages == KPages(data, i)
    requires var r := KMap(data)[i];
      r.virt + r.Size() > 0 && r.First() <= r.Last() &&
      if ok then Mapped(n1, n2, r.First(), r.Last() - r.First() + 1, r.start / PGSIZE, WithP(r.perm))
      else Partly(n1, n2, r.First(), r.Last(), r.start / PGSIZE, WithP(r.perm))
    ensures UserFrames(n2.pages) == {} && (ok ==> n2.pages == KPages(data, i + 1))
  {
    RowFits(data, i);
    forall v | v in n2.pages ensures !User(v) {
      if v in n1.pages { KPagesBelow(data, i, v); }
    }
  }

  lemma GrewDir(m: Memory, m': Memory, was: seq<nat>, free: seq<nat>, sp: Space, n: Space)
    requires Grew(m, m', was, free, sp, n)
    ensures n.dir == sp.dir
  {
  }

  lemma BuiltMeans(m: Memory, m': Memory, was: seq<nat>, free: seq<nat>, n: Space)
    requires Built(m, m', was, free, n)
    ensures |m'| == |m| && Frames(free) + Owned(n) == Frames(was) && forall f :: 0 <= f < |m| && f !in was ==> m'[f] == m[f]
  {
  }

  // ----- copying -----

  datatype Copied = Copy(d: nat) | NoMemory | Missing

  /** The kernel's pages, and below `b` the parent's pages with the same flags and content. */
  ghost predicate CopyOf(m: Memory, sp: Space, n: Space, b: nat, data: nat)
    requires DataOk(data)
  {
    && (forall v :: v in n.pages <==> v in KPages(data, 4) || 0 <= v < b)
    && (forall v :: v in KPages(data, 4) ==> n.pages[v] == KPages(data, 4)[v])
    && (forall v :: 0 <= v < b && v in n.pages ==> SamePage(m, sp, n.pages[v], v))
  }

  ghost predicate SamePage(m: Memory, sp: Space, e: Pte, v: nat) {
    && v in sp.pages && e.flags == sp.pages[v].flags
    && e.frame < |m| && sp.pages[v].frame < |m| && m[e.frame] == m[sp.pages[v].frame]
  }

  /** While the child is made: its frames come from the free list, the parent is as it was. */
  ghost predicate Copying(m0: Memory, m: Memory, lo: nat, was: seq<nat>, free: seq<nat>, hand: set<nat>, sp: Space, n: Space) {
    && |m| == |m0| && InUse(m0, lo, was, sp) && Frames(free) + Owned(n) + hand == Frames(was)
    && forall f :: 0 <= f < |m| && f !in was ==> m[f] == m0[f]
  }

  /** The parent's address space survives when only frames of the free list changed. */
  lemma ParentStays(m0: Memory, m: Memory, lo: nat, was: seq<nat>, free: seq<nat>, used: set<nat>, sp: Space)
    requires InUse(m0, lo, was, sp) && |m| == |m0| && Frames(free) + used == Frames(was)
    requires forall f :: 0 <= f < |m| && f !in was ==> m[f] == m0[f]
    ensures InUse(m, lo, free, sp) && Owned(sp) !! used
  {
    assert forall f :: f in was <==> f in Frames(was);
    assert forall f :: f in free <==> f in Frames(free);
    RepFrame(m0, m, sp);
  }

  lemma CopyStarts(m0: Memory, m: Memory, lo: nat, was: seq<nat>, free: seq<nat>, sp: Space, n: Space, data: nat)
    requires InUse(m0, lo, was, sp) && DataOk(data) && Built(m0, m, was, free, n) && n.pages == KPages(data, 4)
    ensures InUse(m, lo, free, sp) && Copying(m0, m, lo, was, free, {}, sp, n) && CopyOf(m, sp, n, 0, data)
  {
    ParentStays(m0, m, lo, was, free, Owned(n), sp);
    hide KPages;
    assert Copying(m0, m, lo, was, free, {}, sp, n);
  }

  lemma NotYetCopied(m: Memory, sp: Space, n: Space, v: nat, data: nat)
    requires DataOk(data) && CopyOf(m, sp, n, v, data) && v < KERNPAGE
    ensures v !in n.pages
  {
    if v in KPages(data, 4) { KPagesBelow(data, 4, v); }
  }

  lemma CopyMoves(m0: Memory, m1: Memory, m2: Memory, lo: nat, was: seq<nat>, f1: seq<nat>, f2: seq<nat>, hand: set<nat>,
                  sp: Space, n1: Space, n2: Space)
    requires Copying(m0, m1, lo, was, f1, {}, sp, n1) && Moved(m1, m2, f1, f2, hand, n1, n2)
    ensures Copying(m0, m2, lo, was, f2, hand, sp, n2) && InUse(m2, lo, f2, sp) && n2.dir == n1.dir
  {
    assert forall f :: f in was <==> f in Frames(was);
    assert forall f :: f in f1 <==> f in Frames(f1);
    ParentStays(m0, m2, lo, was, f2, Owned(n2) + hand, sp);
  }

  lemma CopyNext(m0: Memory, m1: Memory, m2: Memory, lo: nat, was: seq<nat>, f1: seq<nat>, f2: seq<nat>,
                 sp: Space, n1: Space, n2: Space, v: nat, f: nat, data: nat)
    requires DataOk(data) && CopyOf(m1, sp, n1, v, data) && v !in n1.pages && v in sp.pages && v < KERNPAGE
    requires Copying(m0, m1, lo, was, f1, {}, sp, n1) && Copying(m0, m2, lo, was, f2, {}, sp, n2)
    requires Moved(m1, m2, f1, f2, {}, n1, n2) && n2.pages == n1.pages[v := Pte(f, sp.pages[v].flags)]
    requires f < |m2| && sp.pages[v].frame < |m1| && m2[f] == m1[sp.pages[v].frame]
    ensures CopyOf(m2, sp, n2, v + 1, data)
  {
    hide KPages, Moved, Copying, SamePage;
    forall u | 0 <= u < v + 1 && u in n2.pages ensures SamePage(m2, sp, n2.pages[u], u) {
      if u < v {
        OldPage(m0, m1, m2, lo, was, f1, f2, sp, n1, n2, u);
      } else {
        FreshPage(m0, m1, m2, lo, was, f1, f2, sp, n1, n2, v, f);
      }
    }
  }

  lemma OldPage(m0: Memory, m1: Memory, m2: Memory, lo: nat, was: seq<nat>, f1: seq<nat>, f2: seq<nat>,
                sp: Space, n1: Space, n2: Space, u: nat)
    requires Copying(m0, m1, lo, was, f1, {}, sp, n1) && Copying(m0, m2, lo, was, f2, {}, sp, n2) && User(u)
    requires Moved(m1, m2, f1, f2, {}, n1, n2) && u in n1.pages && u in n2.pages && SamePage(m1, sp, n1.pages[u], u)
    ensures SamePage(m2, sp, n2.pages[u], u)
  {
    KeptOf(m1, m2, f1, f2, n1, n2, u);
    ParentPage(m0, m1, m2, lo, was, f1, f2, sp, n1, n2, u);
    hide Moved, Copying;
  }

  lemma FreshPage(m0: Memory, m1: Memory, m2: Memory, lo: nat, was: seq<nat>, f1: seq<nat>, f2: seq<nat>,
                  sp: Space, n1: Space, n2: Space, v: nat, f: nat)
    requires Copying(m0, m1, lo, was, f1, {}, sp, n1) && Copying(m0, m2, lo, was, f2, {}, sp, n2) && User(v)
    requires v in sp.pages && v in n2.pages && n2.pages[v] == Pte(f, sp.pages[v].flags)
    requires f < |m2| && sp.pages[v].frame < |m1| && m2[f] == m1[sp.pages[v].frame]
    ensures SamePage(m2, sp, n2.pages[v], v)
  {
    ParentPage(m0, m1, m2, lo, was, f1, f2, sp, n1, n2, v);
    hide Copying;
  }

  lemma KeptOf(m: Memory, m': Memory, was: seq<nat>, free: seq<nat>, sp: Space, n: Space, u: nat)
    requires Moved(m, m', was, free, {}, sp, n) && u in sp.pages && u in n.pages && User(u)
    ensures KeptPage(m, m', sp, n, u)
  {
  }

  /** A page of the parent keeps its content while the child is made. */
  lemma ParentPage(m0: Memory, m1: Memory, m2: Memory, lo: nat, was: seq<nat>, f1: seq<nat>, f2: seq<nat>,
                   sp: Space, n1: Space, n2: Space, u: nat)
    requires Copying(m0, m1, lo, was, f1, {}, sp, n1) && Copying(m0, m2, lo, was, f2, {}, sp, n2) && User(u)
    ensures |m1| == |m2|
    ensures u in sp.pages ==> sp.pages[u].frame < |m1| && m2[sp.pages[u].frame] == m1[sp.pages[u].frame]
  {
    if u in sp.pages {
      assert sp.pages[u].frame in UserFrames(sp.pages);
      assert sp.pages[u].frame in Owned(sp);
    }
  }

  lemma CopyUndone(m0: Memory, m2: Memory, m3: Memory, lo: nat, was: seq<nat>, f2: seq<nat>, f3: seq<nat>, sp: Space, n: Space)
    requires Copying(m0, m2, lo, was, f2, {}, sp, n) && |m3| == |m2| && Frames(f3) == Frames(f2) + Owned(n)
    requires forall f :: 0 <= f < |m2| && f !in f2 && f !in Owned(n) ==> m3[f] == m2[f]
    ensures InUse(m3, lo, f3, sp) && Frames(f3) == Frames(was)
    ensures forall f :: 0 <= f < |m0| && f !in was ==> m3[f] == m0[f]
  {
    assert forall f :: f in was <==> f in Frames(was);
    assert forall f :: f in f2 <==> f in Frames(f2);
    ParentStays(m0, m3, lo, was, f3, {}, sp);
  }

  lemma CopyEnds(m0: Memory, m: Memory, lo: nat, was: seq<nat>, free: seq<nat>, sp: Space, n: Space)
    requires Copying(m0, m, lo, was, free, {}, sp, n)
    ensures Frames(free) + Owned(n) == Frames(was) && Owned(sp) !! Owned(n)
    ensures |m| == |m0| && forall f :: 0 <= f < |m0| && f !in was ==> m[f] == m0[f]
  {
    ParentStays(m0, m, lo, was, free, Owned(n), sp);
  }

  lemma RangeStart(sp: Space, m: Memory, free: seq<nat>, first: nat, frame: nat, flags: nat)
    requires flags < PGSIZE
    ensures Mapped(sp, sp, first, 0, frame, flags) && Grew(m, m, free, free, sp, sp)
  {
  }

  class Machine {
    const mem: array<Page>
    const lo: nat              // first frame after the kernel's own memory
    var freelist: nat          // kmem.freelist; 0 is null
    ghost var free: seq<nat>   // the frames on it, first to last

    ghost predicate Valid()
      reads this, mem
    {
      FreeList(mem[..], lo, freelist, free)
    }

    constructor (m: array<Page>, end: nat)
      requires 0 < end <= m.Length
      ensures Valid() && mem == m && lo == end && free == []
    {
      mem, lo, freelist, free := m, end, 0, [];
    }

    /** kfree of a frame nobody else has. */
    method Kfree(f: nat)
      requires Valid() && lo <= f < mem.Length && f !in free
      modifies this`freelist, this`free, mem
      ensures Valid() && free == [f] + old(free)
      ensures forall g :: 0 <= g < mem.Length && g != f ==> mem[g] == old(mem[g])
    {
      ghost var m := mem[..];
      mem[f] := JunkPage();
      mem[f] := mem[f][0 := freelist];
      ListPush(m, mem[..], lo, freelist, free, f);
      freelist := f;
      free := [f] + free;
    }

    /** kalloc: the head of the list, or 0 when there is none. */
    method Kalloc() returns (f: nat)
      requires Valid()
      modifies this`freelist, this`free
      ensures Valid()
      ensures old(free) == [] ==> f == 0 && free == []
      ensures old(free) != [] ==> f == old(free)[0] && free == old(free)[1..] && lo <= f < mem.Length && f !in free
    {
      f := freelist;
      assert free != [] ==> free[0] in free;
      if f != 0 {
        ListPop(mem[..], lo, freelist, free);
        freelist := mem[f][0];
        free := free[1..];
      }
    }

    /** freerange: every frame of the range is free, once. */
    method Freerange(from: nat, to: nat)
      requires Valid() && lo <= from <= to <= mem.Length && forall f :: from <= f < to ==> f !in free
      modifies this`freelist, this`free, mem
      ensures Valid()
      ensures forall f :: f in free <==> f in old(free) || from <= f < to
      ensures |free| == |old(free)| + (to - from)
    {
      var p := from;
      while p < to
        invariant from <= p <= to && Valid()
        invariant forall f :: f in free <==> f in old(free) || from <= f < p
        invariant |free| == |old(free)| + (p - from)
      {
        Kfree(p);
        p := p + 1;
      }
    }

    /** Memory holds the address space, whose frames are the allocator's but not free. */
    ghost predicate Holds(sp: Space)
      reads this, mem
    {
      InUse(mem[..], lo, free, sp)
    }

    /** walkpgdir without alloc: the table for page `v`, or 0. */
    method Walk(ghost sp: Space, dir: nat, v: nat) returns (t: nat)
      requires Valid() && Holds(sp) && dir == sp.dir && v < NPAGES
      ensures t != 0 <==> Pdx(v) in sp.tables
      ensures t != 0 ==> sp.tables[Pdx(v)] == t < mem.Length
    {
      Lookup(mem[..], sp, v);
      var pde := mem[dir][Pdx(v)];
      return if Present(pde) then FrameOf(pde) else 0;
    }

    /** walkpgdir with alloc: the table for page `v`, made if need be; 0 only when no frame is free. */
    method WalkAlloc(ghost sp: Space, dir: nat, v: nat) returns (t: nat, ghost n: Space)
      requires Valid() && Holds(sp) && dir == sp.dir && v < NPAGES
      modifies this`freelist, this`free, mem
      ensures Valid() && Holds(n) && n.pages == sp.pages
      ensures t != 0 <==> Pdx(v) in n.tables
      ensures t != 0 ==> n.tables[Pdx(v)] == t < mem.Length
      ensures t == 0 ==> n == sp && old(free) == []
      ensures Grew(old(mem[..]), mem[..], old(free), free, sp, n)
    {
      n := sp;
      t := Walk(sp, dir, v);
      if t != 0 {
        return;
      }
      ghost var m, was := mem[..], free;
      t := Kalloc();
      if t == 0 {
        return 0, n;
      }
      assert t in was && t != dir;
      mem[t] := ZeroPage();
      mem[dir] := mem[dir][Pdx(v) := Word(Pte(t, TABLE_FLAGS))];
      n := sp.(tables := sp.tables[Pdx(v) := t]);
      NewTable(m, lo, was, freelist, sp, Pdx(v), t, mem[..]);
    }

    /** One turn of mappages: its table, if one can be had, and the entry. */
    method MapPage(ghost sp: Space, dir: nat, v: nat, frame: nat, flags: nat) returns (ok: bool, ghost n: Space)
      requires Valid() && Holds(sp) && dir == sp.dir && v < NPAGES && flags < PGSIZE && flags % 2 == 1
      requires v !in sp.pages && (User(v) ==> Spare(lo, mem.Length, free, sp, frame))
      modifies this`freelist, this`free, mem
      ensures Valid() && Holds(n) && n.dir == sp.dir
      ensures n.pages == if ok then sp.pages[v := Pte(frame, flags)] else sp.pages
      ensures Grew(old(mem[..]), mem[..], old(free), free, sp, n)
      ensures !ok ==> old(free) == []
    {
      var t;
      t, n := WalkAlloc(sp, dir, v);
      if t == 0 {
        return false, n;
      }
      Lookup(mem[..], n, v);
      assert t in n.tables.Values;
      ghost var m := mem[..];
      mem[t] := mem[t][Ptx(v) := Word(Pte(frame, flags))];
      ghost var next := n.(pages := n.pages[v := Pte(frame, flags)]);
      SpareStays(lo, old(free), free, sp, n, frame, mem.Length);
      hide Rep, Separate, FreeList;
      MapOne(m, lo, free, freelist, n, v, Pte(frame, flags), mem[..], next);
      return true, next;
    }

    /** mappages' loop, in pages. */
    method MapRange(ghost sp: Space, dir: nat, first: nat, last: nat, frame: nat, flags: nat)
      returns (ok: bool, ghost n: Space)
      requires Valid() && Holds(sp) && dir == sp.dir && first <= last < NPAGES && flags < PGSIZE && flags % 2 == 1
      requires Mappable(lo, mem.Length, free, sp, first, last, frame)
      modifies this`freelist, this`free, mem
      ensures Valid() && Holds(n) && n.dir == sp.dir
      ensures ok ==> Mapped(sp, n, first, last - first + 1, frame, flags)
      ensures !ok ==> Partly(sp, n, first, last, frame, flags)
      ensures Grew(old(mem[..]), mem[..], old(free), free, sp, n)
    {
      hide *;
      var a, pa := first, frame;
      n := sp;
      RangeStart(sp, mem[..], free, first, frame, flags);
      while true
        invariant first <= a <= last && pa == frame + (a - first)
        invariant Valid() && Holds(n) && n.dir == sp.dir
        invariant Mapped(sp, n, first, a - first, frame, flags)
        invariant Grew(old(mem[..]), mem[..], old(free), free, sp, n)
        decreases last - a
      {
        NotTaken(old(mem[..]), mem[..], lo, old(free), free, sp, n, first, a - first, last, frame, flags, mem.Length,
                 a, pa);
        ghost var m1, f1, n1 := mem[..], free, n;
        ok, n := MapPage(n, dir, a, pa, flags);
        GrewTrans(old(mem[..]), m1, mem[..], old(free), f1, free, sp, n1, n);
        if !ok {
          StopsAt(sp, n1, n, first, a - first, last, frame, flags);
          return;
        }
        MappedNext(sp, n1, first, a - first, frame, flags, a, pa, n);
        if a == last {
          return true, n;
        }
        a, pa := a + 1, pa + 1;
      }
    }

    /** mappages: the pages of `va .. va + size` to consecutive frames; on failure some prefix of them. */
    method MapPages(ghost sp: Space, dir: nat, va: nat, size: nat, frame: nat, perm: nat, ghost first: nat, ghost last: nat)
      returns (ok: bool, ghost n: Space)
      requires Valid() && Holds(sp) && dir == sp.dir && size > 0 && va + size <= NPAGES * PGSIZE && perm < PGSIZE
      requires first == va / PGSIZE && last == (va + size - 1) / PGSIZE
      requires Mappable(lo, mem.Length, free, sp, first, last, frame)
      modifies this`freelist, this`free, mem
      ensures Valid() && Holds(n) && n.dir == sp.dir
      ensures ok ==> Mapped(sp, n, first, last - first + 1, frame, WithP(perm))
      ensures !ok ==> Partly(sp, n, first, last, frame, WithP(perm))
      ensures Grew(old(mem[..]), mem[..], old(free), free, sp, n)
    {
      hide Valid, Holds, Mapped, Mappable, Grew, Partly;
      ok, n := MapRange(sp, dir, va / PGSIZE, (va + size - 1) / PGSIZE, frame, WithP(perm));
    }

    /** deallocuvm's work on one page whose table is there. */
    method FreePage(ghost sp: Space, t: nat, v: nat) returns (ghost n: Space)
      requires Valid() && Holds(sp) && v < KERNPAGE && Pdx(v) in sp.tables && t == sp.tables[Pdx(v)]
      modifies this`freelist, this`free, mem
      ensures Valid() && Holds(n) && n == sp.(pages := sp.pages - {v})
      ensures Shrank(old(mem[..]), mem[..], old(free), free, sp, n)
    {
      Lookup(mem[..], sp, v);
      n := sp.(pages := sp.pages - {v});
      if Present(mem[t][Ptx(v)]) {
        var f := FrameOf(mem[t][Ptx(v)]);
        ghost var m, was := mem[..], free;
        assert f in UserFrames(sp.pages);
        UnmapSeparate(sp, v);
        hide Separate, Rep;
        Kfree(f);
        ghost var m1 := mem[..];
        mem[t] := mem[t][Ptx(v) := 0];
        UnmapOne(m, lo, was, freelist, sp, v, f, m1, mem[..], n);
      } else {
        assert n == sp;
      }
    }

    lemma PagesHaveTables(sp: Space)
      requires Holds(sp)
      ensures forall v :: v in sp.pages ==> Pdx(v) in sp.tables
    {
      forall v | v in sp.pages ensures Pdx(v) in sp.tables { Lookup(mem[..], sp, v); }
    }

    /** deallocuvm's loop, in pages: absent tables are skipped whole. */
    method FreeRange(ghost sp: Space, dir: nat, from: nat, to: nat) returns (ghost n: Space)
      requires Valid() && Holds(sp) && dir == sp.dir && from <= to <= KERNPAGE
      modifies this`freelist, this`free, mem
      ensures Valid() && Holds(n) && Unmapped(sp, n, from, to)
      ensures Shrank(old(mem[..]), mem[..], old(free), free, sp, n)
    {
      n := sp;
      var a := from;
      assert Unmapped(sp, n, from, a);
      ShrankSame(mem[..], free, sp);
      hide *;
      while a < to
        invariant from <= a && (a <= to || Unmapped(sp, n, from, to))
        invariant Valid() && Holds(n) && n.dir == dir
        invariant Unmapped(sp, n, from, a)
        invariant Shrank(old(mem[..]), mem[..], old(free), free, sp, n)
      {
        ghost var m1, f1, n1 := mem[..], free, n;
        var t := Walk(n, dir, a);
        if t == 0 {
          var next := NextTable(a);
          PagesHaveTables(n);
          SkipTable(sp, n, from, a, next, to);
          a := next;
        } else {
          n := FreePage(n, t, a);
          ShrankTrans(old(mem[..]), m1, mem[..], old(free), f1, free, sp, n1, n);
          UnmappedNext(sp, n1, from, a, n);
          a := a + 1;
        }
      }
    }

    /** A frame with the given content mapped at `v`, as allocuvm and copyuvm do page by page. When only
        the page table is missing, `got.f` is the frame still in hand. */
    method AddPage(ghost sp: Space, dir: nat, v: nat, content: Page, flags: nat) returns (got: Got, ghost n: Space)
      requires Valid() && Holds(sp) && dir == sp.dir && v < KERNPAGE && v !in sp.pages && flags < PGSIZE && flags % 2 == 1
      modifies this`freelist, this`free, mem
      ensures Valid() && Holds(n) && n.dir == sp.dir
      ensures got.Frame? ==>
        && n.pages == sp.pages[v := Pte(got.f, flags)] && got.f in old(free) && got.f < mem.Length
        && mem[got.f] == content
      ensures got.NoFrame? ==> n == sp && old(free) == []
      ensures got.NoTable? ==>
        n.pages == sp.pages && lo <= got.f < mem.Length && got.f !in free && got.f !in Owned(n)
      ensures Moved(old(mem[..]), mem[..], old(free), free, InHand(got), sp, n)
    {
      n := sp;
      ghost var m, was := mem[..], free;
      var f := Kalloc();
      if f == 0 {
        return NoFrame, n;
      }
      assert f in was;
      FrameTaken(lo, was, free, freelist, f, sp, m);
      hide Rep, Separate, FreeList, Moved, Grew;
      mem[f] := content;
      ghost var m1, f1 := mem[..], free;
      StillInUse(m, m1, lo, was, f1, freelist, sp, f);
      var ok;
      ok, n := MapPage(sp, dir, v, f, flags);
      PageMoved(m, m1, mem[..], was, f1, free, sp, n, f, v, flags, ok);
      return if ok then Frame(f) else NoTable(f), n;
    }

    /** deallocuvm: unmaps exactly the pages from PGROUNDUP(newsz) to oldsz. */
    method DeallocUvm(ghost sp: Space, dir: nat, oldsz: nat, newsz: nat) returns (r: nat, ghost n: Space)
      requires Valid() && Holds(sp) && dir == sp.dir && oldsz <= KERNBASE
      modifies this`freelist, this`free, mem
      ensures Valid() && Holds(n) && Moved(old(mem[..]), mem[..], old(free), free, {}, sp, n)
      ensures newsz >= oldsz ==> r == oldsz && n == sp
      ensures newsz < oldsz ==> r == newsz && Unmapped(sp, n, Up(newsz), Up(oldsz))
    {
      n := sp;
      if newsz >= oldsz {
        ShrankSame(mem[..], free, sp);
        ShrankMoved(mem[..], mem[..], free, free, sp, sp, lo);
        return oldsz, n;
      }
      UpIsMonotone(newsz, oldsz);
      ghost var m := mem[..];
      ghost var was := free;
      assert InUse(m, lo, was, sp);
      hide Rep, Separate, FreeList, Unmapped, Shrank, Moved, InUse, Up;
      n := FreeRange(sp, dir, Up(newsz), Up(oldsz));
      UnmappedKeeps(sp, n, Up(newsz), Up(oldsz));
      ShrankMoved(m, mem[..], was, free, sp, n, lo);
      return newsz, n;
    }

    /** allocuvm's failure: unmap what was mapped, then free the frame in hand. */
    method UndoAlloc(ghost m0: Memory, ghost m1: Memory, ghost f0: seq<nat>, ghost f1: seq<nat>, ghost sp: Space,
                     ghost n1: Space, ghost n2: Space, dir: nat, oldsz: nat, newsz: nat, ghost b: nat, got: Got)
      returns (ghost n: Space)
      requires Valid() && Holds(n2) && dir == n2.dir && !got.Frame? && n2.pages == n1.pages
      requires oldsz < newsz <= KERNBASE && Up(oldsz) <= b <= Up(newsz) && Grown(m1, sp, n1, Up(oldsz), b)
      requires forall v :: Up(oldsz) <= v < Up(newsz) ==> v !in sp.pages
      requires Moved(m0, m1, f0, f1, {}, sp, n1)
      requires Moved(m1, mem[..], f1, free, InHand(got), n1, n2)
      requires got.NoTable? ==> lo <= got.f < mem.Length && got.f !in free && got.f !in Owned(n2)
      modifies this`freelist, this`free, mem
      ensures Valid() && Holds(n) && n.pages == sp.pages && Moved(m0, mem[..], f0, free, {}, sp, n)
    {
      ghost var hand, none: set<nat> := InHand(got), {};
      ghost var m2, f2 := mem[..], free;
      GrownDomain(m1, sp, n1, Up(oldsz), b);
      MovedTrans(m0, m1, m2, f0, f1, f2, {}, hand, sp, n1, n2);
      hide *;
      var back;
      back, n := DeallocUvm(n2, dir, newsz, oldsz);
      BackToStart(m1, sp, n1, n2, n, Up(oldsz), b, Up(newsz));
      MovedTrans(m0, m2, mem[..], f0, f2, free, none + hand, none, sp, n2, n);
      assert none + hand + none == hand;
      if got.NoTable? {
        NotInHand(m2, mem[..], f2, free, n2, n, got.f);
      }
      ReturnHand(m0, f0, sp, n, got);
    }

    /** kfree of the frame in hand, if there is one. */
    method ReturnHand(ghost m0: Memory, ghost f0: seq<nat>, ghost sp: Space, ghost n: Space, got: Got)
      requires Valid() && Holds(n) && !got.Frame? && Moved(m0, mem[..], f0, free, InHand(got), sp, n)
      requires got.NoTable? ==> lo <= got.f < mem.Length && got.f !in free && got.f !in Owned(n)
      modifies this`freelist, this`free, mem
      ensures Valid() && Holds(n) && Moved(m0, mem[..], f0, free, {}, sp, n)
    {
      if got.NoTable? {
        ghost var m3, f3 := mem[..], free;
        Kfree(got.f);
        HandReturned(m0, m3, mem[..], f0, f3, got.f, sp, n, lo);
      }
    }

    /** allocuvm: on success zeroed user pages from PGROUNDUP(oldsz) up to newsz; on failure the mapping
        is what it was. */
    method AllocUvm(ghost sp: Space, dir: nat, oldsz: nat, newsz: nat) returns (r: nat, ghost n: Space)
      requires Valid() && Holds(sp) && dir == sp.dir
      requires forall v :: Up(oldsz) <= v < Up(newsz) ==> v !in sp.pages
      modifies this`freelist, this`free, mem
      ensures Valid() && Holds(n) && Moved(old(mem[..]), mem[..], old(free), free, {}, sp, n)
      ensures newsz >= KERNBASE ==> r == 0 && n == sp
      ensures newsz < KERNBASE && newsz < oldsz ==> r == oldsz && n == sp
      ensures oldsz <= newsz < KERNBASE ==> r == newsz || r == 0
      ensures oldsz <= newsz < KERNBASE && r == 0 ==> n.pages == sp.pages
      ensures oldsz <= newsz < KERNBASE && r == newsz ==> Grown(mem[..], sp, n, Up(oldsz), Up(newsz))
    {
      hide Valid, Holds, Grown, Moved, Up, InHand;
      n := sp;
      NothingMoved(mem[..], free, sp);
      if newsz >= KERNBASE {
        return 0, n;
      }
      if newsz < oldsz {
        return oldsz, n;
      }
      UpIsMonotone(oldsz, newsz);
      UpIsMonotone(newsz, KERNBASE);
      var a, end := Up(oldsz), Up(newsz);
      GrownNothing(mem[..], sp, a);
      while a < end
        invariant Up(oldsz) <= a <= end
        invariant Valid() && Holds(n) && n.dir == dir
        invariant Grown(mem[..], sp, n, Up(oldsz), a)
        invariant Moved(old(mem[..]), mem[..], old(free), free, {}, sp, n)
      {
        ghost var m1, f1, n1 := mem[..], free, n;
        GrownDomain(m1, sp, n1, Up(oldsz), a);
        var got;
        got, n := AddPage(n, dir, a, ZeroPage(), USER_FLAGS);
        if got.Frame? {
          GrownNext(old(mem[..]), m1, mem[..], old(free), f1, free, sp, n1, n, Up(oldsz), a, got.f, lo);
          a := a + 1;
        } else {
          n := UndoAlloc(old(mem[..]), m1, old(free), f1, sp, n1, n, dir, oldsz, newsz, a, got);
          return 0, n;
        }
      }
      if newsz == 0 {
        GrownEmpty(mem[..], sp, n, a);
      }
      return newsz, n;
    }

    /** freevm's loop over the directory, once no user page is left. */
    method FreeTables(ghost n: Space, dir: nat)
      requires Valid() && Holds(n) && dir == n.dir
      modifies this`freelist, this`free, mem
      ensures Valid() && Frames(free) == Frames(old(free)) + n.tables.Values
      ensures forall f :: 0 <= f < mem.Length && f !in n.tables.Values ==> mem[f] == old(mem[f])
    {
      ghost var m1, f1 := mem[..], free;
      var i := 0;
      assert TablesBelow(n.tables, 0) == {};
      hide FreeList, TablesBelow, Separate, Owned;
      while i < NPDENTRIES
        invariant i <= NPDENTRIES && Valid()
        invariant Frames(free) == Frames(f1) + TablesBelow(n.tables, i)
        invariant forall f :: 0 <= f < mem.Length && f !in n.tables.Values ==> mem[f] == m1[f]
      {
        DirEntry(m1, lo, f1, n, i);
        if Present(mem[dir][i]) {
          var f := FrameOf(mem[dir][i]);
          TableInHand(m1, lo, f1, free, n, i);
          Kfree(f);
        } else {
          TablesSkip(n.tables, i);
        }
        i := i + 1;
      }
      AllTables(n);
    }

    /** freevm: everything the address space owned is free again, each frame once. */
    method FreeVm(ghost sp: Space, dir: nat)
      requires Valid() && Holds(sp) && dir == sp.dir
      modifies this`freelist, this`free, mem
      ensures Valid() && Frames(free) == Frames(old(free)) + Owned(sp)
      ensures forall f :: 0 <= f < mem.Length && f !in old(free) && f !in Owned(sp) ==> mem[f] == old(mem[f])
    {
      ghost var m, was := mem[..], free;
      var sz;
      ghost var n;
      sz, n := DeallocUvm(sp, dir, KERNBASE, 0);
      ghost var m1, f1 := mem[..], free;
      assert InUse(m1, lo, f1, n);
      FreedEverything(m, m1, was, f1, sp, n);
      hide FreeList, InUse, Unmapped;
      FreeTables(n, dir);
      DirInHand(m1, lo, f1, free, n);
      Kfree(dir);
    }

    /** setupkvm's mappages call for one row of kmap. */
    method MapRow(ghost m: Memory, ghost was: seq<nat>, ghost n: Space, d: nat, data: nat, i: nat)
      returns (ok: bool, ghost next: Space)
      requires Valid() && Holds(n) && n.dir == d && DataOk(data) && i < 4
      requires n.pages == KPages(data, i) && Built(m, mem[..], was, free, n)
      modifies this`freelist, this`free, mem
      ensures Valid() && Holds(next) && next.dir == d && Built(m, mem[..], was, free, next)
      ensures ok ==> next.pages == KPages(data, i + 1)
    {
      hide *;
      var r := KMap(data)[i];
      RowFree(lo, mem.Length, free, data, i, n);
      ghost var m1, f1 := mem[..], free;
      ghost var first, last := r.First(), r.Last();
      ok, next := MapPages(n, d, r.virt, r.Size(), r.start / PGSIZE, r.perm, first, last);
      RowBuilt(m, m1, mem[..], was, f1, free, n, next, data, i, ok);
      GrewDir(m1, mem[..], f1, free, n, next);
    }

    /** setupkvm: a directory with the kernel's mappings and nothing else, or no frame used at all. */
    method SetupKvm(data: nat) returns (d: nat, ghost n: Space)
      requires Valid() && DataOk(data)
      modifies this`freelist, this`free, mem
      ensures Valid()
      ensures d == 0 ==> Frames(free) == Frames(old(free))
      ensures d != 0 ==> Holds(n) && n.dir == d && n.pages == KPages(data, 4) && Built(old(mem[..]), mem[..], old(free), free, n)
      ensures forall f :: 0 <= f < mem.Length && f !in old(free) ==> mem[f] == old(mem[f])
    {
      ghost var m, was := mem[..], free;
      d := Kalloc();
      n := Space(d, map[], map[]);
      if d == 0 {
        return;
      }
      mem[d] := ZeroPage();
      NewDirectory(m, lo, was, freelist, d, mem[..], n);
      var i := 0;
      assert n.pages == KPages(data, 0);
      hide *;
      while i < 4
        invariant i <= 4 && Valid() && Holds(n) && n.dir == d
        invariant n.pages == KPages(data, i) && Built(m, mem[..], was, free, n)
      {
        var ok;
        ok, n := MapRow(m, was, n, d, data, i);
        if !ok {
          BuiltMeans(m, mem[..], was, free, n);
          FreeVm(n, d);
          return 0, n;
        }
        i := i + 1;
      }
      BuiltMeans(m, mem[..], was, free, n);
    }

    /** copyuvm: the child's directory with the parent's pages copied to frames of its own and the
        kernel's mappings; or nothing, every frame given back. The parent's memory is untouched. */
    method CopyUvm(ghost sp: Space, dir: nat, sz: nat, data: nat) returns (out: Copied, ghost n: Space)
      requires Valid() && Holds(sp) && dir == sp.dir && sz <= KERNBASE && DataOk(data)
      modifies this`freelist, this`free, mem
      ensures Valid()
      ensures out.Missing? ==> exists v :: 0 <= v < Up(sz) && v !in sp.pages
      ensures out.NoMemory? ==> Holds(sp) && Frames(free) == Frames(old(free))
      ensures out.Copy? ==>
        && Holds(sp) && Holds(n) && n.dir == out.d && Owned(sp) !! Owned(n)
        && Frames(free) + Owned(n) == Frames(old(free)) && CopyOf(mem[..], sp, n, Up(sz), data)
      ensures !out.Missing? ==> forall f :: 0 <= f < mem.Length && f !in old(free) ==> mem[f] == old(mem[f])
    {
      hide Rep, Separate, FreeList, InUse, Copying, CopyOf, Moved, Built, Owned, Frames, KPages, Up, InHand, DataOk;
      ghost var m0, was := mem[..], free;
      var d;
      d, n := SetupKvm(data);
      if d == 0 {
        ParentStays(m0, mem[..], lo, was, free, {}, sp);
        return NoMemory, n;
      }
      CopyStarts(m0, mem[..], lo, was, free, sp, n, data);
      UpIsMonotone(sz, KERNBASE);
      var i, end := 0, Up(sz);
      while i < end
        invariant i <= end && Valid() && Holds(sp) && Holds(n) && n.dir == d
        invariant Copying(m0, mem[..], lo, was, free, {}, sp, n) && CopyOf(mem[..], sp, n, i, data)
      {
        PageFound(sp, i);
        var t := Walk(sp, dir, i);
        if t == 0 || !Present(mem[t][Ptx(i)]) {
          return Missing, n;
        }
        var w := mem[t][Ptx(i)];
        NotYetCopied(mem[..], sp, n, i, data);
        ghost var m1, f1, n1 := mem[..], free, n;
        var got;
        got, n := AddPage(n, d, i, mem[FrameOf(w)], FlagsOf(w));
        CopyMoves(m0, m1, mem[..], lo, was, f1, free, InHand(got), sp, n1, n);
        if !got.Frame? {
          ReturnHand(m1, f1, n1, n, got);
          CopyMoves(m0, m1, mem[..], lo, was, f1, free, {}, sp, n1, n);
          ghost var m2, f2 := mem[..], free;
          FreeVm(n, d);
          CopyUndone(m0, m2, mem[..], lo, was, f2, free, sp, n);
          return NoMemory, n;
        }
        CopyNext(m0, m1, mem[..], lo, was, f1, free, sp, n1, n, i, got.f, data);
        i := i + 1;
      }
      CopyEnds(m0, mem[..], lo, was, free, sp, n);
      return Copy(d), n;
    }

    lemma PageFound(sp: Space, v: nat)
      requires Holds(sp) && v < NPAGES
      ensures Pdx(v) in sp.tables ==> 0 < sp.tables[Pdx(v)] < mem.Length
      ensures Pdx(v) in sp.tables ==> (Present(mem[sp.tables[Pdx(v)]][Ptx(v)]) <==> v in sp.pages)
      ensures v in sp.pages ==> Pdx(v) in sp.tables
      ensures v in sp.pages ==>
        var w := mem[sp.tables[Pdx(v)]][Ptx(v)];
        && FrameOf(w) == sp.pages[v].frame && FlagsOf(w) == sp.pages[v].flags
        && FlagsOf(w) < PGSIZE && FlagsOf(w) % 2 == 1 && (User(v) ==> FrameOf(w) < mem.Length)
    {
      Lookup(mem[..], sp, v);
      assert PageSlot(mem[..], sp, v);
      if v in sp.pages && User(v) {
        assert sp.pages[v].frame in UserFrames(sp.pages);
        assert sp.pages[v].frame in Owned(sp);
      }
    }
  }
}
