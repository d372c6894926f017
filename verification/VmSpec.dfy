/** Two-level page tables and the address space they stand for. */
module VmSpec {
  // Section 4.3 of the Intel 64 and IA-32 SDM, volume 3A. Frames and virtual pages are numbered in
  // pages.

  const NPDENTRIES: nat := 1024
  const NPTENTRIES: nat := 1024
  const NPAGES: nat := 0x10_0000      // virtual pages in 4 GB
  const KERNPAGE: nat := 0x8_0000     // KERNBASE / PGSIZE
  const PGSIZE: nat := 4096
  const KERNBASE: nat := 0x8000_0000
  const PTE_W: nat := 2
  const TABLE_FLAGS: nat := 7         // PTE_P | PTE_W | PTE_U
  const USER_FLAGS: nat := 7          // PTE_P | PTE_W | PTE_U

  /** A frame's contents as 32-bit words. */
  type Page = p: seq<nat> | |p| == NPTENTRIES witness seq(NPTENTRIES, _ => 0)
  type Memory = seq<Page>

  function ZeroPage(): Page { seq(NPTENTRIES, _ => 0) }

  // ----- entries -----

  datatype Pte = Pte(frame: nat, flags: nat)

  function Word(e: Pte): nat { e.frame * PGSIZE + e.flags }

  predicate Present(w: nat) { w % 2 == 1 }

  function FrameOf(w: nat): nat { w / PGSIZE }

  function FlagsOf(w: nat): nat { w % PGSIZE }

  lemma WordReads(e: Pte)
    requires e.flags < PGSIZE
    ensures FrameOf(Word(e)) == e.frame && FlagsOf(Word(e)) == e.flags && (Present(Word(e)) <==> e.flags % 2 == 1)
  {
  }

  function Pdx(v: nat): nat { v / NPTENTRIES }

  function Ptx(v: nat): nat { v % NPTENTRIES }

  // ----- address spaces -----

  /** The directory's frame, the page tables by directory index, the mapped pages. */
  datatype Space = Space(dir: nat, tables: map<nat, nat>, pages: map<nat, Pte>)

  predicate User(v: nat) { v < KERNPAGE }

  /** Directory slot `x` in memory. */
  ghost predicate DirSlot(m: Memory, sp: Space, x: nat)
    requires sp.dir < |m| && x < NPDENTRIES
  {
    if x in sp.tables then 0 < sp.tables[x] < |m| && m[sp.dir][x] == Word(Pte(sp.tables[x], TABLE_FLAGS))
    else !Present(m[sp.dir][x])
  }

  /** The table entry of page `v` in memory. */
  ghost predicate PageSlot(m: Memory, sp: Space, v: nat) {
    if Pdx(v) in sp.tables && sp.tables[Pdx(v)] < |m| then
      var w := m[sp.tables[Pdx(v)]][Ptx(v)];
      if v in sp.pages then w == Word(sp.pages[v]) && sp.pages[v].flags < PGSIZE && sp.pages[v].flags % 2 == 1
      else !Present(w)
    else v !in sp.pages
  }

  /** Memory holds exactly this address space under `sp.dir`. */
  ghost predicate Rep(m: Memory, sp: Space)
    ensures Rep(m, sp) ==> sp.dir < |m|
  {
    && sp.dir < |m|
    && (forall x :: x in sp.tables ==> x < NPDENTRIES)
    && (forall v :: v in sp.pages ==> v < NPAGES)
    && (forall x :: 0 <= x < NPDENTRIES ==> DirSlot(m, sp, x))
    && (forall v :: 0 <= v < NPAGES ==> PageSlot(m, sp, v))
  }

  ghost function UserFrames(pages: map<nat, Pte>): set<nat> { set v | v in pages && User(v) :: pages[v].frame }

  /** Frames that hold the directory and the tables. */
  ghost function Structure(sp: Space): set<nat> { {sp.dir} + sp.tables.Values }

  /** Every frame the address space owns; kernel mappings are shared and not owned. */
  ghost function Owned(sp: Space): set<nat> { Structure(sp) + UserFrames(sp.pages) }

  /** No frame is used twice. */
  ghost predicate Separate(sp: Space) {
    && sp.dir !in sp.tables.Values
    && (forall x, y :: x in sp.tables && y in sp.tables && sp.tables[x] == sp.tables[y] ==> x == y)
    && (forall v, w :: v in sp.pages && w in sp.pages && User(v) && User(w) && sp.pages[v].frame == sp.pages[w].frame ==>
          v == w)
    && UserFrames(sp.pages) !! Structure(sp)
  }

  // ----- single writes -----

  /** Memory outside the directory and tables does not matter. */
  lemma RepFrame(m: Memory, m': Memory, sp: Space)
    requires Rep(m, sp) && |m'| == |m| && forall f :: f in Structure(sp) && f < |m| ==> m'[f] == m[f]
    ensures Rep(m', sp)
  {
    forall x | 0 <= x < NPDENTRIES ensures DirSlot(m', sp, x) { assert DirSlot(m, sp, x); }
    forall v | 0 <= v < NPAGES ensures PageSlot(m', sp, v) {
      assert PageSlot(m, sp, v);
      if Pdx(v) in sp.tables { assert sp.tables[Pdx(v)] in sp.tables.Values; }
    }
  }

  /** A zeroed frame becomes the table for slot `x`. */
  lemma AddTable(m: Memory, sp: Space, x: nat, t: nat, m': Memory)
    requires Rep(m, sp) && Separate(sp) && x < NPDENTRIES && x !in sp.tables && 0 < t < |m| && t !in Owned(sp)
    requires m' == m[t := ZeroPage()][sp.dir := m[sp.dir][x := Word(Pte(t, TABLE_FLAGS))]]
    ensures Rep(m', sp.(tables := sp.tables[x := t]))
  {
    var n := sp.(tables := sp.tables[x := t]);
    forall y | 0 <= y < NPDENTRIES ensures DirSlot(m', n, y) { assert DirSlot(m, sp, y); }
    forall v | 0 <= v < NPAGES ensures PageSlot(m', n, v) {
      assert PageSlot(m, sp, v);
      if Pdx(v) in sp.tables { assert sp.tables[Pdx(v)] in sp.tables.Values; }
    }
  }

  lemma AddTableSeparate(sp: Space, x: nat, t: nat)
    requires Separate(sp) && x !in sp.tables && t !in Owned(sp)
    ensures Separate(sp.(tables := sp.tables[x := t]))
    ensures Structure(sp.(tables := sp.tables[x := t])) == Structure(sp) + {t}
  {
    var n := sp.(tables := sp.tables[x := t]);
    forall y | y in sp.tables ensures sp.tables[y] in Structure(sp) { assert sp.tables[y] in sp.tables.Values; }
    forall f ensures f in n.tables.Values <==> f in sp.tables.Values || f == t {
      if f == t { assert n.tables[x] == t; }
      if f in sp.tables.Values {
        var y :| y in sp.tables && sp.tables[y] == f;
        assert n.tables[y] == f;
      }
    }
  }

  /** Two pages with the same table and slot are the same page. */
  lemma SlotIsPage(v: nat, w: nat)
    requires Pdx(v) == Pdx(w) && Ptx(v) == Ptx(w)
    ensures v == w
  {
  }

  /** One table entry written: page `v` mapped, or unmapped by a word without the present bit. */
  lemma WritePte(m: Memory, sp: Space, v: nat, w: nat, n: Space, m': Memory)
    requires Rep(m, sp) && Separate(sp) && v < NPAGES && Pdx(v) in sp.tables && sp.tables[Pdx(v)] < |m|
    requires m' == m[sp.tables[Pdx(v)] := m[sp.tables[Pdx(v)]][Ptx(v) := w]]
    requires n.dir == sp.dir && n.tables == sp.tables
    requires if v in n.pages then w == Word(n.pages[v]) && n.pages[v].flags < PGSIZE && n.pages[v].flags % 2 == 1
             else !Present(w)
    requires forall u :: u != v ==> (u in n.pages <==> u in sp.pages) && (u in sp.pages ==> n.pages[u] == sp.pages[u])
    ensures Rep(m', n)
  {
    var t := sp.tables[Pdx(v)];
    assert t in sp.tables.Values;
    forall x | 0 <= x < NPDENTRIES ensures DirSlot(m', n, x) { assert DirSlot(m, sp, x); }
    forall u | 0 <= u < NPAGES ensures PageSlot(m', n, u) {
      assert PageSlot(m, sp, u);
      if Ptx(u) == Ptx(v) && Pdx(u) == Pdx(v) { SlotIsPage(u, v); }
    }
  }

  /** What a lookup through the directory finds. */
  lemma Lookup(m: Memory, sp: Space, v: nat)
    requires Rep(m, sp) && v < NPAGES
    ensures Pdx(v) < NPDENTRIES
    ensures Present(m[sp.dir][Pdx(v)]) <==> Pdx(v) in sp.tables
    ensures Pdx(v) in sp.tables ==> 0 < sp.tables[Pdx(v)] < |m| && FrameOf(m[sp.dir][Pdx(v)]) == sp.tables[Pdx(v)]
    ensures v in sp.pages ==> Pdx(v) in sp.tables
    ensures Pdx(v) in sp.tables ==> (Present(m[sp.tables[Pdx(v)]][Ptx(v)]) <==> v in sp.pages)
    ensures v in sp.pages ==> FrameOf(m[sp.tables[Pdx(v)]][Ptx(v)]) == sp.pages[v].frame
    ensures v in sp.pages ==> FlagsOf(m[sp.tables[Pdx(v)]][Ptx(v)]) == sp.pages[v].flags
  {
    assert DirSlot(m, sp, Pdx(v)) && PageSlot(m, sp, v);
    if Pdx(v) in sp.tables { WordReads(Pte(sp.tables[Pdx(v)], TABLE_FLAGS)); }
    if v in sp.pages { WordReads(sp.pages[v]); }
  }

  // ----- pages mapped and unmapped -----

  /** Pages `a .. a + n` on consecutive frames. */
  function Run(a: nat, n: nat, frame: nat, flags: nat): (r: map<nat, Pte>)
    ensures forall v :: v in r <==> a <= v < a + n
    ensures forall v :: v in r ==> r[v] == Pte(frame + (v - a), flags)
  {
    if n == 0 then map[] else Run(a, n - 1, frame, flags)[a + n - 1 := Pte(frame + n - 1, flags)]
  }

  /** The pages left after unmapping those in `a .. b`. */
  function Without(pages: map<nat, Pte>, a: nat, b: nat): map<nat, Pte> {
    map v | v in pages && !(a <= v < b) :: pages[v]
  }

  lemma UserFramesAdd(pages: map<nat, Pte>, v: nat, e: Pte)
    requires v !in pages
    ensures UserFrames(pages[v := e]) == UserFrames(pages) + if User(v) then {e.frame} else {}
  {
    var n := pages[v := e];
    forall f ensures f in UserFrames(n) <==> f in UserFrames(pages) || (User(v) && f == e.frame) {
      if f in UserFrames(pages) {
        var u :| u in pages && User(u) && pages[u].frame == f;
        assert u in n && n[u].frame == f;
      }
      if User(v) && f == e.frame { assert v in n && n[v].frame == f; }
    }
  }

  lemma MapSeparate(sp: Space, v: nat, e: Pte)
    requires Separate(sp) && v !in sp.pages && (User(v) ==> e.frame !in Owned(sp))
    ensures Separate(sp.(pages := sp.pages[v := e]))
  {
    UserFramesAdd(sp.pages, v, e);
    forall u | u in sp.pages && User(u) ensures sp.pages[u].frame in UserFrames(sp.pages) {}
  }

  lemma UnmapSeparate(sp: Space, v: nat)
    requires Separate(sp) && v in sp.pages && User(v)
    ensures var n := sp.(pages := sp.pages - {v});
      && Separate(n) && sp.pages[v].frame !in Owned(n) && Owned(sp) == Owned(n) + {sp.pages[v].frame}
      && Structure(n) == Structure(sp)
  {
    var n := sp.(pages := sp.pages - {v});
    assert n.pages[v := sp.pages[v]] == sp.pages;
    UserFramesAdd(n.pages, v, sp.pages[v]);
    assert sp.pages[v].frame in UserFrames(sp.pages);
  }

  // ----- the kernel part -----

  const EXTMEM: nat := 0x10_0000
  const PHYSTOP: nat := 0xE00_0000
  const DEVSPACE: nat := 0xFE00_0000
  const FOUR_GB: nat := 0x1_0000_0000

  /** A permission with PTE_P or-ed in. */
  function WithP(perm: nat): nat { if perm % 2 == 1 then perm else perm + 1 }

  datatype Row = Row(virt: nat, start: nat, end: nat, perm: nat) {
    function Size(): nat { (end - start) % FOUR_GB }
    function First(): nat { virt / PGSIZE }
    function Last(): nat
      requires virt + Size() > 0
    {
      (virt + Size() - 1) / PGSIZE
    }
  }

  /** Where the kernel's data segment may begin in physical memory. */
  predicate DataOk(data: nat) { EXTMEM < data < PHYSTOP && data % PGSIZE == 0 }

  /** kmap[]: the kernel's mappings, its data segment at physical address `data`. */
  function KMap(data: nat): (r: seq<Row>)
    ensures |r| == 4
  {
    [Row(KERNBASE, 0, EXTMEM, PTE_W),
     Row(KERNBASE + EXTMEM, EXTMEM, data, 0),
     Row(KERNBASE + data, data, PHYSTOP, PTE_W),
     Row(DEVSPACE, DEVSPACE, 0, PTE_W)]
  }

  lemma RowFits(data: nat, i: nat)
    requires DataOk(data) && i < 4
    ensures var r := KMap(data)[i];
      && r.Size() > 0 && r.virt + r.Size() <= NPAGES * PGSIZE && KERNPAGE <= r.First() <= r.Last() < NPAGES
      && r.perm < PGSIZE && (i < 3 ==> r.Last() < KMap(data)[i + 1].First())
  {
  }

  /** The pages of the first `i` rows. */
  function KPages(data: nat, i: nat): map<nat, Pte>
    requires DataOk(data) && i <= 4
  {
    if i == 0 then map[]
    else
      RowFits(data, i - 1);
      var r := KMap(data)[i - 1];
      KPages(data, i - 1) + Run(r.First(), r.Last() - r.First() + 1, r.start / PGSIZE, WithP(r.perm))
  }

  /** They are kernel pages, below the next row. */
  lemma {:induction false} KPagesBelow(data: nat, i: nat, v: nat)
    requires DataOk(data) && i <= 4 && v in KPages(data, i)
    ensures KERNPAGE <= v < NPAGES && (i < 4 ==> v < KMap(data)[i].First())
  {
    RowFits(data, i - 1);
    if i < 4 { RowFits(data, i); }
    if v in KPages(data, i - 1) { KPagesBelow(data, i - 1, v); }
  }
}
