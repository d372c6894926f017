/** Directories and link counts: the inode table as the calls of sysfile.c see it. */
module DirSpec {
  const DIRSIZ: nat := 14
  const ROOT: nat := 1
  const MAXENTS: nat := 4480        // MAXFILE * BSIZE / sizeof(struct dirent)
  const MAXLINK: int := 0x7fff      // nlink is a 16-bit short
  const MINLINK: int := -0x8000

  datatype Kind = Free | Dir | File | Dev

  /** inum 0 marks an unused entry. */
  datatype Ent = Ent(inum: nat, name: string)

  /** `refs` counts the open files and working directories that hold the inode in memory. */
  datatype Inode = Inode(kind: Kind, nlink: int, refs: nat, ents: seq<Ent>)

  type Nodes = seq<Inode>

  // ----- one directory -----

  predicate Used(e: Ent) { e.inum != 0 }

  /** dirlookup: the first used entry with the name, or the end. */
  function Lookup(es: seq<Ent>, name: string, k: nat): (r: nat)
    requires k <= |es|
    ensures k <= r <= |es| && (r < |es| ==> Used(es[r]) && es[r].name == name)
    ensures forall j :: k <= j < r ==> !(Used(es[j]) && es[j].name == name)
    decreases |es| - k
  {
    if k == |es| || (Used(es[k]) && es[k].name == name) then k else Lookup(es, name, k + 1)
  }

  /** dirlink's slot: the first unused entry, or the end. */
  function Slot(es: seq<Ent>, k: nat): (r: nat)
    requires k <= |es|
    ensures k <= r <= |es| && (r < |es| ==> !Used(es[r]))
    ensures forall j :: k <= j < r ==> Used(es[j])
    decreases |es| - k
  {
    if k == |es| || !Used(es[k]) then k else Slot(es, k + 1)
  }

  function PutEnt(es: seq<Ent>, k: nat, e: Ent): (r: seq<Ent>)
    requires k <= |es|
  {
    if k < |es| then es[k := e] else es + [e]
  }

  /** isdirempty. */
  predicate DirEmpty(es: seq<Ent>) { forall k :: 2 <= k < |es| ==> !Used(es[k]) }

  // ----- counting -----

  predicate LiveDir(x: Inode) { x.kind == Dir && x.nlink > 0 }

  /** Entries of a directory that name `i`, not counting "." in slot 0. */
  function Names(es: seq<Ent>, i: nat): nat {
    if |es| <= 1 then 0 else Names(es[..|es| - 1], i) + if es[|es| - 1].inum == i then 1 else 0
  }

  function Share(x: Inode, i: nat): nat { if LiveDir(x) then Names(x.ents, i) else 0 }

  /** Entries naming `i` in all live directories, "." not counted. */
  function Total(nodes: Nodes, i: nat): nat {
    if nodes == [] then 0 else Total(nodes[..|nodes| - 1], i) + Share(nodes[|nodes| - 1], i)
  }

  /** Entries after ".." that name directories. */
  function SubDirs(nodes: Nodes, es: seq<Ent>): nat {
    if |es| <= 2 then 0 else SubDirs(nodes, es[..|es| - 1]) + if NamesDir(nodes, es[|es| - 1]) then 1 else 0
  }

  predicate NamesDir(nodes: Nodes, e: Ent) { Used(e) && e.inum < |nodes| && nodes[e.inum].kind == Dir }

  function One(b: bool): nat { if b then 1 else 0 }

  lemma {:induction false} NamesPut(es: seq<Ent>, k: nat, e: Ent, i: nat)
    requires 1 <= k <= |es|
    ensures Names(PutEnt(es, k, e), i) == Names(es, i) - One(k < |es| && es[k].inum == i) + One(e.inum == i)
  {
    var r := PutEnt(es, k, e);
    if k == |es| {
      assert r[..|r| - 1] == es;
    } else {
      if k < |es| - 1 {
        NamesPut(es[..|es| - 1], k, e, i);
        assert r[..|r| - 1] == PutEnt(es[..|es| - 1], k, e);
      } else {
        assert r[..|r| - 1] == es[..|es| - 1];
      }
    }
  }

  lemma {:induction false} NamesAtLeast(es: seq<Ent>, k: nat, i: nat)
    requires 1 <= k < |es| && es[k].inum == i
    ensures Names(es, i) >= 1
  {
    if k < |es| - 1 { NamesAtLeast(es[..|es| - 1], k, i); }
  }

  lemma {:induction false} NamesTwo(es: seq<Ent>, j: nat, k: nat, i: nat)
    requires 1 <= j < k < |es| && es[j].inum == i && es[k].inum == i
    ensures Names(es, i) >= 2
  {
    if k < |es| - 1 { NamesTwo(es[..|es| - 1], j, k, i); } else { NamesAtLeast(es[..|es| - 1], j, i); }
  }

  lemma {:induction false} TotalUpdate(nodes: Nodes, j: nat, x: Inode, i: nat)
    requires j < |nodes|
    ensures Total(nodes[j := x], i) == Total(nodes, i) - Share(nodes[j], i) + Share(x, i)
  {
    var r := nodes[j := x];
    if j < |nodes| - 1 {
      TotalUpdate(nodes[..|nodes| - 1], j, x, i);
      assert r[..|r| - 1] == nodes[..|nodes| - 1][j := x];
    } else {
      assert r[..|r| - 1] == nodes[..|nodes| - 1];
    }
  }

  lemma {:induction false} TotalAtLeast(nodes: Nodes, j: nat, i: nat)
    requires j < |nodes|
    ensures Total(nodes, i) >= Share(nodes[j], i)
  {
    if j < |nodes| - 1 { TotalAtLeast(nodes[..|nodes| - 1], j, i); }
  }

  lemma {:induction false} TotalTwo(nodes: Nodes, j: nat, k: nat, i: nat)
    requires j < |nodes| && k < |nodes| && j != k
    ensures Total(nodes, i) >= Share(nodes[j], i) + Share(nodes[k], i)
  {
    var n := |nodes| - 1;
    if j < n && k < n {
      TotalTwo(nodes[..n], j, k, i);
    } else {
      TotalAtLeast(nodes[..n], if j < n then j else k, i);
    }
  }

  lemma {:induction false} SubDirsPut(nodes: Nodes, es: seq<Ent>, k: nat, e: Ent)
    requires 2 <= k <= |es|
    ensures SubDirs(nodes, PutEnt(es, k, e)) ==
      SubDirs(nodes, es) - One(k < |es| && NamesDir(nodes, es[k])) + One(NamesDir(nodes, e))
  {
    var r := PutEnt(es, k, e);
    if k == |es| {
      assert r[..|r| - 1] == es;
    } else if k < |es| - 1 {
      SubDirsPut(nodes, es[..|es| - 1], k, e);
      assert r[..|r| - 1] == PutEnt(es[..|es| - 1], k, e);
    } else {
      assert r[..|r| - 1] == es[..|es| - 1];
    }
  }

  lemma {:induction false} SubDirsSame(nodes: Nodes, nodes': Nodes, es: seq<Ent>)
    requires forall k :: 2 <= k < |es| ==> (NamesDir(nodes, es[k]) <==> NamesDir(nodes', es[k]))
    ensures SubDirs(nodes, es) == SubDirs(nodes', es)
  {
    if |es| > 2 { SubDirsSame(nodes, nodes', es[..|es| - 1]); }
  }

  lemma {:induction false} SubDirsBound(nodes: Nodes, es: seq<Ent>)
    requires |es| >= 2
    ensures SubDirs(nodes, es) <= |es| - 2
    ensures DirEmpty(es) ==> SubDirs(nodes, es) == 0
  {
    if |es| > 2 { SubDirsBound(nodes, es[..|es| - 1]); }
  }

  // ----- the invariant -----

  ghost predicate Distinct(es: seq<Ent>) {
    forall j, k :: 0 <= j < k < |es| && Used(es[j]) && Used(es[k]) ==> es[j].name != es[k].name
  }

  /** No directory is named by two entries after "..". */
  ghost predicate DirsOnce(nodes: Nodes, es: seq<Ent>) {
    forall j, k :: 2 <= j < k < |es| && es[j].inum == es[k].inum ==> !NamesDir(nodes, es[j])
  }

  /** A subdirectory's ".." leads back here. */
  ghost predicate EntOk(nodes: Nodes, d: nat, e: Ent) {
    Used(e) ==> e.inum < |nodes| && e.inum != ROOT && (nodes[e.inum].kind == Dir ==> UpIs(nodes[e.inum], d))
  }

  ghost predicate UpIs(x: Inode, d: nat) { |x.ents| >= 2 && x.ents[1] == Ent(d, "..") }

  ghost predicate DirOk(nodes: Nodes, d: nat, es: seq<Ent>) {
    && 2 <= |es| <= MAXENTS && es[0] == Ent(d, ".") && es[1].name == ".."
    && 0 < es[1].inum < |nodes| && LiveDir(nodes[es[1].inum]) && (d == ROOT <==> es[1].inum == d)
    && Distinct(es) && DirsOnce(nodes, es)
    && (forall k :: 2 <= k < |es| ==> EntOk(nodes, d, es[k]))
  }

  /** What is left in a removed directory that is still held. */
  ghost predicate EmptiedDir(nodes: Nodes, es: seq<Ent>) {
    |es| >= 2 && 0 < es[1].inum < |nodes| && DirEmpty(es)
  }

  ghost predicate NodeOk(nodes: Nodes, i: nat)
    requires i < |nodes|
  {
    && (nodes[i].kind == Free ==> nodes[i] == Inode(Free, 0, 0, []))
    && (nodes[i].kind != Free && nodes[i].nlink == 0 ==> nodes[i].refs > 0)
    && 0 <= nodes[i].nlink <= MAXLINK
    && (i > 0 ==> nodes[i].nlink == Total(nodes, i))
    && (nodes[i].kind == Dir && nodes[i].nlink == 0 ==> EmptiedDir(nodes, nodes[i].ents))
    && (LiveDir(nodes[i]) ==> DirOk(nodes, i, nodes[i].ents) && nodes[i].nlink == 1 + SubDirs(nodes, nodes[i].ents))
  }

  /** Each live inode's nlink is the number of entries naming it in live directories; each live
      directory has its dots, a live parent, distinct names, and 1 + (number of subdirectories)
      links. */
  ghost predicate Inv(nodes: Nodes) {
    && |nodes| > ROOT && nodes[0].kind == Free && LiveDir(nodes[ROOT])
    && forall i :: 0 <= i < |nodes| ==> NodeOk(nodes, i)
  }

  /** mkfs's root directory before any file is added. */
  function Mkfs(ninodes: nat, slots: nat): Nodes
    requires ninodes > ROOT && 2 <= slots <= MAXENTS
  {
    var root := Inode(Dir, 1, 0, [Ent(ROOT, "."), Ent(ROOT, "..")] + seq(slots - 2, _ => Ent(0, "")));
    seq(ninodes, i => if i == ROOT then root else Inode(Free, 0, 0, []))
  }

  // ----- calls, once their paths are resolved -----

  datatype Outcome = Ok(inum: nat) | Fail | Panic

  datatype Result = Result(nodes: Nodes, out: Outcome)

  function Inc(x: int): int { if x == MAXLINK then MINLINK else x + 1 }

  function Dec(x: int): int { if x == MINLINK then MAXLINK else x - 1 }

  /** dirlink: -1 when the name is present; panic when the directory is as long as a file can be. */
  function DirLink(nodes: Nodes, d: nat, name: string, inum: nat): Result
    requires d < |nodes|
  {
    var es := nodes[d].ents;
    var k := Slot(es, 0);
    if Lookup(es, name, 0) < |es| then Result(nodes, Fail)
    else if k >= MAXENTS then Result(nodes, Panic)
    else Result(nodes[d := nodes[d].(ents := PutEnt(es, k, Ent(inum, name)))], Ok(inum))
  }

  /** sys_link of inode `ip` into directory `d`; no directory stands for a failed nameiparent. */
  function Link(nodes: Nodes, ip: nat, d: int, name: string): Result
    requires ip < |nodes| && d < |nodes|
  {
    if nodes[ip].kind == Dir then Result(nodes, Fail)
    else
      var up := nodes[ip := nodes[ip].(nlink := Inc(nodes[ip].nlink))];
      var r := if d < 0 then Result(up, Fail) else DirLink(up, d, name, ip);
      if r.out == Fail then Result(up[ip := up[ip].(nlink := Dec(up[ip].nlink))], Fail) else r
  }

  /** ialloc's scan. */
  function FirstFree(nodes: Nodes, i: nat): (r: nat)
    requires i <= |nodes|
    ensures i <= r <= |nodes| && (r < |nodes| ==> nodes[r].kind == Free)
    decreases |nodes| - i
  {
    if i == |nodes| || nodes[i].kind == Free then i else FirstFree(nodes, i + 1)
  }

  /** create in directory `d`. */
  function Create(nodes: Nodes, d: nat, name: string, kind: Kind): Result
    requires 0 < d < |nodes| && kind != Free
  {
    var es := nodes[d].ents;
    var f := Lookup(es, name, 0);
    if f < |es| then
      if kind == File && es[f].inum < |nodes| && nodes[es[f].inum].kind == File then Result(nodes, Ok(es[f].inum))
      else Result(nodes, Fail)
    else
      var i := FirstFree(nodes, 1);
      if i == |nodes| then Result(nodes, Panic)
      else
        var dots := if kind == Dir then [Ent(i, "."), Ent(d, "..")] else [];
        var made := nodes[i := Inode(kind, 1, 0, dots)];
        var up := if kind == Dir then made[d := made[d].(nlink := Inc(made[d].nlink))] else made;
        var r := DirLink(up, d, name, i);
        if r.out.Ok? then r else Result(nodes, Panic)
  }

  /** iput of the last reference frees an inode without links. */
  function Settled(x: Inode): Inode { if x.nlink == 0 && x.refs == 0 then Inode(Free, 0, 0, []) else x }

  /** sys_unlink in directory `d`. */
  function Unlink(nodes: Nodes, d: nat, name: string): Result
    requires d < |nodes|
  {
    var es := nodes[d].ents;
    var k := Lookup(es, name, 0);
    if name == "." || name == ".." || k == |es| || es[k].inum >= |nodes| then Result(nodes, Fail)
    else
      var ip := es[k].inum;
      if nodes[ip].nlink < 1 then Result(nodes, Panic)
      else if nodes[ip].kind == Dir && !DirEmpty(nodes[ip].ents) then Result(nodes, Fail)
      else
        var cut := nodes[d].(ents := es[k := Ent(0, "")],
                             nlink := if nodes[ip].kind == Dir then Dec(nodes[d].nlink) else nodes[d].nlink);
        var off := nodes[d := cut];
        Result(off[ip := Settled(off[ip].(nlink := Dec(off[ip].nlink)))], Ok(ip))
  }

  /** A new reference to an inode: an open, or a working directory. */
  function Hold(nodes: Nodes, i: nat): Nodes
    requires i < |nodes|
  {
    nodes[i := nodes[i].(refs := nodes[i].refs + 1)]
  }

  /** iput of such a reference. */
  function Release(nodes: Nodes, i: nat): Nodes
    requires i < |nodes| && nodes[i].refs > 0
  {
    nodes[i := Settled(nodes[i].(refs := nodes[i].refs - 1))]
  }

  // ----- what stays as it was -----

  /** As other directories see it, node `j` is the same. */
  ghost predicate Stable(x: Inode, y: Inode) {
    && x.kind == y.kind && (LiveDir(x) <==> LiveDir(y))
    && (|x.ents| >= 2 ==> |y.ents| >= 2 && y.ents[1] == x.ents[1])
  }

  ghost predicate Unnamed(es: seq<Ent>, j: nat) { forall k :: 1 <= k < |es| ==> es[k].inum != j }

  lemma EntStays(nodes: Nodes, nodes': Nodes, d: nat, e: Ent)
    requires EntOk(nodes, d, e) && |nodes'| == |nodes|
    requires Used(e) ==> e.inum < |nodes| && Stable(nodes[e.inum], nodes'[e.inum])
    ensures EntOk(nodes', d, e) && (NamesDir(nodes, e) <==> NamesDir(nodes', e))
  {
  }

  /** A directory whose entries are untouched stays well formed. */
  lemma DirStays(nodes: Nodes, nodes': Nodes, d: nat, es: seq<Ent>)
    requires DirOk(nodes, d, es) && |nodes'| == |nodes|
    requires forall j :: 0 <= j < |nodes| ==> Stable(nodes[j], nodes'[j]) || Unnamed(es, j)
    ensures DirOk(nodes', d, es) && SubDirs(nodes', es) == SubDirs(nodes, es)
  {
    forall k | 2 <= k < |es| ensures EntOk(nodes', d, es[k]) && (NamesDir(nodes, es[k]) <==> NamesDir(nodes', es[k])) {
      if Used(es[k]) { assert EntOk(nodes, d, es[k]); }
      EntStays(nodes, nodes', d, es[k]);
    }
    SubDirsSame(nodes, nodes', es);
    assert Stable(nodes[es[1].inum], nodes'[es[1].inum]);
  }

  /** An entry put in a free slot under a new name. */
  lemma DirPut(nodes: Nodes, d: nat, es: seq<Ent>, k: nat, e: Ent)
    requires DirOk(nodes, d, es) && k == Slot(es, 0) && k < MAXENTS && Lookup(es, e.name, 0) == |es|
    requires 0 < d && Used(e) && EntOk(nodes, d, e) && (NamesDir(nodes, e) ==> Unnamed(es, e.inum))
    ensures 2 <= k && DirOk(nodes, d, PutEnt(es, k, e))
    ensures SubDirs(nodes, PutEnt(es, k, e)) == SubDirs(nodes, es) + One(NamesDir(nodes, e))
  {
    assert Used(es[0]) && Used(es[1]);
    SubDirsPut(nodes, es, k, e);
    var r := PutEnt(es, k, e);
    assert forall j :: 0 <= j < |r| && j != k ==> r[j] == es[j];
    forall i, j | 2 <= i < j < |r| && r[i].inum == r[j].inum ensures !NamesDir(nodes, r[i]) {
      assert i != k && j != k ==> es[i].inum == es[j].inum;
    }
    forall j | 2 <= j < |r| ensures EntOk(nodes, d, r[j]) {
      assert j != k ==> EntOk(nodes, d, es[j]);
    }
  }

  /** An entry cleared. */
  lemma DirCut(nodes: Nodes, d: nat, es: seq<Ent>, k: nat)
    requires DirOk(nodes, d, es) && 2 <= k < |es|
    ensures DirOk(nodes, d, es[k := Ent(0, "")])
    ensures SubDirs(nodes, es[k := Ent(0, "")]) == SubDirs(nodes, es) - One(NamesDir(nodes, es[k]))
    ensures NamesDir(nodes, es[k]) && es[1].inum != es[k].inum ==> Unnamed(es[k := Ent(0, "")], es[k].inum)
  {
    var r := es[k := Ent(0, "")];
    SubDirsPut(nodes, es, k, Ent(0, ""));
    forall i, j | 2 <= i < j < |r| && r[i].inum == r[j].inum ensures !NamesDir(nodes, r[i]) {
      assert i != k && j != k ==> es[i].inum == es[j].inum;
    }
    forall j | 2 <= j < |r| ensures EntOk(nodes, d, r[j]) {
      assert j != k ==> EntOk(nodes, d, es[j]);
    }
    if NamesDir(nodes, es[k]) {
      forall j | 2 <= j < |r| ensures r[j].inum != es[k].inum {
        assert j < k ==> !(es[j].inum == es[k].inum);
        assert k < j ==> !(es[k].inum == es[j].inum);
      }
    }
  }

  lemma TwoUpdates(nodes: Nodes, a: nat, x: Inode, b: nat, y: Inode, i: nat)
    requires a < |nodes| && b < |nodes| && a != b
    ensures Total(nodes[a := x][b := y], i) ==
      Total(nodes, i) - Share(nodes[a], i) + Share(x, i) - Share(nodes[b], i) + Share(y, i)
  {
    TotalUpdate(nodes, a, x, i);
    TotalUpdate(nodes[a := x], b, y, i);
  }

  lemma NodeOf(nodes: Nodes, i: nat)
    requires Inv(nodes) && i < |nodes|
    ensures NodeOk(nodes, i)
  {
  }

  /** Nothing with no links is named in a live directory. */
  lemma NoLinksNoNames(nodes: Nodes, d: nat, i: nat)
    requires Inv(nodes) && d < |nodes| && LiveDir(nodes[d]) && 0 < i < |nodes| && nodes[i].nlink == 0
    ensures Unnamed(nodes[d].ents, i)
  {
    NodeOf(nodes, i);
    TotalAtLeast(nodes, d, i);
    forall k | 1 <= k < |nodes[d].ents| ensures nodes[d].ents[k].inum != i {
      if nodes[d].ents[k].inum == i { NamesAtLeast(nodes[d].ents, k, i); }
    }
  }

  ghost predicate StableFor(nodes: Nodes, n: Nodes, es: seq<Ent>)
    requires |n| == |nodes|
  {
    forall j :: 0 <= j < |nodes| ==> Stable(nodes[j], n[j]) || Unnamed(es, j)
  }

  lemma Untouched(nodes: Nodes, n: Nodes, i: nat)
    requires Inv(nodes) && i < |nodes| == |n| && n[i] == nodes[i] && (i > 0 ==> Total(n, i) == Total(nodes, i))
    requires LiveDir(nodes[i]) ==> StableFor(nodes, n, nodes[i].ents)
    ensures NodeOk(n, i)
  {
    NodeOf(nodes, i);
    if LiveDir(nodes[i]) { DirStays(nodes, n, i, nodes[i].ents); }
    hide DirOk, Stable;
  }

  lemma InvIntro(n: Nodes, a: nat, b: nat)
    requires |n| > ROOT && n[0].kind == Free && LiveDir(n[ROOT]) && a < |n| && b < |n|
    requires NodeOk(n, a) && NodeOk(n, b) && forall i :: 0 <= i < |n| && i != a && i != b ==> NodeOk(n, i)
    ensures Inv(n)
  {
  }

  // ----- link -----

  lemma LinkTotals(nodes: Nodes, ip: nat, d: nat, name: string, i: nat)
    requires Inv(nodes) && 0 < ip < |nodes| && nodes[ip].kind !in {Free, Dir} && d < |nodes| && LiveDir(nodes[d])
    requires Link(nodes, ip, d, name).out.Ok? && 0 < i < |nodes|
    ensures Total(Link(nodes, ip, d, name).nodes, i) == Total(nodes, i) + One(i == ip)
  {
    NodeOf(nodes, d);
    var es, k := nodes[d].ents, Slot(nodes[d].ents, 0);
    assert Used(es[0]) && Used(es[1]);
    NamesPut(es, k, Ent(ip, name), i);
    TwoUpdates(nodes, ip, nodes[ip].(nlink := Inc(nodes[ip].nlink)),
               d, nodes[d].(ents := PutEnt(es, k, Ent(ip, name))), i);
  }

  lemma LinkInv(nodes: Nodes, ip: nat, d: nat, name: string, n: Nodes)
    requires Inv(nodes) && 0 < ip < |nodes| && nodes[ip].kind !in {Free, Dir} && d < |nodes| && LiveDir(nodes[d])
    requires Link(nodes, ip, d, name).out.Ok? && n == Link(nodes, ip, d, name).nodes && nodes[ip].nlink < MAXLINK
    ensures Inv(n)
  {
    var es := nodes[d].ents;
    var k, e := Slot(es, 0), Ent(ip, name);
    NodeOf(nodes, ip);
    NodeOf(nodes, d);
    assert Used(es[0]) && Used(es[1]);
    assert forall j :: 0 <= j < |nodes| ==> Stable(nodes[j], n[j]);
    DirStays(nodes, n, d, es);
    DirPut(n, d, es, k, e);
    LinkTotals(nodes, ip, d, name, ip);
    LinkTotals(nodes, ip, d, name, d);
    assert n[ip] == nodes[ip].(nlink := nodes[ip].nlink + 1) && n[d] == nodes[d].(ents := PutEnt(es, k, e));
    hide Total, SubDirs, DirOk, Stable, Lookup, Slot;
    forall i | 0 <= i < |n| && i != ip && i != d ensures NodeOk(n, i) {
      if i > 0 { LinkTotals(nodes, ip, d, name, i); }
      Untouched(nodes, n, i);
    }
    InvIntro(n, ip, d);
  }

  /** link changes nothing when it fails; when it succeeds it keeps the invariant exactly when the
      16-bit count has room for one more. */
  lemma LinkKeeps(nodes: Nodes, ip: nat, d: nat, name: string)
    requires Inv(nodes) && 0 < ip < |nodes| && nodes[ip].kind != Free && d < |nodes| && LiveDir(nodes[d])
    ensures Link(nodes, ip, d, name).out == Fail ==> Link(nodes, ip, d, name).nodes == nodes
    ensures Link(nodes, ip, d, name).out.Ok? ==> (Inv(Link(nodes, ip, d, name).nodes) <==> nodes[ip].nlink < MAXLINK)
  {
    var r := Link(nodes, ip, d, name);
    var n := r.nodes;
    NodeOf(nodes, ip);
    NodeOf(nodes, d);
    if r.out.Ok? && nodes[ip].nlink < MAXLINK {
      LinkInv(nodes, ip, d, name, n);
    } else if r.out.Ok? {
      assert n[ip].nlink == MINLINK;
      assert !NodeOk(n, ip);
    }
  }

  // ----- create -----

  lemma CreateTotals(nodes: Nodes, d: nat, name: string, kind: Kind, i: nat, n: Nodes, e: nat)
    requires Inv(nodes) && 0 < d < |nodes| && LiveDir(nodes[d]) && kind != Free && 0 < i < |nodes|
    requires Lookup(nodes[d].ents, name, 0) == |nodes[d].ents| && nodes[d].nlink < MAXLINK
    requires 0 < e < |nodes| && e == FirstFree(nodes, 1) && Create(nodes, d, name, kind).out == Ok(e)
    requires n == Create(nodes, d, name, kind).nodes
    ensures Total(n, i) == Total(nodes, i) + One(i == e) + One(kind == Dir && i == d)
  {
    NodeOf(nodes, d);
    NodeOf(nodes, e);
    var es, k := nodes[d].ents, Slot(nodes[d].ents, 0);
    assert Used(es[0]) && Used(es[1]);
    NamesPut(es, k, Ent(e, name), i);
    TwoUpdates(nodes, e, n[e], d, n[d], i);
    assert n == nodes[e := n[e]][d := n[d]];
    if kind == Dir {
      assert n[e].ents[..1] == [Ent(e, ".")];
      assert Names(n[e].ents, i) == One(d == i);
    }
  }

  lemma CreateShape(nodes: Nodes, d: nat, name: string, kind: Kind)
    requires 0 < d < |nodes| && nodes[d].kind == Dir && kind != Free && nodes[d].nlink < MAXLINK
    requires Lookup(nodes[d].ents, name, 0) == |nodes[d].ents| && Create(nodes, d, name, kind).out.Ok?
    ensures var es, e, n, k := nodes[d].ents, FirstFree(nodes, 1), Create(nodes, d, name, kind).nodes, Slot(nodes[d].ents, 0);
      && e < |nodes| && e != d && k < MAXENTS && |n| == |nodes|
      && n[e] == Inode(kind, 1, 0, if kind == Dir then [Ent(e, "."), Ent(d, "..")] else [])
      && n[d] == nodes[d].(ents := PutEnt(es, k, Ent(e, name)), nlink := nodes[d].nlink + One(kind == Dir))
      && forall i :: 0 <= i < |n| && i != e && i != d ==> n[i] == nodes[i]
  {
  }

  /** A directory is never short of links for another subdirectory. */
  lemma RoomForSubdir(nodes: Nodes, d: nat)
    requires Inv(nodes) && d < |nodes| && LiveDir(nodes[d])
    ensures nodes[d].nlink < MAXENTS
  {
    NodeOf(nodes, d);
    SubDirsBound(nodes, nodes[d].ents);
  }

  lemma NewNodes(nodes: Nodes, n: Nodes, d: nat, e: nat, kind: Kind)
    requires Inv(nodes) && 0 < d < |nodes| == |n| && 0 < e < |n| && d != e && LiveDir(nodes[d]) && kind != Free
    requires nodes[d].nlink < MAXENTS && nodes[e].nlink == 0
    requires n[e] == Inode(kind, 1, 0, if kind == Dir then [Ent(e, "."), Ent(d, "..")] else [])
    requires n[d] == nodes[d].(ents := n[d].ents, nlink := nodes[d].nlink + One(kind == Dir))
    requires DirOk(n, d, n[d].ents) && SubDirs(n, n[d].ents) == SubDirs(nodes, nodes[d].ents) + One(kind == Dir)
    requires Total(n, e) == Total(nodes, e) + 1 && Total(n, d) == Total(nodes, d) + One(kind == Dir)
    ensures NodeOk(n, e) && NodeOk(n, d)
  {
    NodeOf(nodes, e);
    NodeOf(nodes, d);
    hide Total, Inv;
  }

  lemma CreateInv(nodes: Nodes, d: nat, name: string, kind: Kind, e: nat, n: Nodes)
    requires Inv(nodes) && 0 < d < |nodes| && LiveDir(nodes[d]) && kind != Free
    requires Lookup(nodes[d].ents, name, 0) == |nodes[d].ents|
    requires Create(nodes, d, name, kind).out.Ok? && e == FirstFree(nodes, 1) && n == Create(nodes, d, name, kind).nodes
    ensures Inv(n)
  {
    RoomForSubdir(nodes, d);
    CreateShape(nodes, d, name, kind);
    NodeOf(nodes, e);
    NodeOf(nodes, d);
    var es, k := nodes[d].ents, Slot(nodes[d].ents, 0);
    assert Used(es[0]) && Used(es[1]);
    NoLinksNoNames(nodes, d, e);
    assert forall j :: 0 <= j < |nodes| && j != e ==> Stable(nodes[j], n[j]);
    DirStays(nodes, n, d, es);
    DirPut(n, d, es, k, Ent(e, name));
    CreateTotals(nodes, d, name, kind, e, n, e);
    CreateTotals(nodes, d, name, kind, d, n, e);
    NewNodes(nodes, n, d, e, kind);
    hide Total, Stable, Lookup, Slot, Create;
    hide SubDirs, DirOk;
    forall i | 0 <= i < |n| && i != e && i != d ensures NodeOk(n, i) {
      if i > 0 { CreateTotals(nodes, d, name, kind, i, n, e); }
      if LiveDir(nodes[i]) { NoLinksNoNames(nodes, i, e); }
      Untouched(nodes, n, i);
    }
    InvIntro(n, e, d);
  }

  /** create keeps the invariant, and gives the new inode its name in `d` and one link. */
  lemma CreateKeeps(nodes: Nodes, d: nat, name: string, kind: Kind)
    requires Inv(nodes) && 0 < d < |nodes| && LiveDir(nodes[d]) && kind != Free
    ensures var r := Create(nodes, d, name, kind);
      && Inv(r.nodes) && (r.out == Fail ==> r.nodes == nodes)
      && (r.out.Ok? ==> 0 < r.out.inum < |r.nodes| && r.nodes[r.out.inum].kind == kind && r.nodes[r.out.inum].nlink > 0)
  {
    var r := Create(nodes, d, name, kind);
    var es := nodes[d].ents;
    var f := Lookup(es, name, 0);
    NodeOf(nodes, d);
    if f < |es| {
      if r.out.Ok? {
        assert f >= 1;
        NamesAtLeast(es, f, es[f].inum);
        TotalAtLeast(nodes, d, es[f].inum);
        NodeOf(nodes, es[f].inum);
      }
    } else if r.out.Ok? {
      RoomForSubdir(nodes, d);
      CreateShape(nodes, d, name, kind);
      CreateInv(nodes, d, name, kind, FirstFree(nodes, 1), r.nodes);
    }
  }

  // ----- unlink -----

  lemma {:induction false} NamesOfEmpty(es: seq<Ent>, i: nat)
    requires |es| >= 2 && DirEmpty(es) && i > 0
    ensures Names(es, i) == One(es[1].inum == i)
  {
    if |es| > 2 {
      NamesOfEmpty(es[..|es| - 1], i);
      assert !Used(es[|es| - 1]);
    } else {
      assert Names(es[..1], i) == 0;
    }
  }

  /** An entry of a live directory names a live inode. */
  lemma NamedIsLive(nodes: Nodes, d: nat, k: nat)
    requires Inv(nodes) && d < |nodes| && LiveDir(nodes[d]) && k < |nodes[d].ents| && Used(nodes[d].ents[k])
    ensures var i := nodes[d].ents[k].inum;
      i < |nodes| && nodes[i].kind != Free && nodes[i].nlink > 0
  {
    NodeOf(nodes, d);
    var es := nodes[d].ents;
    if k >= 1 {
      if k >= 2 { assert EntOk(nodes, d, es[k]); }
      NamesAtLeast(es, k, es[k].inum);
      TotalAtLeast(nodes, d, es[k].inum);
      NodeOf(nodes, es[k].inum);
    }
  }

  /** What a successful unlink found. */
  ghost predicate Removes(nodes: Nodes, d: nat, name: string, k: nat, ip: nat) {
    && d < |nodes| && 2 <= k < |nodes[d].ents| && k == Lookup(nodes[d].ents, name, 0)
    && ip == nodes[d].ents[k].inum && 0 < ip < |nodes| && ip != d && ip != ROOT
    && nodes[ip].kind != Free && 0 < nodes[ip].nlink <= MAXLINK && 0 < nodes[d].nlink <= MAXLINK
    && (nodes[ip].kind == Dir ==>
         && UpIs(nodes[ip], d) && DirEmpty(nodes[ip].ents) && nodes[ip].nlink == 1 && nodes[d].nlink > 1)
  }

  lemma UnlinkFinds(nodes: Nodes, d: nat, name: string)
    requires Inv(nodes) && 0 < d < |nodes| && LiveDir(nodes[d])
    ensures Unlink(nodes, d, name).out != Panic
    ensures Unlink(nodes, d, name).out == Fail ==> Unlink(nodes, d, name).nodes == nodes
    ensures Unlink(nodes, d, name).out.Ok? ==>
      exists k, ip :: Removes(nodes, d, name, k, ip) && Unlink(nodes, d, name).out == Ok(ip)
  {
    NodeOf(nodes, d);
    var es := nodes[d].ents;
    var k := Lookup(es, name, 0);
    if name != "." && name != ".." && k < |es| {
      NamedIsLive(nodes, d, k);
      var ip := es[k].inum;
      NodeOf(nodes, ip);
      assert EntOk(nodes, d, es[k]);
      if nodes[ip].kind == Dir && DirEmpty(nodes[ip].ents) {
        SubDirsBound(nodes, nodes[ip].ents);
        SubDirsPut(nodes, es, k, Ent(0, ""));
        assert NamesDir(nodes, es[k]) && nodes[d].nlink > 1;
      }
      assert Unlink(nodes, d, name).out.Ok? ==> Removes(nodes, d, name, k, ip);
    }
  }

  lemma UnlinkShape(nodes: Nodes, d: nat, name: string, k: nat, ip: nat)
    requires Removes(nodes, d, name, k, ip) && Unlink(nodes, d, name).out.Ok?
    ensures var n := Unlink(nodes, d, name).nodes;
      && |n| == |nodes|
      && n[d] == nodes[d].(ents := nodes[d].ents[k := Ent(0, "")], nlink := nodes[d].nlink - One(nodes[ip].kind == Dir))
      && n[ip] == Settled(nodes[ip].(nlink := nodes[ip].nlink - 1))
      && n == nodes[d := n[d]][ip := n[ip]]
  {
  }

  lemma UnlinkTotals(nodes: Nodes, d: nat, name: string, k: nat, ip: nat, n: Nodes, i: nat)
    requires Inv(nodes) && Removes(nodes, d, name, k, ip) && 0 < i < |nodes| == |n|
    requires n[d] == nodes[d].(ents := nodes[d].ents[k := Ent(0, "")], nlink := nodes[d].nlink - One(nodes[ip].kind == Dir))
    requires n[ip] == Settled(nodes[ip].(nlink := nodes[ip].nlink - 1)) && n == nodes[d := n[d]][ip := n[ip]]
    requires nodes[d].kind == Dir
    ensures Total(n, i) == Total(nodes, i) - One(i == ip) - One(nodes[ip].kind == Dir && i == d)
  {
    TwoUpdates(nodes, d, n[d], ip, n[ip], i);
    NamesPut(nodes[d].ents, k, Ent(0, ""), i);
    if nodes[ip].kind == Dir { NamesOfEmpty(nodes[ip].ents, i); }
  }

  /** Nothing in a live directory names the inode just removed, if that was its last link. */
  lemma GoneIsUnnamed(n: Nodes, i: nat, ip: nat)
    requires i < |n| && ip < |n| && LiveDir(n[i]) && Total(n, ip) == 0
    ensures Unnamed(n[i].ents, ip)
  {
    TotalAtLeast(n, i, ip);
    forall k | 1 <= k < |n[i].ents| ensures n[i].ents[k].inum != ip {
      if n[i].ents[k].inum == ip { NamesAtLeast(n[i].ents, k, ip); }
    }
  }

  lemma UnlinkInv(nodes: Nodes, d: nat, name: string, k: nat, ip: nat, n: Nodes)
    requires Inv(nodes) && Removes(nodes, d, name, k, ip) && LiveDir(nodes[d]) && |n| == |nodes|
    requires n[d] == nodes[d].(ents := nodes[d].ents[k := Ent(0, "")], nlink := nodes[d].nlink - One(nodes[ip].kind == Dir))
    requires n[ip] == Settled(nodes[ip].(nlink := nodes[ip].nlink - 1)) && n == nodes[d := n[d]][ip := n[ip]]
    ensures Inv(n)
  {
    NodeOf(nodes, ip);
    NodeOf(nodes, d);
    var es, cut := nodes[d].ents, n[d].ents;
    DirCut(nodes, d, es, k);
    UnlinkTotals(nodes, d, name, k, ip, n, ip);
    UnlinkTotals(nodes, d, name, k, ip, n, d);
    if n[ip].nlink == 0 { GoneIsUnnamed(n, d, ip); }
    assert forall j :: 0 <= j < |nodes| && j != ip ==> Stable(nodes[j], n[j]);
    assert n[ip].nlink > 0 ==> Stable(nodes[ip], n[ip]);
    DirStays(nodes, n, d, cut);
    hide Total, SubDirs, DirOk, Stable, Lookup, DirEmpty;
    forall i | 0 <= i < |n| && i != ip && i != d ensures NodeOk(n, i) {
      if i > 0 { UnlinkTotals(nodes, d, name, k, ip, n, i); }
      if LiveDir(nodes[i]) && n[ip].nlink == 0 { GoneIsUnnamed(n, i, ip); }
      Untouched(nodes, n, i);
    }
    InvIntro(n, ip, d);
  }

  /** unlink never panics, changes nothing when it fails, and keeps the invariant. */
  lemma UnlinkKeeps(nodes: Nodes, d: nat, name: string)
    requires Inv(nodes) && 0 < d < |nodes| && LiveDir(nodes[d])
    ensures var r := Unlink(nodes, d, name);
      Inv(r.nodes) && r.out != Panic && (r.out == Fail ==> r.nodes == nodes)
  {
    UnlinkFinds(nodes, d, name);
    var r := Unlink(nodes, d, name);
    if r.out.Ok? {
      var k, ip :| Removes(nodes, d, name, k, ip) && r.out == Ok(ip);
      UnlinkShape(nodes, d, name, k, ip);
      UnlinkInv(nodes, d, name, k, ip, r.nodes);
    }
  }

  // ----- references, and mkfs -----

  lemma OneNodeKeeps(nodes: Nodes, i: nat, x: Inode)
    requires Inv(nodes) && 0 < i < |nodes| && nodes[i].kind != Free
    requires x == nodes[i].(refs := x.refs) || (x == Inode(Free, 0, 0, []) && nodes[i].nlink == 0)
    requires x.nlink == 0 && x.kind != Free ==> x.refs > 0
    ensures Inv(nodes[i := x])
  {
    var n := nodes[i := x];
    NodeOf(nodes, i);
    forall j | 0 <= j < |n| ensures Total(n, j) == Total(nodes, j) { TotalUpdate(nodes, i, x, j); }
    assert forall j :: 0 <= j < |nodes| && j != i ==> Stable(nodes[j], n[j]);
    assert x.kind != Free ==> Stable(nodes[i], x);
    if LiveDir(nodes[i]) { DirStays(nodes, n, i, nodes[i].ents); }
    hide Total, SubDirs, DirOk, Stable;
    forall j | 0 <= j < |n| && j != i ensures NodeOk(n, j) {
      if LiveDir(nodes[j]) && x.kind == Free { NoLinksNoNames(nodes, j, i); }
      Untouched(nodes, n, j);
    }
    InvIntro(n, i, i);
  }

  /** Opening and closing keep the invariant; the last close of an inode without links frees it. */
  lemma HoldReleaseKeep(nodes: Nodes, i: nat)
    requires Inv(nodes) && 0 < i < |nodes| && nodes[i].kind != Free
    ensures Inv(Hold(nodes, i))
    ensures nodes[i].refs > 0 ==> Inv(Release(nodes, i))
    ensures nodes[i].refs > 0 ==> (Release(nodes, i)[i].kind == Free <==> nodes[i].nlink == 0 && nodes[i].refs == 1)
  {
    NodeOf(nodes, i);
    OneNodeKeeps(nodes, i, nodes[i].(refs := nodes[i].refs + 1));
    if nodes[i].refs > 0 {
      OneNodeKeeps(nodes, i, Settled(nodes[i].(refs := nodes[i].refs - 1)));
    }
  }

  lemma {:induction false} TotalOfOne(nodes: Nodes, j: nat, i: nat)
    requires j < |nodes| && forall k :: 0 <= k < |nodes| && k != j ==> Share(nodes[k], i) == 0
    ensures Total(nodes, i) == Share(nodes[j], i)
    decreases |nodes|
  {
    var n := |nodes| - 1;
    if j < n { TotalOfOne(nodes[..n], j, i); } else { NoTotal(nodes[..n], i); }
  }

  lemma {:induction false} NoTotal(nodes: Nodes, i: nat)
    requires forall k :: 0 <= k < |nodes| ==> Share(nodes[k], i) == 0
    ensures Total(nodes, i) == 0
  {
    if nodes != [] { NoTotal(nodes[..|nodes| - 1], i); }
  }

  lemma MkfsInv(ninodes: nat, slots: nat)
    requires ninodes > ROOT && 2 <= slots <= MAXENTS
    ensures Inv(Mkfs(ninodes, slots))
  {
    var n := Mkfs(ninodes, slots);
    var es := n[ROOT].ents;
    SubDirsBound(n, es);
    forall i | 0 <= i < |n| ensures NodeOk(n, i) {
      TotalOfOne(n, ROOT, i);
      if i > 0 { NamesOfEmpty(es, i); }
    }
  }

  // ----- paths -----

  function SkipSlashes(path: string): (r: string)
    ensures |r| <= |path| && (r != "" ==> r[0] != '/')
  {
    if path != "" && path[0] == '/' then SkipSlashes(path[1..]) else path
  }

  function ElemLen(path: string): (n: nat)
    ensures n <= |path| && (forall i :: 0 <= i < n ==> path[i] != '/') && (n < |path| ==> path[n] == '/')
  {
    if path == "" || path[0] == '/' then 0 else 1 + ElemLen(path[1..])
  }

  function Trunc(name: string): string { if |name| <= DIRSIZ then name else name[..DIRSIZ] }

  datatype Elem = NoElem | Elem(name: string, rest: string)

  /** skipelem. */
  function SkipElem(path: string): (r: Elem)
    ensures r.Elem? ==> |r.rest| < |path|
  {
    var p := SkipSlashes(path);
    if p == "" then NoElem else Elem(Trunc(p[..ElemLen(p)]), SkipSlashes(p[ElemLen(p)..]))
  }

  function Elements(path: string): seq<string>
    decreases |path|
  {
    match SkipElem(path)
    case NoElem => []
    case Elem(name, rest) => [name] + Elements(rest)
  }

  function Slashes(n: nat): string { if n == 0 then "" else "/" + Slashes(n - 1) }

  /** A path spelled with `gaps[0]` slashes, a name, `gaps[1]` slashes and so on. */
  function Spell(names: seq<string>, gaps: seq<nat>): string
    requires |gaps| == |names| + 1
  {
    if names == [] then Slashes(gaps[0]) else Slashes(gaps[0]) + names[0] + Spell(names[1..], gaps[1..])
  }

  predicate PlainName(name: string) { name != "" && '/' !in name }

  lemma {:induction false} SkipThrough(n: nat, s: string)
    requires s == "" || s[0] != '/'
    ensures SkipSlashes(Slashes(n) + s) == s
  {
    if n == 0 {
      assert Slashes(0) + s == s;
    } else {
      SkipThrough(n - 1, s);
      assert (Slashes(n) + s)[1..] == Slashes(n - 1) + s;
    }
  }

  lemma {:induction false} ElemThrough(a: string, b: string)
    requires '/' !in a && (b == "" || b[0] == '/')
    ensures ElemLen(a + b) == |a|
  {
    if a == "" {
      assert a + b == b;
    } else {
      ElemThrough(a[1..], b);
      assert (a + b)[1..] == a[1..] + b;
      assert (a + b)[0] == a[0];
    }
  }

  /** Any number of slashes before, between and after the names spells the same path. */
  lemma {:induction false} ElementsOfSpell(names: seq<string>, gaps: seq<nat>)
    requires |gaps| == |names| + 1 && forall i :: 0 <= i < |names| ==> PlainName(names[i])
    requires forall i :: 1 <= i < |names| ==> gaps[i] > 0
    ensures |Elements(Spell(names, gaps))| == |names|
    ensures forall i :: 0 <= i < |names| ==> Elements(Spell(names, gaps))[i] == Trunc(names[i])
    decreases |names|
  {
    var path := Spell(names, gaps);
    if names == [] {
      SkipThrough(gaps[0], "");
      assert Slashes(gaps[0]) + "" == path;
    } else {
      var tail := Spell(names[1..], gaps[1..]);
      SpellStart(names[1..], gaps[1..]);
      FirstElem(path, gaps[0], names[0], tail);
      ElementsOfSpell(names[1..], gaps[1..]);
      ElementsSkip(tail);
      hide Spell, SkipElem, SkipSlashes, Trunc;
    }
  }

  lemma FirstElem(path: string, gap: nat, name: string, tail: string)
    requires PlainName(name) && (tail == "" || tail[0] == '/') && path == Slashes(gap) + name + tail
    ensures SkipElem(path) == Elem(Trunc(name), SkipSlashes(tail))
  {
    var body := name + tail;
    assert path == Slashes(gap) + body;
    SkipThrough(gap, body);
    ElemThrough(name, tail);
    assert body[..|name|] == name && body[|name|..] == tail;
  }

  lemma SpellStart(names: seq<string>, gaps: seq<nat>)
    requires |gaps| == |names| + 1 && (names != [] ==> gaps[0] > 0)
    ensures Spell(names, gaps) == "" || Spell(names, gaps)[0] == '/'
  {
  }

  lemma ElementsSkip(path: string)
    ensures Elements(SkipSlashes(path)) == Elements(path)
  {
    SkipTwice(path);
  }

  lemma {:induction false} SkipTwice(path: string)
    ensures SkipSlashes(SkipSlashes(path)) == SkipSlashes(path)
  {
    if path != "" && path[0] == '/' { SkipTwice(path[1..]); }
  }

  datatype Found = NotFound | At(inum: nat)

  /** namex's loop over the elements. */
  function Walk(nodes: Nodes, i: nat, names: seq<string>): Found
    requires i < |nodes|
    decreases |names|
  {
    if names == [] then At(i)
    else if nodes[i].kind != Dir then NotFound
    else
      var es := nodes[i].ents;
      var k := Lookup(es, names[0], 0);
      if k == |es| || es[k].inum >= |nodes| then NotFound else Walk(nodes, es[k].inum, names[1..])
  }

  /** nameiparent: one element early, and a directory. */
  function WalkParent(nodes: Nodes, i: nat, names: seq<string>): Found
    requires i < |nodes|
  {
    if names == [] then NotFound
    else
      var f := Walk(nodes, i, names[..|names| - 1]);
      if f.At? && f.inum < |nodes| && nodes[f.inum].kind == Dir then f else NotFound
  }

  /** From a live directory only live inodes are reached. */
  lemma {:induction false} WalkIsLive(nodes: Nodes, i: nat, names: seq<string>)
    requires Inv(nodes) && 0 < i < |nodes| && nodes[i].kind != Free && nodes[i].nlink > 0
    ensures var f := Walk(nodes, i, names);
      f.At? ==> 0 < f.inum < |nodes| && nodes[f.inum].kind != Free && nodes[f.inum].nlink > 0
    decreases |names|
  {
    if names != [] && nodes[i].kind == Dir {
      var k := Lookup(nodes[i].ents, names[0], 0);
      if k < |nodes[i].ents| {
        NamedIsLive(nodes, i, k);
        WalkIsLive(nodes, nodes[i].ents[k].inum, names[1..]);
      }
    }
  }
}
