/** Whole runs of directory calls. */
module DirRuns {
  // create, mkdir, mknod, link, unlink, open and close, from mkfs's root.

  import opened DirSpec

  datatype Call =
    | Creat(path: string, kind: Kind, hold: bool)   // open(O_CREATE) holds the inode; mkdir, mknod do not
    | LinkCall(src: string, dst: string)
    | UnlinkCall(path: string)
    | Open(path: string)
    | Close(inum: nat)

  /** namex's starting point: the root for a path beginning with a slash. */
  function Origin(path: string, cwd: nat): nat { if path != "" && path[0] == '/' then ROOT else cwd }

  function Last(names: seq<string>): string { if names == [] then "" else names[|names| - 1] }

  ghost predicate Ready(nodes: Nodes, cwd: nat, c: Call) {
    && |nodes| > ROOT && 0 < cwd < |nodes|
    && (c.Creat? ==> c.kind != Free)
    && (c.Close? ==> 0 < c.inum < |nodes| && nodes[c.inum].refs > 0)
  }

  /** One system call of a process whose working directory is `cwd`. */
  function Do(nodes: Nodes, cwd: nat, c: Call): Result
    requires Ready(nodes, cwd, c)
  {
    match c
    case Creat(path, kind, hold) =>
      var names := Elements(path);
      var d := WalkParent(nodes, Origin(path, cwd), names);
      if d.NotFound? || d.inum == 0 || d.inum >= |nodes| then Result(nodes, Fail)
      else
        var r := Create(nodes, d.inum, Last(names), kind);
        if r.out.Ok? && hold && r.out.inum < |r.nodes| then Result(Hold(r.nodes, r.out.inum), r.out) else r
    case LinkCall(src, dst) =>
      var ip := Walk(nodes, Origin(src, cwd), Elements(src));
      var names := Elements(dst);
      var d := WalkParent(nodes, Origin(dst, cwd), names);
      if ip.NotFound? || ip.inum >= |nodes| then Result(nodes, Fail)
      else Link(nodes, ip.inum, if d.At? && d.inum < |nodes| then d.inum else -1, Last(names))
    case UnlinkCall(path) =>
      var names := Elements(path);
      var d := WalkParent(nodes, Origin(path, cwd), names);
      if d.NotFound? || d.inum >= |nodes| then Result(nodes, Fail) else Unlink(nodes, d.inum, Last(names))
    case Open(path) =>
      var ip := Walk(nodes, Origin(path, cwd), Elements(path));
      if ip.NotFound? || ip.inum >= |nodes| then Result(nodes, Fail)
      else Result(Hold(nodes, ip.inum), Ok(ip.inum))
    case Close(inum) => Result(Release(nodes, inum), Ok(inum))
  }

  /** A link call on an inode that already has 32767 links. */
  ghost predicate Overflows(nodes: Nodes, cwd: nat, c: Call)
    requires Ready(nodes, cwd, c)
  {
    c.LinkCall? &&
    var ip := Walk(nodes, Origin(c.src, cwd), Elements(c.src));
    ip.At? && ip.inum < |nodes| && nodes[ip.inum].nlink == MAXLINK
  }

  lemma ParentIsLive(nodes: Nodes, cwd: nat, path: string)
    requires Inv(nodes) && 0 < cwd < |nodes| && LiveDir(nodes[cwd])
    ensures var o := Origin(path, cwd);
      && 0 < o < |nodes| && LiveDir(nodes[o])
      && var d := WalkParent(nodes, o, Elements(path));
        d.At? ==> 0 < d.inum < |nodes| && LiveDir(nodes[d.inum])
  {
    var names := Elements(path);
    if names != [] { WalkIsLive(nodes, Origin(path, cwd), names[..|names| - 1]); }
  }

  lemma LinkCallKeeps(nodes: Nodes, cwd: nat, c: Call)
    requires Inv(nodes) && Ready(nodes, cwd, c) && LiveDir(nodes[cwd]) && c.LinkCall?
    ensures var r := Do(nodes, cwd, c);
      && (r.out == Fail ==> r.nodes == nodes)
      && (r.out.Ok? ==> (Inv(r.nodes) <==> !Overflows(nodes, cwd, c)))
  {
    ParentIsLive(nodes, cwd, c.dst);
    ParentIsLive(nodes, cwd, c.src);
    var ip := Walk(nodes, Origin(c.src, cwd), Elements(c.src));
    var d := WalkParent(nodes, Origin(c.dst, cwd), Elements(c.dst));
    WalkIsLive(nodes, Origin(c.src, cwd), Elements(c.src));
    if ip.At? {
      NodeOf(nodes, ip.inum);
      hide Inv, Walk, WalkParent, Elements, Link, NodeOk;
      if d.At? {
        LinkKeeps(nodes, ip.inum, d.inum, Last(Elements(c.dst)));
      } else {
      }
    }
  }

  lemma CreatCallKeeps(nodes: Nodes, cwd: nat, c: Call)
    requires Inv(nodes) && Ready(nodes, cwd, c) && LiveDir(nodes[cwd]) && c.Creat?
    ensures var r := Do(nodes, cwd, c);
      Inv(r.nodes) && (r.out == Fail ==> r.nodes == nodes)
  {
    var names := Elements(c.path);
    var d := WalkParent(nodes, Origin(c.path, cwd), names);
    ParentIsLive(nodes, cwd, c.path);
    if d.At? {
      CreateKeeps(nodes, d.inum, Last(names), c.kind);
      var r := Create(nodes, d.inum, Last(names), c.kind);
      hide Inv, Walk, WalkParent, Elements, Create;
      if r.out.Ok? { HoldReleaseKeep(r.nodes, r.out.inum); }
    }
  }

  /** A failed call changes nothing; a call that returns keeps every link count right, except exactly
      a link to an inode whose 16-bit count is full. */
  lemma DoKeeps(nodes: Nodes, cwd: nat, c: Call)
    requires Inv(nodes) && Ready(nodes, cwd, c) && LiveDir(nodes[cwd])
    ensures var r := Do(nodes, cwd, c);
      && (r.out == Fail ==> r.nodes == nodes)
      && (r.out.Ok? ==> (Inv(r.nodes) <==> !Overflows(nodes, cwd, c)))
  {
    match c
    case Creat(_, _, _) => CreatCallKeeps(nodes, cwd, c);
    case LinkCall(_, _) => LinkCallKeeps(nodes, cwd, c);
    case UnlinkCall(path) =>
      ParentIsLive(nodes, cwd, path);
      var d := WalkParent(nodes, Origin(path, cwd), Elements(path));
      if d.At? { UnlinkKeeps(nodes, d.inum, Last(Elements(path))); }
    case Open(path) =>
      ParentIsLive(nodes, cwd, path);
      WalkIsLive(nodes, Origin(path, cwd), Elements(path));
      var ip := Walk(nodes, Origin(path, cwd), Elements(path));
      if ip.At? { HoldReleaseKeep(nodes, ip.inum); }
    case Close(inum) =>
      NodeOf(nodes, inum);
      HoldReleaseKeep(nodes, inum);
  }

  /** A run: each call is made from a directory live at the time, returns, and is no link past 32767. */
  ghost predicate Run(ns: seq<Nodes>, cwds: seq<nat>, cs: seq<Call>) {
    && |ns| == |cs| + 1 && |cwds| == |cs|
    && forall k :: 0 <= k < |cs| ==> Stepped(ns[k], cwds[k], cs[k], ns[k + 1])
  }

  ghost predicate Stepped(nodes: Nodes, cwd: nat, c: Call, n: Nodes) {
    && Ready(nodes, cwd, c) && LiveDir(nodes[cwd]) && !Overflows(nodes, cwd, c)
    && Do(nodes, cwd, c).out != Panic && n == Do(nodes, cwd, c).nodes
  }

  lemma {:induction false} RunInv(ns: seq<Nodes>, cwds: seq<nat>, cs: seq<Call>, slots: nat, k: nat)
    requires Run(ns, cwds, cs) && |ns[0]| > ROOT && 2 <= slots <= MAXENTS && ns[0] == Mkfs(|ns[0]|, slots)
    requires k < |ns|
    ensures Inv(ns[k])
  {
    hide Inv, Do, Mkfs, Overflows;
    if k == 0 {
      MkfsInv(|ns[0]|, slots);
    } else {
      RunInv(ns, cwds, cs, slots, k - 1);
      assert Stepped(ns[k - 1], cwds[k - 1], cs[k - 1], ns[k]);
      DoKeeps(ns[k - 1], cwds[k - 1], cs[k - 1]);
    }
  }

  /** In every run: nlink counts the entries naming an inode in live directories, the parent of a live
      directory is live, and names in a directory are distinct. */
  lemma LinkCounts(ns: seq<Nodes>, cwds: seq<nat>, cs: seq<Call>, slots: nat, k: nat, i: nat)
    requires Run(ns, cwds, cs) && |ns[0]| > ROOT && 2 <= slots <= MAXENTS && ns[0] == Mkfs(|ns[0]|, slots)
    requires k < |ns| && 0 < i < |ns[k]|
    ensures ns[k][i].nlink == Total(ns[k], i)
    ensures LiveDir(ns[k][i]) ==>
      var es := ns[k][i].ents;
      && |es| >= 2 && es[0] == Ent(i, ".") && es[1].name == ".." && Distinct(es)
      && es[1].inum < |ns[k]| && LiveDir(ns[k][es[1].inum])
      && ns[k][i].nlink == 1 + SubDirs(ns[k], es)
    ensures ns[k][i].kind != Free && ns[k][i].nlink == 0 ==> ns[k][i].refs > 0
  {
    RunInv(ns, cwds, cs, slots, k);
    NodeOf(ns[k], i);
  }

  // ----- a removed directory still in use -----

  /** A call that makes an entry in a directory already removed, as a relative path from a dead working
      directory allows, always breaks the counts. */
  lemma CreateInDeadBreaks(nodes: Nodes, d: nat, name: string, kind: Kind)
    requires Inv(nodes) && 0 < d < |nodes| && nodes[d].kind == Dir && kind != Free
    requires Lookup(nodes[d].ents, name, 0) == |nodes[d].ents| && Create(nodes, d, name, kind).out.Ok?
    ensures Inv(Create(nodes, d, name, kind).nodes) <==> LiveDir(nodes[d])
  {
    var n, e := Create(nodes, d, name, kind).nodes, FirstFree(nodes, 1);
    if LiveDir(nodes[d]) {
      CreateKeeps(nodes, d, name, kind);
    } else {
      NodeOf(nodes, d);
      NodeOf(nodes, e);
      CreateShape(nodes, d, name, kind);
      assert nodes[d].nlink == 0;
      if kind == Dir {
        assert n[d].nlink == 1;
        DeadDirCount(nodes, d, name, e, n);
      } else {
        assert n == nodes[e := n[e]][d := n[d]];
        TwoUpdates(nodes, e, n[e], d, n[d], e);
        assert n[e].nlink == 1 && Total(n, e) == 0;
        assert !NodeOk(n, e);
      }
    }
  }

  /** mkdir in a dead directory makes it live again, with a ".." its parent does not count. */
  lemma DeadDirCount(nodes: Nodes, d: nat, name: string, e: nat, n: Nodes)
    requires Inv(nodes) && 0 < d < |nodes| && nodes[d].kind == Dir && nodes[d].nlink == 0
    requires e == FirstFree(nodes, 1) && Create(nodes, d, name, Dir).out.Ok?
    requires Lookup(nodes[d].ents, name, 0) == |nodes[d].ents| && n == Create(nodes, d, name, Dir).nodes
    ensures !Inv(n)
  {
    CreateShape(nodes, d, name, Dir);
    NodeOf(nodes, d);
    var es := nodes[d].ents;
    var up, k := es[1].inum, Slot(es, 0);
    if Inv(n) {
      NodeOf(nodes, up);
      NodeOf(nodes, e);
      NodeOf(n, up);
      NodeOf(n, d);
      NamesPut(es, k, Ent(e, name), up);
      NamesOfEmpty(es, up);
      assert n == nodes[e := n[e]][d := n[d]];
      TwoUpdates(nodes, e, n[e], d, n[d], up);
      assert false;
    }
  }

  /** The same for link. */
  lemma LinkInDeadBreaks(nodes: Nodes, ip: nat, d: nat, name: string)
    requires Inv(nodes) && 0 < ip < |nodes| && nodes[ip].kind !in {Free, Dir} && nodes[ip].nlink < MAXLINK
    requires 0 < d < |nodes| && nodes[d].kind == Dir && Link(nodes, ip, d, name).out.Ok?
    ensures Inv(Link(nodes, ip, d, name).nodes) <==> LiveDir(nodes[d])
  {
    var n := Link(nodes, ip, d, name).nodes;
    NodeOf(nodes, ip);
    NodeOf(nodes, d);
    if LiveDir(nodes[d]) {
      LinkKeeps(nodes, ip, d, name);
    } else {
      assert n == nodes[ip := n[ip]][d := n[d]];
      TwoUpdates(nodes, ip, n[ip], d, n[d], ip);
      assert !NodeOk(n, ip);
    }
  }

  // ----- unlink undoes create -----

  /** After create of a new name, unlink of it gives back every inode as it was, but for an unused slot
      the directory may have grown by. */
  lemma UnlinkUndoesCreate(nodes: Nodes, d: nat, name: string, kind: Kind)
    requires Inv(nodes) && 0 < d < |nodes| && LiveDir(nodes[d]) && kind != Free
    requires Lookup(nodes[d].ents, name, 0) == |nodes[d].ents| && Create(nodes, d, name, kind).out.Ok?
    ensures var r := Unlink(Create(nodes, d, name, kind).nodes, d, name);
      && r.out == Ok(FirstFree(nodes, 1)) && |r.nodes| == |nodes|
      && (forall i :: 0 <= i < |nodes| && i != d ==> r.nodes[i] == nodes[i])
      && r.nodes[d].kind == Dir && r.nodes[d].nlink == nodes[d].nlink && r.nodes[d].refs == nodes[d].refs
      && (forall k :: 0 <= k < |r.nodes[d].ents| ==> SameSlot(nodes[d].ents, r.nodes[d].ents, k))
  {
    var es, e, n, k := nodes[d].ents, FirstFree(nodes, 1), Create(nodes, d, name, kind).nodes, Slot(nodes[d].ents, 0);
    NodeOf(nodes, d);
    NodeOf(nodes, e);
    RoomForSubdir(nodes, d);
    CreateShape(nodes, d, name, kind);
    assert name != "." && name != ".." by { assert Used(es[0]) && Used(es[1]); }
    LookupPut(es, k, Ent(e, name));
    var size := nodes[d].nlink;
    assert 0 < size < MAXENTS && nodes[e] == Inode(Free, 0, 0, []);
    hide Inv, NodeOk, Create, Lookup, Slot;
  }

  ghost predicate SameSlot(es: seq<Ent>, es': seq<Ent>, k: nat)
    requires k < |es'|
  {
    if k < |es| && Used(es[k]) then es'[k] == es[k] else !Used(es'[k])
  }

  lemma LookupPut(es: seq<Ent>, k: nat, e: Ent)
    requires k == Slot(es, 0) && Used(e) && Lookup(es, e.name, 0) == |es|
    ensures Lookup(PutEnt(es, k, e), e.name, 0) == k
  {
    var r := PutEnt(es, k, e);
    var f := Lookup(r, e.name, 0);
    assert Used(r[k]) && r[k].name == e.name;
    assert forall j :: 0 <= j < |es| && j != k ==> r[j] == es[j];
  }

  // ----- the directories form a tree -----

  ghost predicate Ranked(nodes: Nodes, rank: seq<nat>) {
    && |rank| == |nodes|
    && forall d :: 0 <= d < |nodes| && d != ROOT && LiveDir(nodes[d]) ==> Below(nodes, rank, d)
  }

  ghost predicate Below(nodes: Nodes, rank: seq<nat>, d: nat)
    requires d < |nodes| == |rank|
  {
    |nodes[d].ents| >= 2 && nodes[d].ents[1].inum < |nodes| && rank[nodes[d].ents[1].inum] < rank[d]
  }

  /** Going up from every live directory ends at the root. */
  ghost predicate Treelike(nodes: Nodes) { exists rank :: Ranked(nodes, rank) }

  function Climb(nodes: Nodes, d: nat, k: nat): nat
    decreases k
  {
    if k == 0 || d >= |nodes| || |nodes[d].ents| < 2 then d else Climb(nodes, nodes[d].ents[1].inum, k - 1)
  }

  lemma {:induction false} ClimbsToRoot(nodes: Nodes, rank: seq<nat>, d: nat, k: nat)
    requires Inv(nodes) && Ranked(nodes, rank) && d < |nodes| && LiveDir(nodes[d]) && rank[d] <= k
    ensures Climb(nodes, d, k) == ROOT || (d != ROOT && k == 0)
    ensures d != ROOT ==> k > 0
    decreases k
  {
    NodeOf(nodes, d);
    if d == ROOT {
      if k > 0 {
        RootStays(nodes, k - 1);
      }
    } else {
      assert Below(nodes, rank, d);
      ClimbsToRoot(nodes, rank, nodes[d].ents[1].inum, k - 1);
    }
  }

  lemma {:induction false} RootStays(nodes: Nodes, k: nat)
    requires Inv(nodes)
    ensures Climb(nodes, ROOT, k) == ROOT
  {
    NodeOf(nodes, ROOT);
    if k > 0 { RootStays(nodes, k - 1); }
  }

  ghost predicate UpKept(x: Inode, y: Inode) {
    LiveDir(x) && (|x.ents| >= 2 ==> |y.ents| >= 2 && y.ents[1] == x.ents[1])
  }

  lemma CreateRanked(nodes: Nodes, d: nat, name: string, kind: Kind, rank: seq<nat>)
    requires Inv(nodes) && 0 < d < |nodes| && LiveDir(nodes[d]) && kind != Free && Ranked(nodes, rank)
    ensures Treelike(Create(nodes, d, name, kind).nodes)
  {
    var r := Create(nodes, d, name, kind);
    if Lookup(nodes[d].ents, name, 0) == |nodes[d].ents| && r.out.Ok? {
      var e, n := FirstFree(nodes, 1), r.nodes;
      RoomForSubdir(nodes, d);
      CreateShape(nodes, d, name, kind);
      NodeOf(nodes, d);
      NodeOf(nodes, e);
      var rank' := rank[e := rank[d] + 1];
      forall i | 0 <= i < |n| && i != ROOT && LiveDir(n[i]) ensures Below(n, rank', i) {
        NodeOf(nodes, i);
        if i != e {
          assert Below(nodes, rank, i);
        }
      }
      assert Ranked(n, rank');
    } else {
      assert Ranked(r.nodes, rank);
    }
  }

  lemma UnlinkRanked(nodes: Nodes, d: nat, name: string, rank: seq<nat>)
    requires Inv(nodes) && 0 < d < |nodes| && LiveDir(nodes[d]) && Ranked(nodes, rank)
    ensures Ranked(Unlink(nodes, d, name).nodes, rank)
  {
    UnlinkFinds(nodes, d, name);
    var r := Unlink(nodes, d, name);
    if r.out.Ok? {
      var k, ip :| Removes(nodes, d, name, k, ip) && r.out == Ok(ip);
      UnlinkShape(nodes, d, name, k, ip);
    }
  }

  lemma LinkRanked(nodes: Nodes, ip: nat, d: int, name: string, rank: seq<nat>)
    requires Inv(nodes) && ip < |nodes| && d < |nodes| && (d >= 0 ==> LiveDir(nodes[d])) && Ranked(nodes, rank)
    ensures Ranked(Link(nodes, ip, d, name).nodes, rank)
  {
    if d >= 0 {
      NodeOf(nodes, d);
      assert Used(nodes[d].ents[0]) && Used(nodes[d].ents[1]);
    }
  }

  lemma RefsRanked(nodes: Nodes, i: nat, rank: seq<nat>)
    requires Inv(nodes) && 0 < i < |nodes| && Ranked(nodes, rank)
    ensures Ranked(Hold(nodes, i), rank)
    ensures nodes[i].refs > 0 ==> Ranked(Release(nodes, i), rank)
  {
  }

  lemma DoRanked(nodes: Nodes, cwd: nat, c: Call, rank: seq<nat>)
    requires Inv(nodes) && Ready(nodes, cwd, c) && LiveDir(nodes[cwd]) && Ranked(nodes, rank)
    ensures Treelike(Do(nodes, cwd, c).nodes)
  {
    hide Ranked, Elements, Walk, WalkParent, Link, Create, Unlink;
    var r := Do(nodes, cwd, c);
    match c
    case Creat(path, kind, hold) =>
      ParentIsLive(nodes, cwd, path);
      var d := WalkParent(nodes, Origin(path, cwd), Elements(path));
      if d.At? {
        CreateRanked(nodes, d.inum, Last(Elements(path)), kind, rank);
        CreateKeeps(nodes, d.inum, Last(Elements(path)), kind);
        var made := Create(nodes, d.inum, Last(Elements(path)), kind);
        var rank' :| Ranked(made.nodes, rank');
        if made.out.Ok? { RefsRanked(made.nodes, made.out.inum, rank'); }
      }
    case LinkCall(src, dst) =>
      ParentIsLive(nodes, cwd, dst);
      var ip := Walk(nodes, Origin(src, cwd), Elements(src));
      var d := WalkParent(nodes, Origin(dst, cwd), Elements(dst));
      if ip.At? && ip.inum < |nodes| {
        LinkRanked(nodes, ip.inum, if d.At? then d.inum else -1, Last(Elements(dst)), rank);
      }
    case UnlinkCall(path) =>
      ParentIsLive(nodes, cwd, path);
      var d := WalkParent(nodes, Origin(path, cwd), Elements(path));
      if d.At? { UnlinkRanked(nodes, d.inum, Last(Elements(path)), rank); }
    case Open(path) =>
      ParentIsLive(nodes, cwd, path);
      WalkIsLive(nodes, Origin(path, cwd), Elements(path));
      var ip := Walk(nodes, Origin(path, cwd), Elements(path));
      if ip.At? { RefsRanked(nodes, ip.inum, rank); }
    case Close(inum) => RefsRanked(nodes, inum, rank);
  }

  lemma MkfsTree(nodes: Nodes, slots: nat)
    requires |nodes| > ROOT && 2 <= slots <= MAXENTS && nodes == Mkfs(|nodes|, slots)
    ensures Treelike(nodes)
  {
    assert Ranked(nodes, seq(|nodes|, _ => 0));
  }

  lemma {:induction false} RunTree(ns: seq<Nodes>, cwds: seq<nat>, cs: seq<Call>, slots: nat, k: nat)
    requires Run(ns, cwds, cs) && |ns[0]| > ROOT && 2 <= slots <= MAXENTS && ns[0] == Mkfs(|ns[0]|, slots)
    requires k < |ns|
    ensures Treelike(ns[k])
  {
    hide Inv, Do, Ranked, Overflows, Mkfs;
    if k == 0 {
      MkfsTree(ns[0], slots);
    } else {
      RunTree(ns, cwds, cs, slots, k - 1);
      RunInv(ns, cwds, cs, slots, k - 1);
      assert Stepped(ns[k - 1], cwds[k - 1], cs[k - 1], ns[k]);
      var rank :| Ranked(ns[k - 1], rank);
      DoRanked(ns[k - 1], cwds[k - 1], cs[k - 1], rank);
    }
  }

  ghost predicate AtRootFrom(nodes: Nodes, d: nat, h: nat) { forall m: nat :: h <= m ==> Climb(nodes, d, m) == ROOT }

  /** In every run: following ".." from any live directory reaches the root, and stays there. */
  lemma EveryDirUnderRoot(ns: seq<Nodes>, cwds: seq<nat>, cs: seq<Call>, slots: nat, k: nat, d: nat)
    requires Run(ns, cwds, cs) && |ns[0]| > ROOT && 2 <= slots <= MAXENTS && ns[0] == Mkfs(|ns[0]|, slots)
    requires k < |ns| && d < |ns[k]| && LiveDir(ns[k][d])
    ensures exists h: nat :: AtRootFrom(ns[k], d, h)
  {
    RunInv(ns, cwds, cs, slots, k);
    RunTree(ns, cwds, cs, slots, k);
    var rank :| Ranked(ns[k], rank);
    forall m: nat | rank[d] <= m ensures Climb(ns[k], d, m) == ROOT { ClimbsToRoot(ns[k], rank, d, m); }
    assert AtRootFrom(ns[k], d, rank[d]);
  }
}
