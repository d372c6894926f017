/** The two ways to wrong link counts, as runs. */
module DirCases {
  import opened DirSpec
  import opened DirRuns

  lemma {:induction false} FirstFreeIs(nodes: Nodes, i: nat, e: nat)
    requires i <= e < |nodes| && nodes[e].kind == Free
    requires forall j :: i <= j < e ==> nodes[j].kind != Free
    ensures FirstFree(nodes, i) == e
    decreases e - i
  {
    if i < e { FirstFreeIs(nodes, i + 1, e); }
  }

  // ----- a file made in a removed directory -----

  lemma OneElement(name: string)
    requires PlainName(name) && |name| <= DIRSIZ
    ensures Elements(name) == [name]
  {
    ElementsOfSpell([name], [0, 0]);
    assert Spell([name], [0, 0]) == name;
  }

  ghost predicate Does(nodes: Nodes, cwd: nat, c: Call, n: Nodes) {
    Ready(nodes, cwd, c) && Do(nodes, cwd, c).out.Ok? && n == Do(nodes, cwd, c).nodes
  }

  /** mkdir a; chdir a; unlink a from the root; then create f in the working directory: every call
      succeeds, and the new file has a link that no live directory accounts for. */
  lemma DeadDirRun(n0: Nodes, slots: nat) returns (ns: seq<Nodes>)
    requires |n0| >= 4 && 2 <= slots <= MAXENTS && n0 == Mkfs(|n0|, slots)
    ensures |ns| == 5 && ns[0] == n0
    ensures Does(ns[0], ROOT, Creat("a", Dir, false), ns[1]) && Does(ns[1], ROOT, Open("a"), ns[2])
    ensures Does(ns[2], ROOT, UnlinkCall("a"), ns[3]) && Does(ns[3], 2, Creat("f", File, false), ns[4])
    ensures Inv(ns[3]) && !Inv(ns[4])
  {
    MkfsInv(|n0|, slots);
    OneElement("a");
    OneElement("f");
    var n1 := MakeA(n0, slots);
    var n2, n3 := UnlinkOpenA(n1);
    var n4 := CreateF(n3);
    ns := [n0, n1, n2, n3, n4];
  }

  /** `a` is inode 2, in slot 2 of the root, empty. */
  ghost predicate HasA(n: Nodes) {
    && Inv(n) && |n| >= 4 && n[2].kind == Dir && n[2].ents == [Ent(2, "."), Ent(ROOT, "..")] && n[3].kind == Free
    && LiveDir(n[ROOT])
  }

  lemma UnlinkOpenA(n1: Nodes) returns (n2: Nodes, n3: Nodes)
    requires HasA(n1) && n1[2].refs == 0 && n1[2].nlink == 1 && n1[ROOT].nlink == 2 && Elements("a") == ["a"]
    requires var es := n1[ROOT].ents; |es| > 2 && es[0].name == "." && es[1].name == ".." && es[2] == Ent(2, "a")
    ensures Does(n1, ROOT, Open("a"), n2) && Does(n2, ROOT, UnlinkCall("a"), n3)
    ensures HasA(n3) && n3[2].nlink == 0
  {
    n2 := Hold(n1, 2);
    HoldReleaseKeep(n1, 2);
    assert Lookup(n1[ROOT].ents, "a", 0) == 2;
    assert Walk(n1, 2, []) == At(2) && Walk(n1, ROOT, ["a"]) == At(2);
    n3 := Unlink(n2, ROOT, "a").nodes;
    UnlinkKeeps(n2, ROOT, "a");
    hide Inv;
    assert Walk(n2, ROOT, []) == At(ROOT) && WalkParent(n2, ROOT, ["a"]) == At(ROOT);
  }

  lemma CreateF(n3: Nodes) returns (n4: Nodes)
    requires HasA(n3) && n3[2].nlink == 0 && Elements("f") == ["f"]
    ensures Does(n3, 2, Creat("f", File, false), n4) && !Inv(n4)
  {
    var es := n3[2].ents;
    assert Lookup(es, "f", 0) == |es| && Slot(es, 0) == 2;
    FirstFreeIs(n3, 1, 3);
    n4 := Create(n3, 2, "f", File).nodes;
    CreateInDeadBreaks(n3, 2, "f", File);
    hide Inv;
    assert Walk(n3, 2, []) == At(2) && WalkParent(n3, 2, ["f"]) == At(2);
  }

  lemma MakeA(n0: Nodes, slots: nat) returns (n1: Nodes)
    requires |n0| >= 4 && 2 <= slots <= MAXENTS && n0 == Mkfs(|n0|, slots) && Inv(n0) && Elements("a") == ["a"]
    ensures Does(n0, ROOT, Creat("a", Dir, false), n1) && Inv(n1) && |n1| == |n0|
    ensures n1[2] == Inode(Dir, 1, 0, [Ent(2, "."), Ent(ROOT, "..")]) && n1[3].kind == Free
    ensures var es := n1[ROOT].ents;
      LiveDir(n1[ROOT]) && |es| > 2 && es[0].name == "." && es[1].name == ".." && es[2] == Ent(2, "a") && n1[ROOT].nlink == 2
  {
    n1 := Create(n0, ROOT, "a", Dir).nodes;
    assert Walk(n0, ROOT, []) == At(ROOT) && WalkParent(n0, ROOT, ["a"]) == At(ROOT);
    FirstFreeIs(n0, 1, 2);
    var es := n0[ROOT].ents;
    assert Used(es[0]) && Used(es[1]) && (slots > 2 ==> !Used(es[2]));
    assert Lookup(es, "a", 0) == |es| && Slot(es, 0) == 2;
    hide Mkfs;
    CreateKeeps(n0, ROOT, "a", Dir);
    CreateShape(n0, ROOT, "a", Dir);
    hide Inv, Create, Lookup, Slot;
  }

  // ----- one link too many -----

  /** A distinct printable name for each slot of a directory. */
  function NameOf(k: nat): string
    requires k < MAXENTS
  {
    [(48 + k / 70) as char, (48 + k % 70) as char]
  }

  lemma NamesDiffer(j: nat, k: nat)
    requires j < MAXENTS && k < MAXENTS && j != k
    ensures NameOf(j) != NameOf(k)
  {
  }

  /** All slots used, slot `k` under its own name. */
  ghost predicate Packed(es: seq<Ent>) {
    && 2 <= |es| <= MAXENTS && es[0].name == "." && es[1].name == ".."
    && (forall k :: 0 <= k < |es| ==> Used(es[k]))
    && (forall k :: 2 <= k < |es| ==> es[k].name == NameOf(k))
  }

  lemma PackedRoom(es: seq<Ent>)
    requires Packed(es) && |es| < MAXENTS
    ensures Slot(es, 0) == |es| && Lookup(es, NameOf(|es|), 0) == |es|
  {
    var f := Lookup(es, NameOf(|es|), 0);
    assert NameOf(|es|)[0] != '.';
    if 2 <= f < |es| { NamesDiffer(f, |es|); }
  }

  const DIRS: nat := 8

  /** `q` subdirectories of the root so far. */
  ghost predicate DirsMade(nodes: Nodes, q: nat) {
    && Inv(nodes) && 2 + q < |nodes| && Packed(nodes[ROOT].ents) && |nodes[ROOT].ents| == 2 + q
    && (forall i :: 2 <= i < 2 + q ==> nodes[i] == Inode(Dir, 1, 0, [Ent(i, "."), Ent(ROOT, "..")]))
    && (forall i :: 2 + q <= i < |nodes| ==> nodes[i].kind == Free)
  }

  lemma MakeOne(nodes: Nodes, q: nat, kind: Kind) returns (n: Nodes)
    requires DirsMade(nodes, q) && q < 100 && kind != Free
    ensures Inv(n) && |n| == |nodes| && n[2 + q].kind == kind && n[2 + q].nlink == 1
    ensures kind == Dir && 3 + q < |n| ==> DirsMade(n, q + 1)
    ensures forall i :: 2 <= i < 2 + q ==> n[i] == nodes[i]
  {
    var es, name := nodes[ROOT].ents, NameOf(2 + q);
    PackedRoom(es);
    forall j | 1 <= j < 2 + q ensures nodes[j].kind != Free {}
    FirstFreeIs(nodes, 1, 2 + q);
    RoomForSubdir(nodes, ROOT);
    CreateKeeps(nodes, ROOT, name, kind);
    CreateShape(nodes, ROOT, name, kind);
    n := Create(nodes, ROOT, name, kind).nodes;
  }

  /** File `f` has its links in the first directories; those from `d` on are empty. */
  ghost predicate Filled(nodes: Nodes, f: nat, d: nat) {
    && Inv(nodes) && 2 <= d <= f < |nodes| && nodes[f].kind == File
    && (forall i :: d <= i < f ==> LiveDir(nodes[i]) && Packed(nodes[i].ents) && |nodes[i].ents| == 2)
  }

  /** One more link, in directory `d`. */
  lemma LinkOne(nodes: Nodes, f: nat, d: nat) returns (n: Nodes)
    requires Inv(nodes) && 2 <= d < f < |nodes| && nodes[f].kind == File && LiveDir(nodes[d])
    requires Packed(nodes[d].ents) && |nodes[d].ents| < MAXENTS
    ensures Link(nodes, f, d, NameOf(|nodes[d].ents|)).out.Ok? && n == Link(nodes, f, d, NameOf(|nodes[d].ents|)).nodes
    ensures |n| == |nodes| && n[f] == nodes[f].(nlink := Inc(nodes[f].nlink)) && LiveDir(n[d])
    ensures Packed(n[d].ents) && |n[d].ents| == |nodes[d].ents| + 1
    ensures forall i :: 0 <= i < |n| && i != f && i != d ==> n[i] == nodes[i]
    ensures Inv(n) <==> nodes[f].nlink < MAXLINK
  {
    var es := nodes[d].ents;
    PackedRoom(es);
    LinkKeeps(nodes, f, d, NameOf(|es|));
    n := Link(nodes, f, d, NameOf(|es|)).nodes;
    assert n[d].ents == es + [Ent(f, NameOf(|es|))];
  }

  /** Links in directory `d` until it is full or the count is. */
  lemma FillDir(nodes: Nodes, f: nat, d: nat) returns (n: Nodes)
    requires Filled(nodes, f, d) && d < f && nodes[f].nlink <= MAXLINK
    ensures |n| == |nodes| && Filled(n, f, d + 1)
    ensures nodes[f].nlink + 4400 <= MAXLINK ==> n[f].nlink == nodes[f].nlink + 4400
    ensures nodes[f].nlink + 4400 > MAXLINK ==> n[f].nlink == MAXLINK
    ensures LiveDir(n[d]) && Packed(n[d].ents) && |n[d].ents| < MAXENTS
  {
    n := nodes;
    var c := 0;
    while c < 4400 && n[f].nlink < MAXLINK
      invariant c <= 4400 && |n| == |nodes| && Inv(n) && n[f].kind == File && n[f].nlink == nodes[f].nlink + c <= MAXLINK
      invariant LiveDir(n[d]) && Packed(n[d].ents) && |n[d].ents| == 2 + c
      invariant forall i :: 0 <= i < |n| && i != f && i != d ==> n[i] == nodes[i]
    {
      n := LinkOne(n, f, d);
      c := c + 1;
    }
  }

  /** With room for them on the disk, 32767 names of one file are all counted, and one more link is
      granted and takes the 16-bit count below zero. It takes more directory blocks than mkfs's disk
      of 1000 blocks has. */
  lemma LinkOverflows(ninodes: nat) returns (nodes: Nodes, d: nat, name: string)
    requires ninodes >= DIRS + 3
    ensures Inv(nodes) && |nodes| == ninodes && d < |nodes| && LiveDir(nodes[d])
    ensures nodes[2 + DIRS].kind == File && nodes[2 + DIRS].nlink == MAXLINK
    ensures var r := Link(nodes, 2 + DIRS, d, name);
      r.out.Ok? && r.nodes[2 + DIRS].nlink == MINLINK && !Inv(r.nodes)
  {
    nodes := Mkfs(ninodes, 2);
    MkfsInv(ninodes, 2);
    var q := 0;
    while q < DIRS
      invariant q <= DIRS && |nodes| == ninodes && DirsMade(nodes, q)
    {
      nodes := MakeOne(nodes, q, Dir);
      q := q + 1;
    }
    nodes := MakeOne(nodes, DIRS, File);
    var f := 2 + DIRS;
    d := 2;
    while d < f
      invariant 2 <= d <= f && |nodes| == ninodes && Filled(nodes, f, d)
      invariant nodes[f].nlink == if d < f then 1 + 4400 * (d - 2) else MAXLINK
      invariant d > 2 ==> LiveDir(nodes[d - 1]) && Packed(nodes[d - 1].ents) && |nodes[d - 1].ents| < MAXENTS
    {
      nodes := FillDir(nodes, f, d);
      d := d + 1;
    }
    d := f - 1;
    name := NameOf(|nodes[d].ents|);
    var n := LinkOne(nodes, f, d);
  }
}
