/** The directory code of fs.c and sysfile.c over an inode table updated in place, with the path
    scanner's loops. */
module DirCode {
  import opened DirSpec
  import opened DirRuns

  /** Every entry names a slot of the inode table. */
  ghost predicate InTable(nodes: Nodes) {
    forall d, k :: 0 <= d < |nodes| && 0 <= k < |nodes[d].ents| ==> nodes[d].ents[k].inum < |nodes|
  }

  lemma FirstDot(m: Nodes, i: nat)
    requires i < |m| && m[i].ents == []
    ensures DirLink(m, i, ".", i) == Result(m[i := m[i].(ents := [Ent(i, ".")])], Ok(i))
  {
    assert PutEnt([], 0, Ent(i, ".")) == [Ent(i, ".")];
  }

  lemma SecondDot(m: Nodes, i: nat, d: nat)
    requires i < |m| && 0 < i && m[i].ents == [Ent(i, ".")]
    ensures DirLink(m, i, "..", d) == Result(m[i := m[i].(ents := [Ent(i, "."), Ent(d, "..")])], Ok(d))
  {
    assert Slot(m[i].ents, 1) == 1 && Lookup(m[i].ents, "..", 1) == 1;
    assert "." != "..";
    assert PutEnt([Ent(i, ".")], 1, Ent(d, "..")) == [Ent(i, "."), Ent(d, "..")];
  }

  lemma SliceOfTail(path: string, s: nat, n: nat)
    requires s + n <= |path|
    ensures path[s..][..n] == path[s..s + n] && path[s..][n..] == path[s + n..]
  {
  }

  lemma SkipElemIs(path: string)
    ensures SkipElem(path) ==
      (var p := SkipSlashes(path);
       if p == "" then NoElem else Elem(Trunc(p[..ElemLen(p)]), SkipSlashes(p[ElemLen(p)..])))
  {
  }

  lemma Truncates(path: string, s: nat, i: nat)
    requires s <= i <= |path|
    ensures Trunc(path[s..i]) == if i - s >= DIRSIZ then path[s..s + DIRSIZ] else path[s..i]
  {
  }

  class Table {
    const nodes: array<Inode>

    constructor (table: array<Inode>)
      ensures nodes == table
    {
      nodes := table;
    }

    /** The index after the slashes at `from`. */
    method PastSlashes(path: string, from: nat) returns (i: nat)
      requires from <= |path|
      ensures from <= i <= |path| && path[i..] == SkipSlashes(path[from..])
    {
      i := from;
      while i < |path| && path[i] == '/'
        invariant from <= i <= |path| && SkipSlashes(path[from..]) == SkipSlashes(path[i..])
      {
        i := i + 1;
      }
    }

    /** The index where the element at `s` ends. */
    method ElemEnd(path: string, s: nat) returns (i: nat)
      requires s <= |path|
      ensures s <= i <= |path| && i == s + ElemLen(path[s..])
    {
      i := s;
      while i < |path| && path[i] != '/'
        invariant s <= i <= |path| && ElemLen(path[s..]) == (i - s) + ElemLen(path[i..])
      {
        assert path[i..][1..] == path[i + 1..];
        i := i + 1;
      }
    }

    /** skipelem: the next element, truncated to DIRSIZ, and the path after its slashes. */
    method NextElem(path: string) returns (r: Elem)
      ensures r == SkipElem(path)
    {
      hide SkipSlashes, ElemLen, Trunc, SkipElem;
      SkipElemIs(path);
      var s := PastSlashes(path, 0);
      ghost var p := path[s..];
      assert path[0..] == path;
      if s == |path| {
        return NoElem;
      }
      var i := ElemEnd(path, s);
      SliceOfTail(path, s, ElemLen(p));
      var name := if i - s >= DIRSIZ then path[s..s + DIRSIZ] else path[s..i];
      Truncates(path, s, i);
      i := PastSlashes(path, i);
      return Elem(name, path[i..]);
    }

    /** dirlookup's scan. */
    method DirLookup(d: nat, name: string) returns (k: nat)
      requires d < nodes.Length
      ensures k == Lookup(nodes[d].ents, name, 0)
    {
      k := 0;
      while k < |nodes[d].ents|
        invariant k <= |nodes[d].ents| && Lookup(nodes[d].ents, name, k) == Lookup(nodes[d].ents, name, 0)
      {
        if nodes[d].ents[k].inum != 0 && nodes[d].ents[k].name == name {
          return;
        }
        k := k + 1;
      }
    }

    method IsDirEmpty(d: nat) returns (empty: bool)
      requires d < nodes.Length
      ensures empty <==> DirEmpty(nodes[d].ents)
    {
      var k := 2;
      while k < |nodes[d].ents|
        invariant 2 <= k && forall j :: 2 <= j < k && j < |nodes[d].ents| ==> !Used(nodes[d].ents[j])
      {
        if nodes[d].ents[k].inum != 0 {
          assert Used(nodes[d].ents[k]);
          return false;
        }
        k := k + 1;
      }
      return true;
    }

    /** dirlink. */
    method Enter(d: nat, name: string, inum: nat) returns (out: Outcome)
      requires d < nodes.Length
      modifies nodes
      ensures Result(nodes[..], out) == DirLink(old(nodes[..]), d, name, inum)
    {
      var f := DirLookup(d, name);
      if f < |nodes[d].ents| {
        return Fail;
      }
      var k := 0;
      while k < |nodes[d].ents|
        invariant k <= |nodes[d].ents| && nodes[..] == old(nodes[..]) && Slot(nodes[d].ents, k) == Slot(nodes[d].ents, 0)
      {
        if nodes[d].ents[k].inum == 0 {
          break;
        }
        k := k + 1;
      }
      if k >= MAXENTS {
        return Panic;
      }
      nodes[d] := nodes[d].(ents := PutEnt(nodes[d].ents, k, Ent(inum, name)));
      return Ok(inum);
    }

    /** ialloc's scan. */
    method Ialloc() returns (i: nat)
      requires nodes.Length > 0
      ensures i == FirstFree(nodes[..], 1)
    {
      i := 1;
      while i < nodes.Length
        invariant 1 <= i <= nodes.Length && FirstFree(nodes[..], i) == FirstFree(nodes[..], 1)
      {
        if nodes[i].kind == Free {
          return;
        }
        i := i + 1;
      }
    }

    /** create's "." and "..", after counting the latter. */
    method AddDots(i: nat, d: nat)
      requires 0 < i < nodes.Length && 0 < d < nodes.Length && i != d && nodes[i].ents == []
      modifies nodes
      ensures nodes[..] == old(nodes[..])[i := old(nodes[i]).(ents := [Ent(i, "."), Ent(d, "..")])]
                                         [d := old(nodes[d]).(nlink := Inc(old(nodes[d]).nlink))]
    {
      hide DirLink;
      nodes[d] := nodes[d].(nlink := Inc(nodes[d].nlink));
      ghost var m := nodes[..];
      FirstDot(m, i);
      var a := Enter(i, ".", i);
      ghost var n := nodes[..];
      SecondDot(n, i, d);
      var b := Enter(i, "..", d);
    }

    /** create, in the directory nameiparent found. */
    method Create(d: nat, name: string, kind: Kind) returns (out: Outcome)
      requires 0 < d < nodes.Length && kind != Free && InTable(nodes[..]) && nodes[d].kind == Dir
      modifies nodes
      ensures out == DirSpec.Create(old(nodes[..]), d, name, kind).out
      ensures out != Panic ==> nodes[..] == DirSpec.Create(old(nodes[..]), d, name, kind).nodes
    {
      ghost var ns := nodes[..];
      var f := DirLookup(d, name);
      if f < |nodes[d].ents| {
        var ip := nodes[d].ents[f].inum;
        assert ns[d].ents[f].inum < |ns|;
        if kind == File && nodes[ip].kind == File {
          return Ok(ip);
        }
        return Fail;
      }
      var i := Ialloc();
      if i == nodes.Length {
        return Panic;
      }
      nodes[i] := Inode(kind, 0, 0, []);
      nodes[i] := nodes[i].(nlink := 1);
      if kind == Dir {
        AddDots(i, d);
      }
      out := Enter(d, name, i);
      if !out.Ok? {
        return Panic;
      }
    }

    /** sys_link after namei: count first, undo on failure; `d < 0` is nameiparent's failure. */
    method Link(ip: nat, d: int, name: string) returns (out: Outcome)
      requires ip < nodes.Length && d < nodes.Length
      modifies nodes
      ensures Result(nodes[..], out) == DirSpec.Link(old(nodes[..]), ip, d, name)
    {
      if nodes[ip].kind == Dir {
        return Fail;
      }
      nodes[ip] := nodes[ip].(nlink := Inc(nodes[ip].nlink));
      assert nodes[..] == old(nodes[..])[ip := nodes[ip]];
      out := Fail;
      if d >= 0 {
        out := Enter(d, name, ip);
      }
      if out == Fail {
        nodes[ip] := nodes[ip].(nlink := Dec(nodes[ip].nlink));
      }
    }

    /** sys_unlink, in the directory nameiparent found. */
    method Unlink(d: nat, name: string) returns (out: Outcome)
      requires d < nodes.Length && InTable(nodes[..]) && nodes[d].kind == Dir
      modifies nodes
      ensures Result(nodes[..], out) == DirSpec.Unlink(old(nodes[..]), d, name)
    {
      ghost var ns := nodes[..];
      if name == "." || name == ".." {
        return Fail;
      }
      var k := DirLookup(d, name);
      if k == |nodes[d].ents| {
        return Fail;
      }
      var ip := nodes[d].ents[k].inum;
      assert ns[d].ents[k].inum < |ns|;
      if nodes[ip].nlink < 1 {
        return Panic;
      }
      if nodes[ip].kind == Dir {
        var empty := IsDirEmpty(ip);
        if !empty {
          return Fail;
        }
      }
      var kind := nodes[ip].kind;
      nodes[d] := nodes[d].(ents := nodes[d].ents[k := Ent(0, "")]);
      if kind == Dir {
        nodes[d] := nodes[d].(nlink := Dec(nodes[d].nlink));
      }
      assert nodes[..] == ns[d := nodes[d]];
      nodes[ip] := nodes[ip].(nlink := Dec(nodes[ip].nlink));
      if nodes[ip].nlink == 0 && nodes[ip].refs == 0 {
        nodes[ip] := Inode(Free, 0, 0, []);
      }
      return Ok(ip);
    }

    /** namex: namei, or nameiparent with the last element. */
    method NameX(path: string, cwd: nat, parent: bool) returns (f: Found, name: string)
      requires cwd < nodes.Length && ROOT < nodes.Length && InTable(nodes[..])
      ensures !parent ==> f == Walk(nodes[..], Origin(path, cwd), Elements(path))
      ensures parent ==> f == WalkParent(nodes[..], Origin(path, cwd), Elements(path))
      ensures parent && f.At? ==> name == Last(Elements(path))
    {
      var ip: nat := Origin(path, cwd);
      var rest := path;
      name := "";
      ghost var ns, o, all := nodes[..], Origin(path, cwd), Elements(path);
      hide Elements, Walk, WalkParent;
      while true
        invariant ip < nodes.Length
        invariant Walk(ns, o, all) == Walk(ns, ip, Elements(rest))
        invariant WalkParent(ns, o, all) == WalkParent(ns, ip, Elements(rest))
        invariant Elements(rest) != [] ==> Last(all) == Last(Elements(rest))
        decreases |rest|
      {
        WalkOpen(ns, ip, Elements(rest));
        var e := NextElem(rest);
        if e.NoElem? {
          break;
        }
        name, rest := e.name, e.rest;
        if nodes[ip].kind != Dir {
          return NotFound, name;
        }
        if parent && rest == "" {
          return At(ip), name;
        }
        var k := DirLookup(ip, name);
        if k == |nodes[ip].ents| {
          return NotFound, name;
        }
        assert ns[ip].ents[k].inum < |ns|;
        ip := nodes[ip].ents[k].inum;
        if !parent && rest == "" {
          break;
        }
      }
      WalkOpen(ns, ip, Elements(rest));
      if parent {
        return NotFound, name;
      }
      return At(ip), name;
    }
  }

  /** One turn of the walk. */
  lemma WalkOpen(nodes: Nodes, i: nat, names: seq<string>)
    requires i < |nodes|
    ensures names == [] ==> Walk(nodes, i, names) == At(i) && WalkParent(nodes, i, names) == NotFound
    ensures names != [] && nodes[i].kind != Dir ==>
      Walk(nodes, i, names) == NotFound && WalkParent(nodes, i, names) == NotFound
    ensures |names| == 1 && nodes[i].kind == Dir ==> WalkParent(nodes, i, names) == At(i)
    ensures names != [] && nodes[i].kind == Dir ==>
      var k := Lookup(nodes[i].ents, names[0], 0);
      var found := k < |nodes[i].ents| && nodes[i].ents[k].inum < |nodes|;
      && Walk(nodes, i, names) == (if found then Walk(nodes, nodes[i].ents[k].inum, names[1..]) else NotFound)
      && (|names| > 1 && found ==> WalkParent(nodes, i, names) == WalkParent(nodes, nodes[i].ents[k].inum, names[1..]))
      && (|names| > 1 && !found ==> WalkParent(nodes, i, names) == NotFound)
  {
    if |names| > 1 {
      assert names[..|names| - 1][1..] == names[1..][..|names| - 2];
    }
  }
}
