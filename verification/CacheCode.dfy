/** bio.c's own code: the doubly linked LRU list relinked in place, with bget's two scans. */
module CacheCode {
  import opened Blocks
  import opened CacheSpec

  datatype Link = Link(prev: nat, next: nat)

  /** Head, buffers, head again. */
  ghost function Ring(h: nat, order: seq<nat>): (r: seq<nat>)
    ensures |r| == |order| + 2 && r[0] == r[|order| + 1] == h
    ensures forall k :: 1 <= k <= |order| ==> r[k] == order[k - 1]
  {
    [h] + order + [h]
  }

  /** The `k`th and next members of a ring point at each other. */
  ghost predicate Adjacent(l: seq<Link>, r: seq<nat>, k: nat) {
    && k + 1 < |r| && r[k] < |l| && r[k + 1] < |l|
    && l[r[k]].next == r[k + 1] && l[r[k + 1]].prev == r[k]
  }

  ghost predicate Chained(l: seq<Link>, r: seq<nat>) {
    forall k :: 0 <= k < |r| - 1 ==> Adjacent(l, r, k)
  }

  /** The list through prev/next: the head is the last link, `order` the buffers from head.next on. */
  ghost predicate Linked(l: seq<Link>, order: seq<nat>) {
    && |l| > 0
    && (forall k :: 0 <= k < |order| ==> order[k] < |l| - 1)
    && (forall j, k :: 0 <= j < k < |order| ==> order[j] != order[k])
    && Chained(l, Ring(|l| - 1, order))
  }

  function Unlink(l: seq<Link>, b: nat): (r: seq<Link>)
    requires b < |l| && l[b].next < |l| && l[b].prev < |l|
    ensures |r| == |l|
  {
    var p, q := l[b].prev, l[b].next;
    var m := l[q := l[q].(prev := p)];
    m[p := m[p].(next := q)]
  }

  function InsertFront(l: seq<Link>, b: nat): seq<Link>
    requires |l| > 0 && b < |l| - 1 && l[|l| - 1].next < |l|
  {
    var h := |l| - 1;
    var f := l[h].next;
    var m := l[b := Link(h, f)];
    var m2 := m[f := m[f].(prev := b)];
    m2[h := m2[h].(next := b)]
  }

  lemma UnlinkElsewhere(l: seq<Link>, order: seq<nat>, k: nat, i: nat)
    requires Linked(l, order) && k < |order| && i <= |order| && i != k && i != k + 1
    ensures var r := Ring(|l| - 1, order);
      l[r[k + 1]].next < |l| && l[r[k + 1]].prev < |l| && Adjacent(Unlink(l, r[k + 1]), r, i)
  {
    hide Ring;
    var r := Ring(|l| - 1, order);
    assert Adjacent(l, r, i) && Adjacent(l, r, k) && Adjacent(l, r, k + 1);
  }

  lemma UnlinkAcross(l: seq<Link>, order: seq<nat>, k: nat)
    requires Linked(l, order) && k < |order|
    ensures l[order[k]].next < |l| && l[order[k]].prev < |l|
    ensures var r, u := Ring(|l| - 1, order), Unlink(l, order[k]); u[r[k]].next == r[k + 2] && u[r[k + 2]].prev == r[k]
  {
    var r := Ring(|l| - 1, order);
    assert Adjacent(l, r, k) && Adjacent(l, r, k + 1);
  }

  lemma UnlinkLinked(l: seq<Link>, order: seq<nat>, k: nat)
    requires Linked(l, order) && k < |order|
    ensures l[order[k]].next < |l| && l[order[k]].prev < |l|
    ensures Linked(Unlink(l, order[k]), order[..k] + order[k + 1..])
  {
    hide Adjacent, Chained, Unlink, Ring;
    UnlinkAcross(l, order, k);
    var h, order' := |l| - 1, order[..k] + order[k + 1..];
    var r, r', u := Ring(h, order), Ring(h, order'), Unlink(l, order[k]);
    forall i | 0 <= i <= |order| && i != k && i != k + 1 ensures Adjacent(u, r, i) {
      UnlinkElsewhere(l, order, k, i);
    }
    ShorterChain(u, order, k);
  }

  lemma ShorterChain(u: seq<Link>, order: seq<nat>, k: nat)
    requires |u| > 0 && k < |order|
    requires var r := Ring(|u| - 1, order);
      && (forall i :: 0 <= i <= |order| && i != k && i != k + 1 ==> Adjacent(u, r, i))
      && r[k] < |u| && r[k + 2] < |u| && u[r[k]].next == r[k + 2] && u[r[k + 2]].prev == r[k]
    ensures Chained(u, Ring(|u| - 1, order[..k] + order[k + 1..]))
  {
    hide Ring;
    var r, r' := Ring(|u| - 1, order), Ring(|u| - 1, order[..k] + order[k + 1..]);
    forall j | 0 <= j < |r'| - 1 ensures Adjacent(u, r', j) {
      assert r'[j] == r[if j <= k then j else j + 1] && r'[j + 1] == r[if j + 1 <= k then j + 1 else j + 2];
      if j != k { assert Adjacent(u, r, if j < k then j else j + 1); }
    }
  }

  lemma InsertFrontLinked(l: seq<Link>, order: seq<nat>, b: nat)
    requires Linked(l, order) && b < |l| - 1 && b !in order
    ensures l[|l| - 1].next < |l|
    ensures Linked(InsertFront(l, b), [b] + order)
  {
    hide Ring;
    var h, order' := |l| - 1, [b] + order;
    var r, r' := Ring(h, order), Ring(h, order');
    assert Adjacent(l, r, 0);
    var u := InsertFront(l, b);
    forall j | 0 <= j <= |order'| ensures Adjacent(u, r', j) {
      if j >= 2 {
        assert Adjacent(l, r, j - 1);
        assert r'[j] == r[j - 1] && r'[j + 1] == r[j];
      }
    }
  }

  /** When nobody holds the block's buffer, bget's choice is nobody's. */
  lemma FreeLock(s: State, b: nat)
    requires Inv(s) && CanGet(s, b)
    requires forall i :: 0 <= i < |s.bufs| && Holds(s.bufs[i], 1, b) ==> s.bufs[i].owner.None?
    ensures Got(s, b) < |s.bufs| && s.bufs[Got(s, b)].owner.None?
  {
    GetChoice(s, b);
    if Lookup(s.bufs, s.order, 0, 1, b).None? { Unused(s, Got(s, b)); }
  }

  class BCache {
    const links: array<Link>   // prev and next of bcache.buf's buffers, then of bcache.head
    const bufs: array<Buf>     // their other fields
    var disk: seq<Block>
    ghost var s: State

    ghost predicate Valid()
      reads this, links, bufs
    {
      && links.Length == bufs.Length + 1 && Linked(links[..], s.order)
      && Inv(s) && bufs[..] == s.bufs && disk == s.disk
    }

    /** binit */
    constructor (nbuf: nat, disk: seq<Block>)
      requires disk != []
      ensures Valid() && Init(s) && |s.bufs| == nbuf && s.disk == disk && fresh(links) && fresh(bufs)
    {
      var b0 := Buf(false, false, 0, 0, 0, None, ZeroBlock());
      links := new Link[nbuf + 1](_ => Link(nbuf, nbuf));
      bufs := new Buf[nbuf](_ => b0);
      this.disk := disk;
      new;
      var i := 0;
      ghost var order: seq<nat> := [];
      while i < nbuf
        invariant i <= nbuf && Linked(links[..], order) && this.disk == disk
        invariant |order| == i && forall k :: 0 <= k < |order| ==> order[k] < i
        invariant forall j :: 0 <= j < nbuf ==> bufs[j] == b0
      {
        InsertFrontLinked(links[..], order, i);
        PushFront(i);
        order := [i] + order;
        i := i + 1;
      }
      s := State(bufs[..], order, disk, disk, []);
      InitInv(s);
    }

    /** The four assignments that put a buffer right after the head. */
    method PushFront(b: nat)
      requires links.Length > 0 && b < links.Length - 1 && links[links.Length - 1].next < links.Length
      modifies links
      ensures links[..] == InsertFront(old(links[..]), b)
    {
      var h := links.Length - 1;
      var f := links[h].next;
      links[b] := links[b].(next := f, prev := h);
      links[f] := links[f].(prev := b);
      links[h] := links[h].(next := b);
    }

    /** bget's first loop: is the block cached? */
    method ScanForward(b: nat) returns (r: Option<nat>)
      requires Valid()
      ensures var l := Lookup(s.bufs, s.order, 0, 1, b);
        if l.Some? then r == Some(s.order[l.value]) else r.None?
    {
      hide Inv, BufOk, Ring;
      ghost var ring := Ring(links.Length - 1, s.order);
      var h := links.Length - 1;
      assert Adjacent(links[..], ring, 0);
      var i := links[h].next;
      ghost var k := 0;
      while i != h
        invariant 0 <= k <= |s.order| && i == ring[k + 1]
        invariant Lookup(s.bufs, s.order, 0, 1, b) == Lookup(s.bufs, s.order, k, 1, b)
        decreases |s.order| - k
      {
        assert bufs[..][i] == s.bufs[i];
        if bufs[i].dev == 1 && bufs[i].blockno == b { return Some(i); }
        assert Adjacent(links[..], ring, k + 1);
        i := links[i].next;
        k := k + 1;
      }
      r := None;
    }

    /** bget's second loop: the least recently used buffer nobody needs. */
    method ScanBackward() returns (r: Option<nat>)
      requires Valid()
      ensures var v := Victim(s.bufs, s.order, |s.order|);
        if v.Some? then r == Some(s.order[v.value]) else r.None?
    {
      hide Inv, BufOk, Ring;
      ghost var ring := Ring(links.Length - 1, s.order);
      var h := links.Length - 1;
      ghost var k := |s.order|;
      assert Adjacent(links[..], ring, k);
      var i := links[h].prev;
      while i != h
        invariant 0 <= k <= |s.order| && i == ring[k]
        invariant Victim(s.bufs, s.order, |s.order|) == Victim(s.bufs, s.order, k)
        decreases k
      {
        assert bufs[..][i] == s.bufs[i];
        if bufs[i].refcnt == 0 && !bufs[i].dirty { return Some(i); }
        assert Adjacent(links[..], ring, k - 1);
        i := links[i].prev;
        k := k - 1;
      }
      r := None;
    }

    /** bget's critical section; None is the panic "bget: no buffers". */
    method Bget(b: nat, ghost pid: nat) returns (r: Option<nat>)
      requires Valid() && b < |disk|
      modifies bufs, this`s
      ensures Valid() && (r.Some? <==> CanGet(old(s), b))
      ensures if r.Some? then r.value == Got(old(s), b) && s == Next(old(s), Get(pid, b)) else s == old(s)
    {
      hide Inv, Victim, Lookup, Linked;
      r := ScanForward(b);
      if r.Some? {
        Put(r.value, bufs[r.value].(refcnt := bufs[r.value].refcnt + 1), Get(pid, b));
        return;
      }
      r := ScanBackward();
      if r.Some? {
        Put(r.value, bufs[r.value].(dev := 1, blockno := b, valid := false, dirty := false, refcnt := 1), Get(pid, b));
      }
    }

    /** A buffer's fields overwritten, as one step of the machine that leaves list and disk alone. */
    method Put(i: nat, o: Buf, ghost t: Step)
      requires Valid() && i < |s.bufs| && Enabled(s, t)
      requires Next(s, t).bufs == s.bufs[i := o] && Next(s, t).order == s.order && Next(s, t).disk == s.disk
      modifies bufs, this`s
      ensures Valid() && s == Next(old(s), t)
    {
      hide Linked, Inv, Next, Enabled;
      NextKeepsInv(s, t);
      bufs[i] := o;
      s := Next(s, t);
    }

    /** acquiresleep, in the moment it finds the lock free. */
    method Acquire(i: nat, pid: nat, ghost k: nat)
      requires Valid() && Enabled(s, Lock(k)) && s.calls[k].buf == i && s.calls[k].pid == pid
      modifies bufs, this`s
      ensures Valid() && s == Next(old(s), Lock(k))
    {
      hide Linked, Inv;
      Put(i, bufs[i].(owner := Some(pid)), Lock(k));
    }

    /** The rest of bread: whoever was at the buffer while this process waited, it now holds the
        content last given to the block asked for. */
    method ReadIn(i: nat, ghost k: nat)
      requires Valid() && Enabled(s, Fill(k)) && s.calls[k].buf == i
      modifies bufs, this`s
      ensures Valid() && s == Next(old(s), Fill(k)) && s.view == old(s.view)
      ensures At(s, k, Holding) && Holds(s.bufs[i], 1, s.calls[k].block) && s.bufs[i].valid
      ensures s.bufs[i].data == s.view[s.calls[k].block]
    {
      hide Linked, Inv;
      var o := bufs[i];
      Put(i, if o.valid then o else o.(data := disk[o.blockno], valid := true), Fill(k));
      UseReads(s, k);
    }

    /** bread, by a process that finds the sleep lock free: the content last given to the block. */
    method Bread(b: nat, pid: nat) returns (r: Option<nat>)
      requires Valid() && b < |disk|
      requires forall i :: 0 <= i < |s.bufs| && Holds(s.bufs[i], 1, b) ==> s.bufs[i].owner.None?
      modifies bufs, this`s
      ensures Valid() && (r.Some? <==> CanGet(old(s), b)) && s.view == old(s.view)
      ensures r.Some? ==>
        && r.value < |s.bufs| && s.bufs[r.value].owner == Some(pid) && s.bufs[r.value].valid
        && Holds(s.bufs[r.value], 1, b) && b < |s.view| && s.bufs[r.value].data == s.view[b]
      ensures r.Some? ==> s.calls == old(s.calls) + [Call(pid, r.value, b, Holding)]
    {
      hide Linked, Lookup, Victim, Refs, Contents;
      ghost var k, s0 := |s.calls|, s;
      r := Bget(b, pid);
      if r.None? { return; }
      var i := r.value;
      FreeLock(s0, b);
      hide Inv;
      Acquire(i, pid, k);
      ReadIn(i, k);
    }

    /** bwrite; the test for its panic never fires. */
    method Write(i: nat, pid: nat, ghost k: nat)
      requires Valid() && Enabled(s, Step.Bwrite(k)) && s.calls[k].buf == i && s.calls[k].pid == pid
      modifies bufs, this`s, this`disk
      ensures Valid() && s == Next(old(s), Step.Bwrite(k))
    {
      hide Linked, Inv;
      NextKeepsInv(s, Step.Bwrite(k));
      HolderHolds(s, k);
      assert bufs[i].owner == Some(pid);
      disk := disk[bufs[i].blockno := bufs[i].data];
      bufs[i] := bufs[i].(dirty := false);
      s := Next(s, Step.Bwrite(k));
    }

    /** brelse's first half, up to releasesleep; the test for its panic never fires. */
    method Unlatch(i: nat, pid: nat, ghost k: nat)
      requires Valid() && Enabled(s, Unlock(k)) && s.calls[k].buf == i && s.calls[k].pid == pid
      modifies bufs, this`s
      ensures Valid() && s == Next(old(s), Unlock(k))
    {
      hide Linked, Inv;
      HolderHolds(s, k);
      assert bufs[i].owner == Some(pid);
      Put(i, bufs[i].(owner := None), Unlock(k));
    }

    /** brelse's critical section. */
    method Unref(i: nat, ghost k: nat)
      requires Valid() && Enabled(s, Drop(k)) && s.calls[k].buf == i
      modifies links, bufs, this`s
      ensures Valid() && s == Next(old(s), Drop(k))
    {
      hide Inv, Linked;
      ghost var s0 := s;
      NextKeepsInv(s, Drop(k));
      bufs[i] := bufs[i].(refcnt := bufs[i].refcnt - 1);
      s := Next(s, Drop(k));
      if bufs[i].refcnt == 0 {
        PositionOf(s0, i);
        Relink(i, s0.order, Position(s0.order, i, 0));
      }
    }

    /** brelse */
    method Brelse(i: nat, pid: nat, ghost k: nat)
      requires Valid() && Enabled(s, Unlock(k)) && s.calls[k].buf == i && s.calls[k].pid == pid
      modifies links, bufs, this`s
      ensures Valid() && s == Next(Next(old(s), Unlock(k)), Drop(k))
    {
      hide Linked, Inv, Valid;
      Unlatch(i, pid, k);
      Unref(i, k);
    }

    /** brelse's six pointer assignments. */
    method Relink(i: nat, ghost order: seq<nat>, ghost k: nat)
      requires links.Length > 0 && Linked(links[..], order) && k < |order| && order[k] == i
      modifies links
      ensures Linked(links[..], MoveToFront(order, k))
    {
      UnlinkLinked(links[..], order, k);
      ghost var rest, u := order[..k] + order[k + 1..], Unlink(links[..], i);
      var p, q := links[i].prev, links[i].next;
      links[q] := links[q].(prev := p);
      links[p] := links[p].(next := q);
      assert links[..] == u;
      InsertFrontLinked(u, rest, i);
      PushFront(i);
      assert [i] + rest == MoveToFront(order, k);
    }
  }
}
