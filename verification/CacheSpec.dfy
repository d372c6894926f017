/** The buffer cache of bio.c as a step machine. */
module CacheSpec {
  // One step is a critical section, for any number of processes; `view` is what each block was
  // last given.

  import opened Blocks

  datatype Option<T> = None | Some(value: T)

  /** `owner` is the process holding the buffer's sleep lock. */
  datatype Buf = Buf(valid: bool, dirty: bool, dev: nat, blockno: nat, refcnt: int, owner: Option<nat>, data: Block)

  /** Where a process is between bread and the end of brelse. */
  datatype Stage =
    | Waiting  // out of bget's critical section, not yet past acquiresleep
    | Locked   // has the sleep lock, before bread's test of B_VALID
    | Holding  // bread has returned
    | Leaving  // in brelse, past releasesleep
    | Done

  /** One use of a buffer: process `pid` asked for `block` and bget chose `buf`. */
  datatype Call = Call(pid: nat, buf: nat, block: nat, stage: Stage)

  /** `order` is the LRU list, most recently used first; `calls` are all uses so far. */
  datatype State = State(bufs: seq<Buf>, order: seq<nat>, disk: seq<Block>, view: seq<Block>, calls: seq<Call>)

  predicate Holds(b: Buf, dev: nat, blockno: nat) { b.dev == dev && b.blockno == blockno }

  predicate Free(b: Buf) { b.refcnt == 0 && !b.dirty }

  /** The buffer may differ from the disk: log_write pinned it, or its holder may be changing it. */
  predicate Pinned(b: Buf) { b.dirty || b.owner.Some? }

  predicate InLock(c: Call) { c.stage.Locked? || c.stage.Holding? }

  // ----- bget's two scans -----

  /** Position in `order` of the first buffer from `k` on that holds the block. */
  function Lookup(bufs: seq<Buf>, order: seq<nat>, k: nat, dev: nat, blockno: nat): (r: Option<nat>)
    requires k <= |order| && forall j :: 0 <= j < |order| ==> order[j] < |bufs|
    ensures r.Some? ==> k <= r.value < |order| && Holds(bufs[order[r.value]], dev, blockno)
    ensures r.None? ==> forall j :: k <= j < |order| ==> !Holds(bufs[order[j]], dev, blockno)
    decreases |order| - k
  {
    if k == |order| then None
    else if Holds(bufs[order[k]], dev, blockno) then Some(k)
    else Lookup(bufs, order, k + 1, dev, blockno)
  }

  /** Position of the least recently used free buffer before position `k`. */
  function Victim(bufs: seq<Buf>, order: seq<nat>, k: nat): (r: Option<nat>)
    requires k <= |order| && forall j :: 0 <= j < |order| ==> order[j] < |bufs|
    ensures r.Some? ==> r.value < k && Free(bufs[order[r.value]]) && forall j :: r.value < j < k ==> !Free(bufs[order[j]])
    ensures r.None? ==> forall j :: 0 <= j < k ==> !Free(bufs[order[j]])
  {
    if k == 0 then None
    else if Free(bufs[order[k - 1]]) then Some(k - 1)
    else Victim(bufs, order, k - 1)
  }

  function MoveToFront(order: seq<nat>, k: nat): seq<nat>
    requires k < |order|
  {
    [order[k]] + order[..k] + order[k + 1..]
  }

  // ----- steps -----

  /** `k` is the use the step belongs to. */
  datatype Step =
    | Get(pid: nat, blockno: nat)  // bget under bcache.lock
    | Lock(k: nat)                 // acquiresleep, once the lock is free
    | Fill(k: nat)                 // the rest of bread: iderw if the buffer is not valid
    | Modify(k: nat, data: Block)  // the holder changes b->data
    | LogWrite(k: nat)             // log_write sets B_DIRTY
    | Bwrite(k: nat)
    | Unlock(k: nat)               // brelse's releasesleep
    | Drop(k: nat)                 // brelse under bcache.lock

  ghost predicate Shape(s: State) {
    && |s.order| == |s.bufs| && |s.view| == |s.disk|
    && (forall j :: 0 <= j < |s.order| ==> s.order[j] < |s.bufs|)
    && (forall j, k :: 0 <= j < k < |s.order| ==> s.order[j] != s.order[k])
    && (forall i :: 0 <= i < |s.bufs| ==> s.bufs[i].blockno < |s.disk|)
    && (forall k :: 0 <= k < |s.calls| ==> s.calls[k].buf < |s.bufs| && s.calls[k].block < |s.disk|)
  }

  ghost predicate At(s: State, k: nat, stage: Stage) { k < |s.calls| && s.calls[k].stage == stage }

  /** bget finds a buffer; otherwise it panics. */
  ghost predicate CanGet(s: State, b: nat)
    requires Shape(s)
  {
    Lookup(s.bufs, s.order, 0, 1, b).Some? || Victim(s.bufs, s.order, |s.order|).Some?
  }

  /** Each process goes through its own use in program order. The discipline: nobody releases a
      changed buffer without log_write or bwrite. */
  ghost predicate Enabled(s: State, t: Step)
    requires Shape(s)
  {
    match t
    case Get(_, b) => b < |s.disk| && CanGet(s, b)
    case Lock(k) => At(s, k, Waiting) && s.bufs[s.calls[k].buf].owner.None?
    case Fill(k) => At(s, k, Locked)
    case Modify(k, _) => At(s, k, Holding)
    case LogWrite(k) => At(s, k, Holding)
    case Bwrite(k) => At(s, k, Holding)
    case Unlock(k) =>
      At(s, k, Holding) && var o := s.bufs[s.calls[k].buf]; o.dirty || o.data == s.disk[o.blockno]
    case Drop(k) => At(s, k, Leaving)
  }

  /** The buffer bget returns. */
  function Got(s: State, b: nat): nat
    requires Shape(s) && CanGet(s, b)
  {
    var l := Lookup(s.bufs, s.order, 0, 1, b);
    if l.Some? then s.order[l.value] else s.order[Victim(s.bufs, s.order, |s.order|).value]
  }

  /** The buffer of use `k` becomes `o` and the use moves on to `stage`. */
  function Moved(s: State, k: nat, o: Buf, stage: Stage): State
    requires k < |s.calls| && s.calls[k].buf < |s.bufs|
  {
    s.(bufs := s.bufs[s.calls[k].buf := o], calls := s.calls[k := s.calls[k].(stage := stage)])
  }

  function Next(s: State, t: Step): State
    requires Shape(s) && Enabled(s, t)
  {
    if t.Get? then
      var i := Got(s, t.blockno);
      var o := s.bufs[i];
      var r := s.(calls := s.calls + [Call(t.pid, i, t.blockno, Waiting)]);
      if Lookup(s.bufs, s.order, 0, 1, t.blockno).Some?
      then r.(bufs := s.bufs[i := o.(refcnt := o.refcnt + 1)])
      else r.(bufs := s.bufs[i := o.(dev := 1, blockno := t.blockno, valid := false, dirty := false, refcnt := 1)])
    else
      var i := s.calls[t.k].buf;
      var o := s.bufs[i];
      match t
      case Lock(k) => Moved(s, k, o.(owner := Some(s.calls[k].pid)), Locked)
      case Fill(k) => Moved(s, k, if o.valid then o else o.(data := s.disk[o.blockno], valid := true), Holding)
      case Modify(k, data) =>
        Moved(s, k, o.(data := data), Holding).(view := s.view[s.calls[k].block := data])
      case LogWrite(k) => Moved(s, k, o.(dirty := true), Holding)
      case Bwrite(k) => Moved(s, k, o.(dirty := false), Holding).(disk := s.disk[o.blockno := o.data])
      case Unlock(k) => Moved(s, k, o.(owner := None), Leaving)
      case Drop(k) =>
        var r := Moved(s, k, o.(refcnt := o.refcnt - 1), Done);
        if o.refcnt == 1 then PositionOf(s, i); r.(order := MoveToFront(s.order, Position(s.order, i, 0))) else r
  }

  /** Where a buffer stands in the list. */
  function Position(order: seq<nat>, i: nat, k: nat): (p: nat)
    requires k <= |order| && exists j :: k <= j < |order| && order[j] == i
    ensures k <= p < |order| && order[p] == i
    decreases |order| - k
  {
    if order[k] == i then k else Position(order, i, k + 1)
  }

  ghost function Below(n: nat): (r: set<nat>)
    ensures |r| == n && forall x :: x in r <==> 0 <= x < n
  {
    if n == 0 then {} else Below(n - 1) + {n - 1}
  }

  /** n distinct numbers below n are all of them: every buffer is in the list. */
  lemma Pigeonhole(order: seq<nat>, n: nat, i: nat)
    requires |order| == n && i < n
    requires forall j :: 0 <= j < n ==> order[j] < n
    requires forall j, k :: 0 <= j < k < n ==> order[j] != order[k]
    ensures exists j :: 0 <= j < n && order[j] == i
  {
    if i !in order {
      var s := set x | x in order;
      SeqSetSize(order, s);
      SubsetSize(s, Below(n) - {i});
    }
  }

  lemma {:induction false} SeqSetSize(q: seq<nat>, s: set<nat>)
    requires s == set x | x in q
    requires forall j, k :: 0 <= j < k < |q| ==> q[j] != q[k]
    ensures |s| == |q|
  {
    if q != [] {
      var t := set x | x in q[1..];
      SeqSetSize(q[1..], t);
      assert s == t + {q[0]} && q[0] !in t;
    }
  }

  lemma {:induction false} SubsetSize(a: set<nat>, b: set<nat>)
    requires a <= b
    ensures |a| <= |b|
  {
    if a != {} { var x :| x in a; SubsetSize(a - {x}, b - {x}); }
  }

  lemma PositionOf(s: State, i: nat)
    requires Shape(s) && i < |s.bufs|
    ensures exists j :: 0 <= j < |s.order| && s.order[j] == i
  {
    Pigeonhole(s.order, |s.bufs|, i);
  }

  // ----- references -----

  /** Whether this use holds a reference to buffer `i`. */
  function Weight(c: Call, i: nat): nat { if c.buf == i && !c.stage.Done? then 1 else 0 }

  /** How many references the uses hold to buffer `i`. */
  function Count(calls: seq<Call>, i: nat): nat {
    if calls == [] then 0 else Weight(calls[0], i) + Count(calls[1..], i)
  }

  lemma {:induction false} CountSet(calls: seq<Call>, k: nat, c: Call, i: nat)
    requires k < |calls|
    ensures Count(calls[k := c], i) == Count(calls, i) - Weight(calls[k], i) + Weight(c, i)
  {
    if k == 0 {
      assert calls[k := c][1..] == calls[1..];
    } else {
      CountSet(calls[1..], k - 1, c, i);
      assert calls[k := c][1..] == calls[1..][k - 1 := c];
    }
  }

  lemma {:induction false} CountAdd(calls: seq<Call>, c: Call, i: nat)
    ensures Count(calls + [c], i) == Count(calls, i) + Weight(c, i)
  {
    if calls != [] {
      CountAdd(calls[1..], c, i);
      assert (calls + [c])[1..] == calls[1..] + [c];
    } else {
      assert calls + [c] == [c];
    }
  }

  /** A reference held is counted. */
  lemma Counted(calls: seq<Call>, k: nat)
    requires k < |calls| && !calls[k].stage.Done?
    ensures Count(calls, calls[k].buf) > 0
  {
    CountSet(calls, k, calls[k].(stage := Done), calls[k].buf);
  }

  /** What a process that has not finished with its buffer can rely on. */
  ghost predicate CallOk(s: State, c: Call)
    requires c.buf < |s.bufs|
  {
    var o := s.bufs[c.buf];
    && (!c.stage.Done? ==> Holds(o, 1, c.block))
    && (InLock(c) ==> o.owner == Some(c.pid))
    && (c.stage.Holding? ==> o.valid)
  }

  ghost predicate Locker(s: State, i: nat) {
    exists k :: 0 <= k < |s.calls| && InLock(s.calls[k]) && s.calls[k].buf == i
  }

  /** Reference counts, sleep locks and uses agree. */
  ghost predicate Refs(s: State)
    requires Shape(s)
  {
    && (forall k :: 0 <= k < |s.calls| ==> CallOk(s, s.calls[k]))
    && (forall i :: 0 <= i < |s.bufs| ==> s.bufs[i].refcnt == Count(s.calls, i))
    && (forall i :: 0 <= i < |s.bufs| && s.bufs[i].owner.Some? ==> Locker(s, i))
    && (forall j, k :: 0 <= j < k < |s.calls| && InLock(s.calls[j]) && InLock(s.calls[k]) ==>
          s.calls[j].buf != s.calls[k].buf)
  }

  /** An unreferenced buffer is nobody's. */
  lemma Unused(s: State, i: nat)
    requires Shape(s) && Refs(s) && i < |s.bufs| && s.bufs[i].refcnt == 0
    ensures s.bufs[i].owner.None?
    ensures forall k :: 0 <= k < |s.calls| && !s.calls[k].stage.Done? ==> s.calls[k].buf != i
  {
    forall k | 0 <= k < |s.calls| && !s.calls[k].stage.Done? ensures s.calls[k].buf != i { Counted(s.calls, k); }
    assert s.bufs[i].owner.Some? ==> Locker(s, i);
  }

  /** A new use of buffer `i`, which holds its block now and did not serve another one. */
  lemma AddedRefs(s: State, r: State, c: Call)
    requires Shape(s) && Refs(s) && Shape(r) && c.buf < |s.bufs| && c.stage.Waiting? && r.calls == s.calls + [c]
    requires |r.bufs| == |s.bufs| && forall j :: 0 <= j < |s.bufs| && j != c.buf ==> r.bufs[j] == s.bufs[j]
    requires var o, o' := s.bufs[c.buf], r.bufs[c.buf];
      && Holds(o', 1, c.block) && o'.refcnt == o.refcnt + 1 && o'.owner == o.owner
      && (o.refcnt != 0 ==> o'.valid == o.valid && Holds(o, 1, c.block))
    ensures Refs(r)
  {
    hide Count;
    forall j | 0 <= j < |r.bufs| ensures r.bufs[j].refcnt == Count(r.calls, j) { CountAdd(s.calls, c, j); }
    if s.bufs[c.buf].refcnt == 0 { Unused(s, c.buf); }
    forall k | 0 <= k < |r.calls| ensures CallOk(r, r.calls[k]) {
      if k < |s.calls| { assert CallOk(s, s.calls[k]); }
    }
    forall j | 0 <= j < |r.bufs| && r.bufs[j].owner.Some? ensures Locker(r, j) {
      assert Locker(s, j);
      var k :| 0 <= k < |s.calls| && InLock(s.calls[k]) && s.calls[k].buf == j;
      assert r.calls[k] == s.calls[k];
    }
  }

  /** A step of one use: its buffer keeps its block, its weight and the count agree, and the sleep
      lock is with it exactly while it is in the lock. */
  lemma MovedRefs(s: State, r: State, k: nat, o: Buf, stage: Stage)
    requires Shape(s) && Refs(s) && Shape(r) && k < |s.calls| && !s.calls[k].stage.Done?
    requires r.bufs == s.bufs[s.calls[k].buf := o] && r.calls == s.calls[k := s.calls[k].(stage := stage)]
    requires var was, lock := s.bufs[s.calls[k].buf], stage.Locked? || stage.Holding?;
      && o.blockno == was.blockno && o.dev == was.dev && (was.valid || stage.Holding? ==> o.valid)
      && o.refcnt == was.refcnt - (if stage.Done? then 1 else 0)
      && o.owner == (if lock then Some(s.calls[k].pid) else if InLock(s.calls[k]) then None else was.owner)
      && (lock && !InLock(s.calls[k]) ==> was.owner.None?)
    ensures Refs(r)
  {
    hide Count;
    var i := s.calls[k].buf;
    assert CallOk(s, s.calls[k]);
    forall j | 0 <= j < |r.bufs| ensures r.bufs[j].refcnt == Count(r.calls, j) { CountSet(s.calls, k, r.calls[k], j); }
    forall j | 0 <= j < |r.calls| ensures CallOk(r, r.calls[j]) { assert CallOk(s, s.calls[j]); }
    forall j | 0 <= j < |r.bufs| && r.bufs[j].owner.Some? ensures Locker(r, j) {
      if j == i && InLock(r.calls[k]) {
        assert r.calls[k].buf == i;
      } else {
        assert Locker(s, j);
        var l :| 0 <= l < |s.calls| && InLock(s.calls[l]) && s.calls[l].buf == j;
        assert l != k && r.calls[l] == s.calls[l];
      }
    }
    forall j, l | 0 <= j < l < |r.calls| && InLock(r.calls[j]) && InLock(r.calls[l])
      ensures r.calls[j].buf != r.calls[l].buf
    {
      assert CallOk(s, s.calls[j]) && CallOk(s, s.calls[l]);
    }
  }

  lemma MoveToFrontShape(order: seq<nat>, k: nat)
    requires k < |order| && forall i, j :: 0 <= i < j < |order| ==> order[i] != order[j]
    ensures var r := MoveToFront(order, k);
      && |r| == |order| && (forall j :: 0 <= j < |r| ==> r[j] in order)
      && (forall i, j :: 0 <= i < j < |r| ==> r[i] != r[j])
  {
  }

  lemma NextShape(s: State, t: Step)
    requires Shape(s) && Enabled(s, t)
    ensures Shape(Next(s, t))
  {
    if t.Get? {
      GetChoice(s, t.blockno);
      hide Got, CanGet, Lookup, Victim, Free;
    } else {
      hide CanGet, Lookup, Victim, MoveToFront, Position;
      if t.Drop? {
        var i := s.calls[t.k].buf;
        PositionOf(s, i);
        MoveToFrontShape(s.order, Position(s.order, i, 0));
      }
    }
  }

  lemma NextRefs(s: State, t: Step)
    requires Shape(s) && Refs(s) && Enabled(s, t) && Shape(Next(s, t))
    ensures Refs(Next(s, t))
  {
    hide Lookup, Victim, Count, Locker;
    var r := Next(s, t);
    if t.Get? {
      GetChoice(s, t.blockno);
      AddedRefs(s, r, r.calls[|s.calls|]);
    } else {
      assert CallOk(s, s.calls[t.k]);
      if t.Drop? { PositionOf(s, s.calls[t.k].buf); }
      hide Refs, CallOk;
      MovedRefs(s, r, t.k, r.bufs[s.calls[t.k].buf], r.calls[t.k].stage);
    }
  }

  /** bget's buffer has the block already or is free. */
  lemma GetChoice(s: State, b: nat)
    requires Shape(s) && CanGet(s, b)
    ensures Got(s, b) < |s.bufs|
    ensures if Lookup(s.bufs, s.order, 0, 1, b).Some? then Holds(s.bufs[Got(s, b)], 1, b) else Free(s.bufs[Got(s, b)])
  {
  }

  // ----- contents -----

  /** One buffer: it belongs to the disk or is untouched since boot; valid data is the view. */
  ghost predicate BufOk(s: State, o: Buf) {
    && (o.dev == 0 || o.dev == 1)
    && (o.dev == 0 ==> !o.valid)
    && (o.dirty ==> o.valid)
    && (o.valid ==> o.blockno < |s.view| && o.data == s.view[o.blockno])
  }

  /** The disk is behind for this block only because a pinned buffer holds its content. */
  ghost predicate Covered(s: State, b: nat) {
    exists i :: 0 <= i < |s.bufs| && Holds(s.bufs[i], 1, b) && s.bufs[i].valid && Pinned(s.bufs[i])
  }

  ghost predicate Contents(s: State)
    requires Shape(s)
  {
    && (forall i :: 0 <= i < |s.bufs| ==> BufOk(s, s.bufs[i]))
    && (forall i, j :: 0 <= i < j < |s.bufs| && s.bufs[i].dev != 0 && s.bufs[j].dev != 0 ==>
          s.bufs[i].blockno != s.bufs[j].blockno)
    && (forall b :: 0 <= b < |s.disk| && s.disk[b] != s.view[b] ==> Covered(s, b))
  }

  ghost predicate Inv(s: State)
    ensures Inv(s) ==> Shape(s)
  {
    Shape(s) && Refs(s) && Contents(s)
  }

  /** A clean unlocked valid buffer equals the disk. */
  lemma CleanEqualsDisk(s: State, i: nat)
    requires Inv(s) && i < |s.bufs| && s.bufs[i].valid && !Pinned(s.bufs[i])
    ensures s.bufs[i].data == s.disk[s.bufs[i].blockno]
  {
    assert BufOk(s, s.bufs[i]);
    assert s.disk[s.bufs[i].blockno] != s.view[s.bufs[i].blockno] ==> Covered(s, s.bufs[i].blockno);
  }

  /** A step that changes one buffer. */
  lemma OneBuf(s: State, r: State, i: nat)
    requires Shape(s) && Contents(s) && Shape(r) && i < |s.bufs| && |r.bufs| == |s.bufs| && r.view == s.view
    requires forall j :: 0 <= j < |s.bufs| && j != i ==> r.bufs[j] == s.bufs[j]
    requires BufOk(r, r.bufs[i])
    requires r.bufs[i].dev == s.bufs[i].dev && r.bufs[i].blockno == s.bufs[i].blockno
    requires forall b :: 0 <= b < |r.disk| && r.disk[b] != r.view[b] ==>
      s.disk[b] != s.view[b] && (Holds(s.bufs[i], 1, b) ==> r.bufs[i].valid && Pinned(r.bufs[i]))
    ensures Contents(r)
  {
    forall j | 0 <= j < |r.bufs| ensures BufOk(r, r.bufs[j]) {
      if j != i { assert BufOk(s, s.bufs[j]); }
    }
    forall b | 0 <= b < |r.disk| && r.disk[b] != r.view[b] ensures Covered(r, b) {
      assert Covered(s, b);
      var j :| 0 <= j < |s.bufs| && Holds(s.bufs[j], 1, b) && s.bufs[j].valid && Pinned(s.bufs[j]);
      assert Holds(r.bufs[j], 1, b) && r.bufs[j].valid && Pinned(r.bufs[j]);
    }
  }

  lemma GetContents(s: State, t: Step)
    requires t.Get? && Inv(s) && Enabled(s, t) && Shape(Next(s, t))
    ensures Contents(Next(s, t))
  {
    var b := t.blockno;
    var i, r := Got(s, b), Next(s, t);
    assert BufOk(s, s.bufs[i]);
    if Lookup(s.bufs, s.order, 0, 1, b).Some? {
      OneBuf(s, r, i);
    } else {
      Unused(s, i);
      forall j | 0 <= j < |r.bufs| ensures BufOk(r, r.bufs[j]) {
        if j != i { assert BufOk(s, s.bufs[j]); }
      }
      forall j | 0 <= j < |s.bufs| && s.bufs[j].dev != 0 ensures s.bufs[j].blockno != b {
        PositionOf(s, j);
        assert BufOk(s, s.bufs[j]);
      }
      forall c | 0 <= c < |r.disk| && r.disk[c] != r.view[c] ensures Covered(r, c) {
        assert Covered(s, c);
        var j :| 0 <= j < |s.bufs| && Holds(s.bufs[j], 1, c) && s.bufs[j].valid && Pinned(s.bufs[j]);
        assert Holds(r.bufs[j], 1, c) && r.bufs[j].valid && Pinned(r.bufs[j]);
      }
    }
  }

  lemma ModifyContents(s: State, t: Step)
    requires t.Modify? && Inv(s) && Enabled(s, t) && Shape(Next(s, t))
    ensures Contents(Next(s, t))
  {
    var r, i := Next(s, t), s.calls[t.k].buf;
    var b := s.bufs[i].blockno;
    assert CallOk(s, s.calls[t.k]) && BufOk(s, s.bufs[i]);
    forall j | 0 <= j < |r.bufs| ensures BufOk(r, r.bufs[j]) { assert BufOk(s, s.bufs[j]); }
    forall c | 0 <= c < |r.disk| && r.disk[c] != r.view[c] ensures Covered(r, c) {
      if c == b {
        assert Holds(r.bufs[i], 1, c);
      } else {
        assert Covered(s, c);
        var j :| 0 <= j < |s.bufs| && Holds(s.bufs[j], 1, c) && s.bufs[j].valid && Pinned(s.bufs[j]);
        assert Holds(r.bufs[j], 1, c) && r.bufs[j].valid && Pinned(r.bufs[j]);
      }
    }
  }

  lemma FillContents(s: State, t: Step)
    requires t.Fill? && Inv(s) && Enabled(s, t) && Shape(Next(s, t))
    ensures Contents(Next(s, t))
  {
    var i := s.calls[t.k].buf;
    var b := s.bufs[i].blockno;
    assert CallOk(s, s.calls[t.k]) && BufOk(s, s.bufs[i]);
    assert s.disk[b] != s.view[b] ==> Covered(s, b);
    OneBuf(s, Next(s, t), i);
  }

  /** Every step of every process keeps references, locks and contents right. */
  lemma NextKeepsInv(s: State, t: Step)
    requires Inv(s) && Enabled(s, t)
    ensures Inv(Next(s, t))
  {
    hide Lookup, Victim, Count, Locker;
    NextShape(s, t);
    NextRefs(s, t);
    match t
    case Get(_, _) => GetContents(s, t);
    case Fill(_) => FillContents(s, t);
    case Modify(_, _) => ModifyContents(s, t);
    case Lock(_) | LogWrite(_) | Bwrite(_) | Unlock(_) | Drop(_) =>
      var i := s.calls[t.k].buf;
      assert CallOk(s, s.calls[t.k]) && BufOk(s, s.bufs[i]);
      if t.Drop? { PositionOf(s, i); }
      OneBuf(s, Next(s, t), i);
  }

  /** The panics of bwrite, log_write and brelse never hit a process between bread and brelse: it has
      the lock, and a reference is there to be dropped. */
  lemma HolderHolds(s: State, k: nat)
    requires Inv(s) && k < |s.calls| && !s.calls[k].stage.Done?
    ensures s.bufs[s.calls[k].buf].refcnt > 0
    ensures s.calls[k].stage.Holding? ==> s.bufs[s.calls[k].buf].owner == Some(s.calls[k].pid)
    ensures forall j :: 0 <= j < |s.calls| && j != k && InLock(s.calls[k]) && InLock(s.calls[j]) ==>
      s.calls[j].buf != s.calls[k].buf && s.calls[j].block != s.calls[k].block
  {
    Counted(s.calls, k);
    assert CallOk(s, s.calls[k]);
    forall j | 0 <= j < |s.calls| && j != k && InLock(s.calls[k]) && InLock(s.calls[j])
      ensures s.calls[j].buf != s.calls[k].buf && s.calls[j].block != s.calls[k].block
    {
      assert CallOk(s, s.calls[j]);
    }
  }

  // ----- whole runs -----

  ghost predicate Run(s: State, ts: seq<Step>, r: State)
    decreases |ts|
  {
    if ts == [] then s == r else Shape(s) && Enabled(s, ts[0]) && Run(Next(s, ts[0]), ts[1..], r)
  }

  /** binit over a disk: n empty buffers in some list order. */
  ghost predicate Init(s: State) {
    && Shape(s) && s.view == s.disk && s.calls == []
    && forall i :: 0 <= i < |s.bufs| ==> Untouched(s.bufs[i])
  }

  predicate Untouched(o: Buf) { o.dev == 0 && o.refcnt == 0 && !o.valid && !o.dirty && o.owner.None? }

  /** The contents processes gave to the blocks they asked for, in order. */
  ghost function Gifts(s: State, ts: seq<Step>, r: State): seq<(nat, Block)>
    requires Run(s, ts, r)
    decreases |ts|
  {
    if ts == [] then []
    else (if ts[0].Modify? then [(s.calls[ts[0].k].block, ts[0].data)] else []) + Gifts(Next(s, ts[0]), ts[1..], r)
  }

  /** The content last given to `b`, `was` if none. */
  ghost function LastGift(gifts: seq<(nat, Block)>, b: nat, was: Block): Block
    decreases |gifts|
  {
    if gifts == [] then was
    else LastGift(gifts[1..], b, if gifts[0].0 == b then gifts[0].1 else was)
  }

  lemma {:induction false} RunInv(s: State, ts: seq<Step>, r: State)
    requires Inv(s) && Run(s, ts, r)
    ensures Inv(r) && |r.view| == |s.view|
    decreases |ts|
  {
    if ts != [] { NextKeepsInv(s, ts[0]); RunInv(Next(s, ts[0]), ts[1..], r); }
  }

  lemma {:induction false} RunView(s: State, ts: seq<Step>, r: State, b: nat)
    requires Run(s, ts, r) && b < |s.view|
    ensures |r.view| == |s.view| && r.view[b] == LastGift(Gifts(s, ts, r), b, s.view[b])
    decreases |ts|
  {
    if ts != [] {
      var t, m := ts[0], Next(s, ts[0]);
      RunView(m, ts[1..], r, b);
      if t.Modify? {
        assert Gifts(s, ts, r)[1..] == Gifts(m, ts[1..], r);
      } else {
        assert Gifts(s, ts, r) == Gifts(m, ts[1..], r);
      }
    }
  }

  lemma InitInv(s: State)
    requires Init(s)
    ensures Inv(s)
  {
    forall i | 0 <= i < |s.bufs| ensures BufOk(s, s.bufs[i]) { assert Untouched(s.bufs[i]); }
  }

  /** A use stays with the buffer bget chose and the block it asked for. */
  lemma {:induction false} CallsKept(s: State, ts: seq<Step>, r: State, k: nat)
    requires Run(s, ts, r) && k < |s.calls|
    ensures k < |r.calls| && r.calls[k].(stage := s.calls[k].stage) == s.calls[k]
    decreases |ts|
  {
    if ts != [] { CallsKept(Next(s, ts[0]), ts[1..], r, k); }
  }

  lemma UseReads(r: State, k: nat)
    requires Inv(r) && k < |r.calls| && !r.calls[k].stage.Done?
    ensures var c := r.calls[k];
      && Holds(r.bufs[c.buf], 1, c.block)
      && (forall j :: 0 <= j < |r.bufs| && j != c.buf ==> !Holds(r.bufs[j], 1, c.block))
      && (c.stage.Holding? ==> r.bufs[c.buf].data == r.view[c.block])
  {
    assert CallOk(r, r.calls[k]) && BufOk(r, r.bufs[r.calls[k].buf]);
  }

  /** A process that asks for `b` keeps the buffer bget chose for it, in any run that follows. */
  lemma GotIsKept(m: State, pid: nat, b: nat, ts: seq<Step>, r: State)
    requires Shape(m) && Enabled(m, Get(pid, b)) && Run(Next(m, Get(pid, b)), ts, r)
    ensures var k := |m.calls|; k < |r.calls| && r.calls[k] == Call(pid, Got(m, b), b, r.calls[k].stage)
  {
    var n := Next(m, Get(pid, b));
    assert n.calls[|m.calls|] == Call(pid, Got(m, b), b, Waiting);
    hide Run, Next;
    CallsKept(n, ts, r, |m.calls|);
  }

  /** The cache is a map from blocks to contents. In any interleaving of any processes, from the
      moment bget chose a buffer for a block until brelse drops the reference, that buffer and no other
      holds the block, however long the process waits for the sleep lock; and once bread has returned,
      the buffer holds the content last given to the block, whatever was evicted in between. */
  lemma CacheIsMap(s: State, ts: seq<Step>, r: State, k: nat)
    requires Init(s) && Run(s, ts, r) && k < |r.calls| && !r.calls[k].stage.Done?
    ensures var i, b := r.calls[k].buf, r.calls[k].block;
      && i < |r.bufs| && b < |s.disk| && Holds(r.bufs[i], 1, b)
      && (forall j :: 0 <= j < |r.bufs| && j != i ==> !Holds(r.bufs[j], 1, b))
      && (r.calls[k].stage.Holding? ==> r.bufs[i].data == LastGift(Gifts(s, ts, r), b, s.disk[b]))
  {
    hide Run;
    InitInv(s);
    RunInv(s, ts, r);
    RunView(s, ts, r, r.calls[k].block);
    UseReads(r, k);
  }

  lemma {:induction false} RunAppend(s: State, ts: seq<Step>, m: State, ts': seq<Step>, r: State)
    requires Run(s, ts, m) && Run(m, ts', r)
    ensures Run(s, ts + ts', r)
    decreases |ts|
  {
    hide Next, Enabled, Shape;
    if ts == [] {
      assert ts + ts' == ts';
    } else {
      assert (ts + ts')[0] == ts[0] && (ts + ts')[1..] == ts[1..] + ts';
      RunAppend(Next(s, ts[0]), ts[1..], m, ts', r);
    }
  }

  /** No content is lost by recycling: bget takes the least recently used buffer that is clean and
      unreferenced, and the disk has its content. */
  lemma RecycledIsClean(s: State, b: nat)
    requires Inv(s) && CanGet(s, b) && Lookup(s.bufs, s.order, 0, 1, b).None?
    ensures var o := s.bufs[Got(s, b)];
      && !o.dirty && o.refcnt == 0 && o.owner.None?
      && (o.valid ==> s.disk[o.blockno] == s.view[o.blockno])
    ensures forall k :: 0 <= k < |s.calls| && !s.calls[k].stage.Done? ==> s.calls[k].buf != Got(s, b)
    ensures forall j :: 0 <= j < |s.order| && s.order[j] != Got(s, b) && Free(s.bufs[s.order[j]]) ==>
      j < Victim(s.bufs, s.order, |s.order|).value
  {
    var i := Got(s, b);
    assert BufOk(s, s.bufs[i]);
    Unused(s, i);
    if s.bufs[i].valid { CleanEqualsDisk(s, i); }
  }

  // ----- when bget panics -----

  /** How many uses hold a reference. */
  function Open(calls: seq<Call>): nat {
    if calls == [] then 0 else (if calls[0].stage.Done? then 0 else 1) + Open(calls[1..])
  }

  ghost function Referenced(calls: seq<Call>): (r: set<nat>)
    ensures |r| <= Open(calls)
    ensures forall k :: 0 <= k < |calls| && !calls[k].stage.Done? ==> calls[k].buf in r
  {
    if calls == [] then {}
    else (if calls[0].stage.Done? then {} else {calls[0].buf}) + Referenced(calls[1..])
  }

  lemma {:induction false} SomeUse(calls: seq<Call>, i: nat)
    requires Count(calls, i) > 0
    ensures i in Referenced(calls)
  {
    if Weight(calls[0], i) == 0 { SomeUse(calls[1..], i); }
  }

  /** Dirty buffers hold distinct blocks. */
  lemma {:induction false} DirtyBlocks(s: State, d: set<nat>, lh: set<nat>)
    requires Shape(s) && Contents(s)
    requires forall i :: i in d ==> i < |s.bufs| && s.bufs[i].dirty && s.bufs[i].blockno in lh
    ensures |d| <= |lh|
  {
    if i :| i in d {
      assert BufOk(s, s.bufs[i]);
      forall j | j in d - {i} ensures s.bufs[j].blockno in lh - {s.bufs[i].blockno} {
        assert BufOk(s, s.bufs[j]);
      }
      DirtyBlocks(s, d - {i}, lh - {s.bufs[i].blockno});
    }
  }

  /** When everything dirty is a block of the log, bget never panics as long as the blocks logged and
      the references held are fewer than the buffers. */
  lemma BgetHasRoom(s: State, lh: set<nat>, b: nat)
    requires Inv(s) && forall i :: 0 <= i < |s.bufs| && s.bufs[i].dirty ==> s.bufs[i].blockno in lh
    requires |lh| + Open(s.calls) < |s.bufs|
    ensures CanGet(s, b)
  {
    var d := set i | i in Below(|s.bufs|) && s.bufs[i].dirty;
    DirtyBlocks(s, d, lh);
    var u := d + Referenced(s.calls);
    assert |u| == |d| + |Referenced(s.calls)| - |d * Referenced(s.calls)|;
    if forall i :: 0 <= i < |s.bufs| ==> i in u {
      SubsetSize(Below(|s.bufs|), u);
      assert false;
    }
    var i :| 0 <= i < |s.bufs| && i !in u;
    if Count(s.calls, i) > 0 { SomeUse(s.calls, i); }
    PositionOf(s, i);
    var j :| 0 <= j < |s.order| && s.order[j] == i;
    assert Free(s.bufs[s.order[j]]);
  }

  /** A process reads block `b`, logs it and releases it. */
  function LogOne(k: nat, pid: nat, b: nat): seq<Step> {
    [Get(pid, b), Lock(k), Fill(k), LogWrite(k), Unlock(k), Drop(k)]
  }

  /** The first `m` blocks are pinned in the buffers of `d`, the other buffers were never used. */
  ghost predicate PinnedSoFar(s: State, m: nat, d: set<nat>) {
    && Inv(s) && |d| == m
    && (forall k :: 0 <= k < |s.calls| ==> s.calls[k].stage.Done?)
    && (forall i :: i in d ==> i < |s.bufs| && s.bufs[i].dirty && s.bufs[i].dev == 1 && s.bufs[i].blockno < m)
    && (forall i :: 0 <= i < |s.bufs| && i !in d ==> Untouched(s.bufs[i]))
  }

  /** NBUF logged blocks leave no buffer: when the log takes as many blocks as there are buffers, a
      run of nothing but log_writes pins them all, and then bget panics for every other block, the
      log's own included. */
  lemma FullLogStarves(s: State, pid: nat) returns (ts: seq<Step>, r: State)
    requires Init(s) && |s.bufs| <= |s.disk|
    ensures Run(s, ts, r) && Inv(r) && |r.bufs| == |s.bufs| && |r.disk| == |s.disk|
    ensures forall i :: 0 <= i < |r.bufs| ==> r.bufs[i].dirty && r.bufs[i].refcnt == 0
    ensures forall b :: |s.bufs| <= b < |s.disk| ==> !CanGet(r, b)
  {
    InitInv(s);
    ts, r := [], s;
    var m, d: set<nat> := 0, {};
    while m < |s.bufs|
      invariant m <= |s.bufs| == |r.bufs| && |r.disk| == |s.disk| && Run(s, ts, r) && PinnedSoFar(r, m, d)
    {
      var i, n := PinOne(r, m, d, pid);
      RunAppend(s, ts, r, LogOne(|r.calls|, pid, m), n);
      ts, r, m, d := ts + LogOne(|r.calls|, pid, m), n, m + 1, d + {i};
    }
    hide Run, Init;
    AllPinned(r, d);
  }

  lemma AllPinned(r: State, d: set<nat>)
    requires PinnedSoFar(r, |r.bufs|, d)
    ensures forall i :: 0 <= i < |r.bufs| ==> r.bufs[i].dirty && r.bufs[i].refcnt == 0
    ensures forall b :: |r.bufs| <= b < |r.disk| ==> !CanGet(r, b)
  {
    forall i | 0 <= i < |r.bufs| ensures i in d {
      if i !in d { SubsetSize(d, Below(|r.bufs|) - {i}); }
    }
    forall i | 0 <= i < |r.bufs| ensures r.bufs[i].refcnt == 0 { AllDone(r.calls, i); }
  }

  lemma {:induction false} AllDone(calls: seq<Call>, i: nat)
    requires forall k :: 0 <= k < |calls| ==> calls[k].stage.Done?
    ensures Count(calls, i) == 0
  {
    if calls != [] { AllDone(calls[1..], i); }
  }

  lemma PinOne(s: State, m: nat, d: set<nat>, pid: nat) returns (i: nat, r: State)
    requires PinnedSoFar(s, m, d) && m < |s.bufs| && m < |s.disk|
    ensures i !in d && Run(s, LogOne(|s.calls|, pid, m), r) && PinnedSoFar(r, m + 1, d + {i})
    ensures |r.bufs| == |s.bufs| && |r.disk| == |s.disk|
  {
    hide Next, Enabled, Run, LogOne, Untouched;
    var s1;
    i, s1 := PinGet(s, m, d, pid);
    r := PinRest(s, s1, i, pid, m);
    PinnedMore(s, r, m, d, i, pid);
    hide *;
    RunLogOne(s, s1, r, pid, m);
  }

  lemma PinnedMore(s: State, r: State, m: nat, d: set<nat>, i: nat, pid: nat)
    requires PinnedSoFar(s, m, d) && i !in d && m < |s.disk|
    requires Use(s, r, i, Call(pid, i, m, Done), Buf(true, true, 1, m, 0, None, s.disk[m]))
    ensures PinnedSoFar(r, m + 1, d + {i}) && |r.bufs| == |s.bufs| && |r.disk| == |s.disk|
  {
    hide Inv, Untouched;
  }

  lemma RunLogOne(s: State, s1: State, r: State, pid: nat, m: nat)
    requires Shape(s) && Enabled(s, Get(pid, m)) && s1 == Next(s, Get(pid, m))
    requires var k := |s.calls|; Run(s1, [Lock(k), Fill(k), LogWrite(k), Unlock(k), Drop(k)], r)
    ensures Run(s, LogOne(|s.calls|, pid, m), r)
  {
    hide Next, Enabled, Run, Shape;
    var k := |s.calls|;
    assert [Get(pid, m)] + [Lock(k), Fill(k), LogWrite(k), Unlock(k), Drop(k)] == LogOne(k, pid, m);
    RunStep(s, Get(pid, m), [Lock(k), Fill(k), LogWrite(k), Unlock(k), Drop(k)], r);
  }

  /** bget takes a buffer never used before. */
  lemma PinGet(s: State, m: nat, d: set<nat>, pid: nat) returns (i: nat, r: State)
    requires PinnedSoFar(s, m, d) && m < |s.bufs| && m < |s.disk|
    ensures i !in d && i < |s.bufs| && Enabled(s, Get(pid, m)) && r == Next(s, Get(pid, m))
    ensures Use(s, r, i, Call(pid, i, m, Waiting), Buf(false, false, 1, m, 1, None, s.bufs[i].data))
  {
    assert CanGet(s, m) by {
      if forall i :: 0 <= i < |s.bufs| ==> i in d { SubsetSize(Below(|s.bufs|), d); assert false; }
      var x :| 0 <= x < |s.bufs| && x !in d;
      PositionOf(s, x);
      var j :| 0 <= j < |s.order| && s.order[j] == x;
      assert Untouched(s.bufs[x]) && Free(s.bufs[s.order[j]]);
    }
    GetChoice(s, m);
    i := Got(s, m);
    assert Lookup(s.bufs, s.order, 0, 1, m).None? && i !in d && Untouched(s.bufs[i]);
    r := Next(s, Get(pid, m));
    NextKeepsInv(s, Get(pid, m));
  }

  lemma PinRest(s: State, s1: State, i: nat, pid: nat, m: nat) returns (r: State)
    requires Inv(s) && i < |s.bufs| && m < |s.disk|
    requires Use(s, s1, i, Call(pid, i, m, Waiting), Buf(false, false, 1, m, 1, None, s.bufs[i].data))
    ensures Use(s, r, i, Call(pid, i, m, Done), Buf(true, true, 1, m, 0, None, s.disk[m]))
    ensures var k := |s.calls|; Run(s1, [Lock(k), Fill(k), LogWrite(k), Unlock(k), Drop(k)], r)
  {
    hide Lookup, Victim, Position, Refs, Contents;
    var k, x, b := |s.calls|, s.bufs[i].data, s.disk[m];
    var s2 := Lone(s, s1, Lock(k), Call(pid, i, m, Locked), Buf(false, false, 1, m, 1, Some(pid), x));
    var s3 := Lone(s, s2, Fill(k), Call(pid, i, m, Holding), Buf(true, false, 1, m, 1, Some(pid), b));
    var s4 := Lone(s, s3, LogWrite(k), Call(pid, i, m, Holding), Buf(true, true, 1, m, 1, Some(pid), b));
    var s5 := Lone(s, s4, Unlock(k), Call(pid, i, m, Leaving), Buf(true, true, 1, m, 1, None, b));
    r := Lone(s, s5, Drop(k), Call(pid, i, m, Done), Buf(true, true, 1, m, 0, None, b));
    hide Inv, Use, Next, Enabled;
    RunStep(s5, Drop(k), [], r);
    RunStep(s4, Unlock(k), [Drop(k)], r);
    RunStep(s3, LogWrite(k), [Unlock(k), Drop(k)], r);
    RunStep(s2, Fill(k), [LogWrite(k), Unlock(k), Drop(k)], r);
    RunStep(s1, Lock(k), [Fill(k), LogWrite(k), Unlock(k), Drop(k)], r);
  }

  lemma RunStep(s: State, t: Step, ts: seq<Step>, r: State)
    requires Shape(s) && Enabled(s, t) && Run(Next(s, t), ts, r)
    ensures Run(s, [t] + ts, r)
  {
    assert ([t] + ts)[1..] == ts;
  }

  /** `r` is `s` with one more use `c`, whose buffer is now `o`. */
  ghost predicate Use(s: State, r: State, i: nat, c: Call, o: Buf) {
    && i < |s.bufs| && r.bufs == s.bufs[i := o] && r.calls == s.calls + [c]
    && r.disk == s.disk && r.view == s.view && Inv(r)
  }

  /** The last use moves on. */
  lemma Lone(s: State, a: State, t: Step, c: Call, o: Buf) returns (r: State)
    requires Inv(a) && !t.Get? && !t.Modify? && !t.Bwrite? && t.k == |s.calls| < |a.calls| && Enabled(a, t)
    requires var l := a.calls[t.k]; Use(s, a, l.buf, l, a.bufs[l.buf])
    requires c == a.calls[t.k].(stage := c.stage)
    requires Moved(a, t.k, o, c.stage) == Next(a, t).(order := a.order)
    ensures Shape(a) && r == Next(a, t) && Use(s, r, c.buf, c, o)
  {
    r := Next(a, t);
    NextKeepsInv(a, t);
  }
}
