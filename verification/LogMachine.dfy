/** The transaction protocol of log.c as a step machine. */
module LogMachine {
  // Any number of processes, each running begin_op / log_write / end_op, one of them committing;
  // a crash is possible before every step, including between any two block writes of a commit or of
  // recovery.

  import opened Blocks
  import opened LogSpec

  /** Where a process is: outside a transaction, asleep in begin_op, inside one having added
      `added` blocks to the log, or in commit() after `k` of the writes for `n` blocks. */
  datatype Pc = Idle | Asleep | InOp(added: nat) | Commit(k: nat, n: nat)

  /** Recovery progress: `Boot(k)` is recover_from_log after `k` writes. */
  datatype Mode = Up | Boot(k: nat)

  datatype State = State(
    store: Store,
    lh: seq<nat>,          // log.lh.block[0..n]
    outstanding: int,
    committing: bool,
    procs: seq<Pc>,
    mode: Mode,
    hist: seq<Image>)      // history: one image per header write that reached the disk

  datatype Step =
    | BeginOp(p: nat)
    | LogWrite(p: nat, b: nat, data: Block)
    | EndOp(p: nat)
    | CommitWrite(p: nat)
    | CommitDone(p: nat)
    | Crash
    | RecoverWrite

  // ----- what each critical section does (shared with the class in LogCode) -----

  /** begin_op's test: no commit under way and room for one more operation's worst case. */
  predicate Admits(n: nat, outstanding: int, committing: bool) {
    !committing && n + (outstanding + 1) * MAXOPBLOCKS <= LOGSIZE
  }

  /** log_write's list update, with absorption. */
  function Absorb(lh: seq<nat>, b: nat): seq<nat> { if b in lh then lh else lh + [b] }

  /** log_write's panic tests. */
  predicate LogWritePanics(g: Geo, n: nat, outstanding: int) {
    n >= LOGSIZE || n >= g.size - 1 || outstanding < 1
  }

  function Wake(ps: seq<Pc>): seq<Pc> {
    seq(|ps|, i requires 0 <= i < |ps| => if ps[i] == Asleep then Idle else ps[i])
  }

  /** The `k`th block write of a commit of `lh`, from the current store. */
  function CommitStep(g: Geo, s: Store, lh: seq<nat>, k: nat): (r: Store)
    requires g.Valid() && s.Sized(g) && g.Loggable(lh) && k < CommitLen(|lh|)
    ensures r.Sized(g)
  {
    var n := |lh|;
    if k < n then s.Bwrite(g.start + k + 1, s.view[lh[k]])
    else if k == n then AfterWriteHead(g, s, lh)
    else if k <= 2 * n then s.Bwrite(lh[k - n - 1], s.view[g.start + (k - n)])
    else AfterWriteHead(g, s, [])
  }

  function RecoverStep(g: Geo, s: Store, lh: seq<nat>, k: nat): (r: Store)
    requires g.Valid() && s.Sized(g) && g.Loggable(lh) && k <= |lh|
    ensures r.Sized(g)
  {
    if k < |lh| then s.Bwrite(lh[k], s.view[g.start + k + 1]) else AfterWriteHead(g, s, [])
  }

  // ----- transitions -----

  ghost predicate Shape(g: Geo, s: State) { g.Valid() && s.store.Sized(g) && g.Loggable(s.lh) && |s.hist| > 0 }

  /** When a step may happen. Operations log home blocks only, at most MAXOPBLOCKS new ones each;
      a log_write that would panic is not a step. */
  ghost predicate Enabled(g: Geo, s: State, t: Step)
    requires Shape(g, s)
  {
    match t
    case BeginOp(p) => s.mode.Up? && p < |s.procs| && s.procs[p].Idle?
    case LogWrite(p, b, data) =>
      && s.mode.Up? && p < |s.procs| && s.procs[p].InOp? && g.Home(b)
      && !LogWritePanics(g, |s.lh|, s.outstanding)
      && (b in s.lh || s.procs[p].added < MAXOPBLOCKS)
    case EndOp(p) => s.mode.Up? && p < |s.procs| && s.procs[p].InOp?
    case CommitWrite(p) =>
      s.mode.Up? && p < |s.procs| && s.procs[p].Commit? && s.procs[p].n == |s.lh| && s.procs[p].k < CommitLen(|s.lh|)
    case CommitDone(p) =>
      s.mode.Up? && p < |s.procs| && s.procs[p].Commit? && s.procs[p].k == CommitLen(s.procs[p].n)
    case Crash => true
    case RecoverWrite => s.mode.Boot? && s.mode.k <= |s.lh|
  }

  /** A reboot: disk kept, memory lost, read_head run on the surviving header. */
  function Restart(g: Geo, s: State): State
    requires g.Valid() && s.store.Sized(g)
  {
    s.(store := Reboot(s.store), lh := GetHeader(s.store.disk[g.start]), outstanding := 0, committing := false,
       procs := seq(|s.procs|, _ => Idle), mode := Boot(0))
  }

  function Next(g: Geo, s: State, t: Step): State
    requires Shape(g, s) && Enabled(g, s, t)
  {
    match t
    case BeginOp(p) =>
      if Admits(|s.lh|, s.outstanding, s.committing)
      then s.(outstanding := s.outstanding + 1, procs := s.procs[p := InOp(0)])
      else s.(procs := s.procs[p := Asleep])
    case LogWrite(p, b, data) =>
      s.(store := s.store.(view := s.store.view[b := data]),
         lh := Absorb(s.lh, b),
         procs := s.procs[p := InOp(s.procs[p].added + if b in s.lh then 0 else 1)])
    case EndOp(p) =>
      var o := s.outstanding - 1;
      if o == 0
      then s.(outstanding := o, committing := true, procs := s.procs[p := Commit(0, |s.lh|)])
      else s.(outstanding := o, procs := Wake(s.procs[p := Idle]))
    case CommitWrite(p) =>
      var k, n := s.procs[p].k, s.procs[p].n;
      var store := CommitStep(g, s.store, s.lh, k);
      s.(store := store,
         procs := s.procs[p := Commit(k + 1, n)],
         hist := if k == n then s.hist + [store.view] else s.hist)
    case CommitDone(p) =>
      s.(lh := [], committing := false, procs := Wake(s.procs[p := Idle]))
    case Crash => Restart(g, s)
    case RecoverWrite =>
      var store := RecoverStep(g, s.store, s.lh, s.mode.k);
      if s.mode.k < |s.lh| then s.(store := store, mode := Boot(s.mode.k + 1))
      else s.(store := store, lh := [], mode := Up)
  }

  // ----- the invariant -----

  /** Log space still reserved by the operations under way. */
  function Reserved(ps: seq<Pc>): int {
    if ps == [] then 0
    else (if ps[0].InOp? then MAXOPBLOCKS - ps[0].added else 0) + Reserved(ps[1..])
  }

  function Open(ps: seq<Pc>): nat {
    if ps == [] then 0 else (if ps[0].InOp? then 1 else 0) + Open(ps[1..])
  }

  ghost predicate Accounting(s: State) {
    && s.outstanding == Open(s.procs)
    && |s.lh| + Reserved(s.procs) <= LOGSIZE
    && (forall p :: 0 <= p < |s.procs| && s.procs[p].InOp? ==> s.procs[p].added <= MAXOPBLOCKS)
  }

  /** One committer at most, none while an operation is open, its header frozen; and whoever
      sleeps in begin_op has a wakeup coming. */
  ghost predicate Exclusion(s: State) {
    && (s.committing ==> s.outstanding == 0)
    && (s.committing <==> exists p :: 0 <= p < |s.procs| && s.procs[p].Commit?)
    && (forall p, q :: 0 <= p < |s.procs| && 0 <= q < |s.procs| && s.procs[p].Commit? && s.procs[q].Commit? ==> p == q)
    && (forall p :: 0 <= p < |s.procs| && s.procs[p].Commit? ==>
          s.procs[p].n == |s.lh| && s.procs[p].k <= CommitLen(|s.lh|))
    && (forall p :: 0 <= p < |s.procs| && s.procs[p].Asleep? ==> s.committing || s.outstanding > 0)
    && (s.mode.Up? && !s.committing && s.outstanding == 0 ==> s.lh == [])
  }

  function Last(h: seq<Image>): Image
    requires |h| > 0
  {
    h[|h| - 1]
  }

  /** The store, by phase: quiet; `k` writes into a commit of a quiet store; `k` writes into recovery. */
  ghost predicate Durable(g: Geo, s: State)
    requires Shape(g, s)
  {
    match s.mode
    case Boot(k) =>
      && k <= |s.lh| && s.store.view == s.store.disk
      && Recovers(g, s.store.disk, Last(s.hist)) && GetHeader(s.store.disk[g.start]) == s.lh
      && (forall i :: 0 <= i < k ==> s.store.disk[s.lh[i]] == Last(s.hist)[s.lh[i]])
    case Up =>
      (!s.committing ==> Quiet(g, s.store, s.lh, Last(s.hist))) &&
      forall p :: 0 <= p < |s.procs| && s.procs[p].Commit? && s.procs[p].k <= CommitLen(|s.lh|) ==>
        MidCommit(g, s, s.procs[p].k)
  }

  /** The store is what `k` writes of commit make of a store that was quiet when commit began;
      its image becomes history at write `|lh|`. */
  ghost predicate MidCommit(g: Geo, s: State, k: nat)
    requires Shape(g, s) && k <= CommitLen(|s.lh|)
  {
    exists s0: Store, img: Image :: CommitFrom(g, s, k, s0, img)
  }

  ghost predicate CommitFrom(g: Geo, s: State, k: nat, s0: Store, img: Image)
    requires Shape(g, s) && k <= CommitLen(|s.lh|)
  {
    && Quiet(g, s0, s.lh, img) && s.store == AfterCommit(g, s0, s.lh, k)
    && (if k <= |s.lh| then Last(s.hist) == img else SameHome(g, Last(s.hist), s0.view))
  }

  ghost predicate Inv(g: Geo, s: State) {
    Shape(g, s) && Accounting(s) && Exclusion(s) && Durable(g, s)
    && (s.mode.Boot? ==> s.outstanding == 0 && !s.committing)
  }

  // ----- lemmas -----

  lemma {:induction false} CountsUpdate(ps: seq<Pc>, p: nat, c: Pc)
    requires p < |ps|
    ensures Open(ps[p := c]) == Open(ps) - (if ps[p].InOp? then 1 else 0) + (if c.InOp? then 1 else 0)
    ensures Reserved(ps[p := c]) == Reserved(ps) - (if ps[p].InOp? then MAXOPBLOCKS - ps[p].added else 0)
                                    + (if c.InOp? then MAXOPBLOCKS - c.added else 0)
  {
    if p > 0 {
      CountsUpdate(ps[1..], p - 1, c);
      assert ps[p := c][1..] == ps[1..][p - 1 := c];
    } else {
      assert ps[p := c][1..] == ps[1..];
    }
  }

  lemma {:induction false} CountsWake(ps: seq<Pc>)
    ensures Open(Wake(ps)) == Open(ps) && Reserved(Wake(ps)) == Reserved(ps)
  {
    if ps != [] {
      CountsWake(ps[1..]);
      assert Wake(ps)[1..] == Wake(ps[1..]);
    }
  }

  lemma {:induction false} CountsIdle(n: nat)
    ensures Open(seq(n, _ => Idle)) == 0 && Reserved(seq(n, _ => Idle)) == 0
  {
    if n > 0 {
      CountsIdle(n - 1);
      assert seq(n, _ => Idle)[1..] == seq(n - 1, _ => Idle);
    }
  }

  /** What is reserved bounds what is open; the reservation of one open operation is within it. */
  lemma {:induction false} ReservedCovers(ps: seq<Pc>, p: nat)
    requires forall i :: 0 <= i < |ps| && ps[i].InOp? ==> ps[i].added <= MAXOPBLOCKS
    ensures 0 <= Reserved(ps) <= Open(ps) * MAXOPBLOCKS
    ensures p < |ps| && ps[p].InOp? ==> MAXOPBLOCKS - ps[p].added <= Reserved(ps) && Open(ps) > 0
  {
    if ps != [] { ReservedCovers(ps[1..], if p > 0 then p - 1 else 0); }
  }

  lemma CommitStepAdvances(g: Geo, s: Store, lh: seq<nat>, k: nat)
    requires g.Valid() && s.Sized(g) && g.Loggable(lh) && k < CommitLen(|lh|)
    ensures CommitStep(g, AfterCommit(g, s, lh, k), lh, k) == AfterCommit(g, s, lh, k + 1)
  {
  }

  lemma OneRecoverStep(g: Geo, s: Store, lh: seq<nat>, k: nat, img: Image)
    requires g.Valid() && s.Sized(g) && s.view == s.disk && Recovers(g, s.disk, img)
    requires GetHeader(s.disk[g.start]) == lh && k < |lh|
    requires forall i :: 0 <= i < k ==> s.disk[lh[i]] == img[lh[i]]
    ensures var r := RecoverStep(g, s, lh, k);
      && r.view == r.disk && Recovers(g, r.disk, img) && GetHeader(r.disk[g.start]) == lh
      && (forall i :: 0 <= i <= k ==> r.disk[lh[i]] == img[lh[i]])
  {
    assert LogAt(g, s.disk, k) == img[lh[k]];
    var r := RecoverStep(g, s, lh, k);
    forall i | 0 <= i < |lh| ensures LogAt(g, r.disk, i) == LogAt(g, s.disk, i) {}
  }

  lemma LastRecoverStep(g: Geo, s: Store, lh: seq<nat>, img: Image)
    requires g.Valid() && s.Sized(g) && s.view == s.disk && Recovers(g, s.disk, img)
    requires GetHeader(s.disk[g.start]) == lh
    requires forall i :: 0 <= i < |lh| ==> s.disk[lh[i]] == img[lh[i]]
    ensures Quiet(g, RecoverStep(g, s, lh, |lh|), [], img)
  {
    forall b | g.Home(b) ensures s.disk[b] == img[b] {
      if b in lh { var i :| 0 <= i < |lh| && lh[i] == b; }
    }
    ClearKeepsRecovers(g, s, img);
  }

  lemma QuietSame(g: Geo, s: Store, lh: seq<nat>, a: Image, b: Image)
    requires g.Valid() && Quiet(g, s, lh, a) && SameHome(g, a, b)
    ensures Quiet(g, s, lh, b)
  {
  }

  lemma RecoversSame(g: Geo, disk: Image, a: Image, b: Image)
    requires g.Valid() && Recovers(g, disk, a) && SameHome(g, a, b)
    ensures Recovers(g, disk, b)
  {
  }

  /** In every state of the invariant, a crash now and one full recovery give the last image. */
  lemma InvRecovers(g: Geo, s: State)
    requires Inv(g, s)
    ensures Recovers(g, s.store.disk, Last(s.hist))
  {
    if s.mode.Up? {
      if s.committing {
        var p :| 0 <= p < |s.procs| && s.procs[p].Commit?;
        var k := s.procs[p].k;
        var s0, img :| CommitFrom(g, s, k, s0, img);
        if |s.lh| > 0 {
          CommitCrashAtomic(g, s0, s.lh, img, k);
          if k > |s.lh| { RecoversSame(g, s.store.disk, s0.view, Last(s.hist)); }
        } else {
          BeforeHeader(g, s0, s.lh, img, 0);
        }
      } else {
        BeforeHeader(g, s.store, s.lh, Last(s.hist), 0);
      }
    }
  }

  // ----- the invariant is kept -----

  lemma BeginOpCounts(g: Geo, s: State, p: nat)
    requires Inv(g, s) && Enabled(g, s, BeginOp(p))
    ensures Accounting(Next(g, s, BeginOp(p))) && Exclusion(Next(g, s, BeginOp(p)))
  {
    hide Durable, MidCommit;
    ReservedCovers(s.procs, p);
    var r := Next(g, s, BeginOp(p));
    if Admits(|s.lh|, s.outstanding, s.committing) {
      CountsUpdate(s.procs, p, InOp(0));
    } else {
      CountsUpdate(s.procs, p, Asleep);
      if s.committing {
        var q :| 0 <= q < |s.procs| && s.procs[q].Commit?;
        assert r.procs[q].Commit?;
      }
      assert s.committing || s.outstanding > 0;
    }
  }

  lemma BeginOpKeeps(g: Geo, s: State, p: nat)
    requires Inv(g, s) && Enabled(g, s, BeginOp(p))
    ensures Inv(g, Next(g, s, BeginOp(p)))
  {
    BeginOpCounts(g, s, p);
    hide Accounting, Exclusion, Reserved, Open;
    var r := Next(g, s, BeginOp(p));
    if r.committing {
      forall q | 0 <= q < |r.procs| && r.procs[q].Commit? ensures MidCommit(g, r, r.procs[q].k) {
        SameStoreMidCommit(g, s, r, s.procs[q].k);
      }
    }
  }

  /** MidCommit looks at the store, the header and the history only. */
  lemma SameStoreMidCommit(g: Geo, s: State, r: State, k: nat)
    requires Shape(g, s) && Shape(g, r) && s.store == r.store && s.lh == r.lh && s.hist == r.hist
    requires k <= CommitLen(|s.lh|) && MidCommit(g, s, k)
    ensures MidCommit(g, r, k)
  {
    var s0, img :| CommitFrom(g, s, k, s0, img);
    assert CommitFrom(g, r, k, s0, img);
  }

  lemma LogWriteKeeps(g: Geo, s: State, t: Step)
    requires t.LogWrite? && Inv(g, s) && Enabled(g, s, t)
    ensures Inv(g, Next(g, s, t))
  {
    ReservedCovers(s.procs, t.p);
    var r := Next(g, s, t);
    CountsUpdate(s.procs, t.p, r.procs[t.p]);
    assert s.outstanding > 0 && !s.committing;
    assert g.Loggable(r.lh);
    forall b | 0 <= b < g.nblocks && b !in r.lh ensures r.store.view[b] == r.store.disk[b] {
      assert t.b in r.lh;
      assert b !in s.lh;
    }
  }

  lemma EndOpKeeps(g: Geo, s: State, p: nat)
    requires Inv(g, s) && Enabled(g, s, EndOp(p))
    ensures Inv(g, Next(g, s, EndOp(p)))
  {
    ReservedCovers(s.procs, p);
    var r := Next(g, s, EndOp(p));
    assert s.outstanding > 0 && !s.committing;
    if s.outstanding == 1 {
      var c := Commit(0, |s.lh|);
      CountsUpdate(s.procs, p, c);
      assert r.procs[p].Commit?;
      assert forall q :: 0 <= q < |r.procs| && q != p ==> r.procs[q] == s.procs[q];
      assert CommitFrom(g, r, 0, s.store, Last(s.hist));
    } else {
      CountsUpdate(s.procs, p, Idle);
      CountsWake(s.procs[p := Idle]);
    }
  }

  /** The image recorded at the header write is the cache's home blocks when commit began. */
  lemma HeaderWriteImage(g: Geo, s0: Store, lh: seq<nat>, img: Image, s: Store)
    requires g.Valid() && Quiet(g, s0, lh, img) && |lh| > 0 && s == AfterCommit(g, s0, lh, |lh|)
    ensures SameHome(g, CommitStep(g, s, lh, |lh|).view, s0.view)
  {
    LogIsWritten(g, s0, lh, img);
  }

  lemma CommitWriteFrom(g: Geo, s: State, p: nat, s0: Store, img: Image)
    requires Inv(g, s) && Enabled(g, s, CommitWrite(p)) && CommitFrom(g, s, s.procs[p].k, s0, img)
    ensures Shape(g, Next(g, s, CommitWrite(p)))
    ensures CommitFrom(g, Next(g, s, CommitWrite(p)), s.procs[p].k + 1, s0, img)
  {
    hide Quiet, AfterCommit, Accounting, Exclusion, Durable, CommitStep, SameHome;
    var k := s.procs[p].k;
    CommitStepAdvances(g, s0, s.lh, k);
    if k == |s.lh| { HeaderWriteImage(g, s0, s.lh, img, s.store); }
  }

  lemma CommitAdvances(g: Geo, s: State, p: nat, r: State)
    requires Inv(g, s) && s.mode.Up? && p < |s.procs| && s.procs[p].Commit? && s.procs[p].k < CommitLen(|s.lh|)
    requires Shape(g, r) && r == s.(store := r.store, hist := r.hist, procs := s.procs[p := Commit(s.procs[p].k + 1, |s.lh|)])
    requires MidCommit(g, r, s.procs[p].k + 1)
    ensures Inv(g, r)
  {
    CountsUpdate(s.procs, p, r.procs[p]);
    assert r.procs[p].Commit?;
    assert forall q :: 0 <= q < |r.procs| && q != p ==> r.procs[q] == s.procs[q];
  }

  lemma CommitWriteKeeps(g: Geo, s: State, p: nat)
    requires Inv(g, s) && Enabled(g, s, CommitWrite(p))
    ensures Inv(g, Next(g, s, CommitWrite(p)))
  {
    hide Accounting, Quiet, AfterCommit, CommitStep, SameHome;
    var s0, img :| CommitFrom(g, s, s.procs[p].k, s0, img);
    hide Durable, Exclusion, CommitFrom;
    CommitWriteFrom(g, s, p, s0, img);
    hide Inv;
    CommitAdvances(g, s, p, Next(g, s, CommitWrite(p)));
  }

  /** A finished commit leaves the store quiet with the newest image. */
  lemma CommitDoneQuiet(g: Geo, s: State, p: nat)
    requires Inv(g, s) && Enabled(g, s, CommitDone(p))
    ensures Quiet(g, s.store, [], Last(s.hist))
  {
    var k := s.procs[p].k;
    var s0, img :| CommitFrom(g, s, k, s0, img);
    if |s.lh| > 0 {
      CommitCrashAtomic(g, s0, s.lh, img, k);
      QuietSame(g, s.store, [], s0.view, Last(s.hist));
    }
  }

  lemma CommitDoneKeeps(g: Geo, s: State, p: nat)
    requires Inv(g, s) && Enabled(g, s, CommitDone(p))
    ensures Inv(g, Next(g, s, CommitDone(p)))
  {
    CommitDoneQuiet(g, s, p);
    CountsUpdate(s.procs, p, Idle);
    CountsWake(s.procs[p := Idle]);
    NobodyOpen(s.procs, p);
  }

  lemma {:induction false} NobodyOpen(ps: seq<Pc>, p: nat)
    requires p < |ps|
    ensures Open(ps) == 0 ==> Reserved(ps) == 0
  {
    if |ps| > 1 { NobodyOpen(ps[1..], 0); } else { assert ps[1..] == []; }
  }

  lemma CrashKeeps(g: Geo, s: State)
    requires Inv(g, s)
    ensures Inv(g, Next(g, s, Crash))
  {
    InvRecovers(g, s);
    CountsIdle(|s.procs|);
  }

  lemma RecoverWriteKeeps(g: Geo, s: State)
    requires Inv(g, s) && Enabled(g, s, RecoverWrite)
    ensures Inv(g, Next(g, s, RecoverWrite))
  {
    ReservedCovers(s.procs, 0);
    if s.mode.k < |s.lh| {
      OneRecoverStep(g, s.store, s.lh, s.mode.k, Last(s.hist));
    } else {
      LastRecoverStep(g, s.store, s.lh, Last(s.hist));
    }
  }

  lemma NextKeepsInv(g: Geo, s: State, t: Step)
    requires Inv(g, s) && Enabled(g, s, t)
    ensures Inv(g, Next(g, s, t))
  {
    match t
    case BeginOp(p) => BeginOpKeeps(g, s, p);
    case LogWrite(_, _, _) => LogWriteKeeps(g, s, t);
    case EndOp(p) => EndOpKeeps(g, s, p);
    case CommitWrite(p) => CommitWriteKeeps(g, s, p);
    case CommitDone(p) => CommitDoneKeeps(g, s, p);
    case Crash => CrashKeeps(g, s);
    case RecoverWrite => RecoverWriteKeeps(g, s);
  }

  // ----- whole runs -----

  /** `s` reaches `r` by these steps, each enabled when taken. */
  ghost predicate Run(g: Geo, s: State, ts: seq<Step>, r: State)
    decreases |ts|
  {
    if ts == [] then s == r
    else Shape(g, s) && Enabled(g, s, ts[0]) && Run(g, Next(g, s, ts[0]), ts[1..], r)
  }

  /** A machine just booted from a disk whose log is empty. */
  ghost predicate Init(g: Geo, s: State) {
    && g.Valid() && |s.store.disk| == g.nblocks
    && GetHeader(s.store.disk[g.start]) == []
    && s == State(Store(s.store.disk, s.store.disk), [], 0, false, seq(|s.procs|, _ => Idle), Up, [s.store.disk])
  }

  lemma {:induction false} RunKeepsInv(g: Geo, s: State, ts: seq<Step>, r: State)
    requires Inv(g, s) && Run(g, s, ts, r)
    ensures Inv(g, r) && s.hist <= r.hist
    decreases |ts|
  {
    if ts != [] {
      NextKeepsInv(g, s, ts[0]);
      RunKeepsInv(g, Next(g, s, ts[0]), ts[1..], r);
    }
  }

  lemma InitInv(g: Geo, s: State)
    requires Init(g, s)
    ensures Inv(g, s)
  {
    CountsIdle(|s.procs|);
  }

  /** Crash safety of every run: whatever processes, commits, crashes and interrupted recoveries came
      before, a crash now followed by one complete recovery leaves exactly the newest image in
      history on the home blocks; and history only ever grows. */
  lemma CrashSafety(g: Geo, s: State, ts: seq<Step>, r: State)
    requires Init(g, s) && Run(g, s, ts, r)
    ensures s.hist <= r.hist
    ensures Recovers(g, r.store.disk, Last(r.hist))
    ensures var k := |GetHeader(r.store.disk[g.start])| + 1;
      SameHome(g, AfterRecovery(g, Reboot(r.store), k).disk, Last(r.hist))
  {
    InitInv(g, s);
    RunKeepsInv(g, s, ts, r);
    InvRecovers(g, r);
    RecoveryYields(g, r.store.disk, Last(r.hist));
  }

  /** While a commit is under way nobody logs: every step but a crash and the commit's own end
      leaves all readers the same home blocks, and the committer in its commit. */
  lemma CommittingStep(g: Geo, s: State, t: Step)
    requires Inv(g, s) && s.mode.Up? && s.committing && Enabled(g, s, t) && !t.Crash? && !t.CommitDone?
    ensures var r := Next(g, s, t);
      && Inv(g, r) && r.mode.Up? && r.committing && SameHome(g, r.store.view, s.store.view)
      && forall p :: 0 <= p < |s.procs| && s.procs[p].Commit? ==> p < |r.procs| && r.procs[p].Commit?
  {
    NextKeepsInv(g, s, t);
    hide Durable;
    NobodyInOp(g, s);
    if t.CommitWrite? {
      CommitWriteView(g, s, t.p);
      hide CommitStep, SameHome;
    }
  }

  lemma NobodyInOp(g: Geo, s: State)
    requires Inv(g, s) && s.committing
    ensures forall p :: 0 <= p < |s.procs| ==> !s.procs[p].InOp?
  {
    forall p | 0 <= p < |s.procs| ensures !s.procs[p].InOp? { ReservedCovers(s.procs, p); }
  }

  lemma CommitWriteView(g: Geo, s: State, p: nat)
    requires Inv(g, s) && Enabled(g, s, CommitWrite(p))
    ensures SameHome(g, Next(g, s, CommitWrite(p)).store.view, s.store.view)
  {
    hide Accounting, Quiet, AfterCommit, CommitStep, SameHome;
    var k := s.procs[p].k;
    var s0, img :| CommitFrom(g, s, k, s0, img);
    CommitWriteFrom(g, s, p, s0, img);
    hide Durable, Exclusion, Inv, Enabled;
    var r := Next(g, s, CommitWrite(p));
    assert s.store == AfterCommit(g, s0, s.lh, k) && r.store == AfterCommit(g, s0, s.lh, k + 1);
    CommitKeepsView(g, s0, s.lh, img, k);
    CommitKeepsView(g, s0, s.lh, img, k + 1);
    hide *;
    SameHomeTwice(g, r.store.view, s0.view, s.store.view);
  }

  lemma SameHomeTwice(g: Geo, a: Image, b: Image, c: Image)
    requires SameHome(g, a, b) && SameHome(g, c, b)
    ensures SameHome(g, a, c)
  {
  }

  lemma {:induction false} CommittingRun(g: Geo, s: State, ts: seq<Step>, r: State, p: nat)
    requires Inv(g, s) && s.mode.Up? && s.committing && Run(g, s, ts, r) && p < |s.procs| && s.procs[p].Commit?
    requires forall t :: t in ts ==> !t.Crash? && !t.CommitDone?
    ensures Inv(g, r) && SameHome(g, r.store.view, s.store.view) && p < |r.procs| && r.procs[p].Commit?
    decreases |ts|
  {
    if ts != [] {
      CommittingStep(g, s, ts[0]);
      CommittingRun(g, Next(g, s, ts[0]), ts[1..], r, p);
    }
  }

  /** From the end_op that starts a commit to the moment it returns, with any steps of other
      processes in between: what the cache held when the commit began is then on disk at home and is
      the newest image in history, so no later crash can lose it, and nothing is left to commit. */
  lemma CommitDurable(g: Geo, s: State, p: nat, ts: seq<Step>, m: State)
    requires Inv(g, s) && Enabled(g, s, EndOp(p)) && s.outstanding == 1
    requires Run(g, Next(g, s, EndOp(p)), ts, m) && forall t :: t in ts ==> !t.Crash? && !t.CommitDone?
    requires Shape(g, m) && Enabled(g, m, CommitDone(p))
    ensures var r := Next(g, m, CommitDone(p));
      && r.lh == [] && SameHome(g, r.store.disk, s.store.view)
      && SameHome(g, Last(r.hist), s.store.view) && SameHome(g, r.store.view, s.store.view)
  {
    var a := Next(g, s, EndOp(p));
    NextKeepsInv(g, s, EndOp(p));
    CommittingRun(g, a, ts, m, p);
    hide Run;
    CommitReturns(g, m, p);
  }

  lemma CommitReturns(g: Geo, s: State, p: nat)
    requires Inv(g, s) && Enabled(g, s, CommitDone(p))
    ensures var r := Next(g, s, CommitDone(p));
      && r.lh == [] && r.store == s.store
      && SameHome(g, r.store.view, Last(r.hist)) && SameHome(g, r.store.disk, Last(r.hist))
  {
    CommitDoneKeeps(g, s, p);
    var r := Next(g, s, CommitDone(p));
    assert s.committing && !r.committing;
  }

  /** The home blocks a crash now and one complete recovery would give. */
  function Recovered(g: Geo, disk: Image): Image
    requires g.Valid() && |disk| == g.nblocks && g.Loggable(GetHeader(disk[g.start]))
  {
    AfterRecovery(g, Store(disk, disk), |GetHeader(disk[g.start])| + 1).disk
  }

  /** The header write is the commit point and the only one: it alone of all steps changes what
      recovery would give, from the old image to what the cache holds, whole group at once. */
  lemma HistoryGrowsAtHeaderWrite(g: Geo, s: State, t: Step)
    requires Inv(g, s) && Enabled(g, s, t)
    ensures var r := Next(g, s, t);
      && g.Loggable(GetHeader(s.store.disk[g.start])) && r.store.Sized(g) && g.Loggable(GetHeader(r.store.disk[g.start]))
      && if t.CommitWrite? && s.procs[t.p].k == |s.lh|
         then r.hist == s.hist + [r.store.view] && SameHome(g, Recovered(g, r.store.disk), s.store.view)
         else r.hist == s.hist && SameHome(g, Recovered(g, r.store.disk), Recovered(g, s.store.disk))
  {
    var r := Next(g, s, t);
    NextKeepsInv(g, s, t);
    YieldsLast(g, s);
    YieldsLast(g, r);
    if t.CommitWrite? && s.procs[t.p].k == |s.lh| { CommitWriteView(g, s, t.p); }
    hide Inv, Recovered, AfterRecovery, GetHeader, CommitStep, Restart, RecoverStep, Recovers, Enabled;
  }

  lemma YieldsLast(g: Geo, s: State)
    requires Inv(g, s)
    ensures s.store.Sized(g) && g.Loggable(GetHeader(s.store.disk[g.start]))
    ensures SameHome(g, Recovered(g, s.store.disk), Last(s.hist))
  {
    InvRecovers(g, s);
    RecoveryYields(g, s.store.disk, Last(s.hist));
  }

  // ----- log space -----

  /** The reservation bound: blocks in the log plus what open operations may still add. An operation
      with room left finds the log not yet full. */
  lemma ReservationHolds(g: Geo, s: State, ts: seq<Step>, r: State, p: nat)
    requires Init(g, s) && Run(g, s, ts, r)
    ensures |r.lh| + Reserved(r.procs) <= LOGSIZE
    ensures p < |r.procs| && r.procs[p].InOp? && r.procs[p].added < MAXOPBLOCKS ==> |r.lh| < LOGSIZE && r.outstanding >= 1
  {
    InitInv(g, s);
    RunKeepsInv(g, s, ts, r);
    ReservedCovers(r.procs, p);
  }

  /** So a log_write that adds a block cannot panic when the log area has LOGSIZE + 1 blocks... */
  lemma NewBlockNeverPanics(g: Geo, s: State, ts: seq<Step>, r: State, p: nat)
    requires Init(g, s) && Run(g, s, ts, r) && g.size >= LOGSIZE + 1
    requires p < |r.procs| && r.procs[p].InOp? && r.procs[p].added < MAXOPBLOCKS
    ensures !LogWritePanics(g, |r.lh|, r.outstanding)
  {
    ReservationHolds(g, s, ts, r, p);
  }

  /** In any reachable state an open operation's log_write panics exactly when the log is full,
      even if the block is already in the log and would only be absorbed. */
  lemma LogWritePanicsExactly(g: Geo, s: State, ts: seq<Step>, r: State, p: nat)
    requires Init(g, s) && Run(g, s, ts, r) && p < |r.procs| && r.procs[p].InOp?
    ensures LogWritePanics(g, |r.lh|, r.outstanding) <==> |r.lh| == LOGSIZE || |r.lh| == g.size - 1
  {
    InitInv(g, s);
    RunKeepsInv(g, s, ts, r);
    ReservedCovers(r.procs, p);
  }

  /** Absorption does not help: three operations within their allowance fill the log, and then
      logging again a block already in the log panics, however large the log area is. */
  lemma AbsorbedWriteCanPanic(g: Geo, s: State, hb: seq<nat>) returns (ts: seq<Step>, r: State)
    requires Init(g, s) && |s.procs| >= 3 && g.size >= LOGSIZE + 1 && g.Loggable(hb) && |hb| == LOGSIZE
    ensures Run(g, s, ts, r) && |r.procs| >= 3 && r.procs[0].InOp? && hb[0] in r.lh
    ensures Absorb(r.lh, hb[0]) == r.lh && LogWritePanics(g, |r.lh|, r.outstanding)
  {
    ts, r := FillLog(g, s, hb, LOGSIZE);
  }

  lemma {:induction false} RunExtend(g: Geo, s: State, ts: seq<Step>, m: State, t: Step)
    requires Run(g, s, ts, m) && Shape(g, m) && Enabled(g, m, t)
    ensures Run(g, s, ts + [t], Next(g, m, t))
    decreases |ts|
  {
    if ts == [] {
      assert ([t])[1..] == [];
    } else {
      RunExtend(g, Next(g, s, ts[0]), ts[1..], m, t);
      assert (ts + [t])[0] == ts[0] && (ts + [t])[1..] == ts[1..] + [t];
    }
  }

  /** What the `j`th of three operations has added after `m` blocks, filled one operation at a time. */
  function Share(m: nat, j: nat): nat {
    if m <= j * MAXOPBLOCKS then 0 else if m >= (j + 1) * MAXOPBLOCKS then MAXOPBLOCKS else m - j * MAXOPBLOCKS
  }

  ghost predicate ThreeOps(g: Geo, s: State, hb: seq<nat>, m: nat) {
    && Shape(g, s) && s.mode.Up? && s.outstanding == 3 && |s.procs| >= 3 && m <= |hb| && s.lh == hb[..m]
    && (forall j :: 0 <= j < 3 ==> s.procs[j] == InOp(Share(m, j)))
  }

  lemma ThreeBegin(g: Geo, s: State) returns (ts: seq<Step>, r: State)
    requires Init(g, s) && |s.procs| >= 3
    ensures Run(g, s, ts, r) && ThreeOps(g, r, [], 0)
  {
    var a := Next(g, s, BeginOp(0));
    var b := Next(g, a, BeginOp(1));
    r := Next(g, b, BeginOp(2));
    assert Run(g, s, [], s);
    RunExtend(g, s, [], s, BeginOp(0));
    RunExtend(g, s, [] + [BeginOp(0)], a, BeginOp(1));
    ts := [] + [BeginOp(0)] + [BeginOp(1)] + [BeginOp(2)];
    RunExtend(g, s, [] + [BeginOp(0)] + [BeginOp(1)], b, BeginOp(2));
  }

  lemma {:induction false} FillLog(g: Geo, s: State, hb: seq<nat>, m: nat) returns (ts: seq<Step>, r: State)
    requires Init(g, s) && |s.procs| >= 3 && g.Loggable(hb) && m <= |hb| <= LOGSIZE
    ensures Run(g, s, ts, r) && ThreeOps(g, r, hb, m)
  {
    if m == 0 {
      ts, r := ThreeBegin(g, s);
    } else {
      var q;
      ts, q := FillLog(g, s, hb, m - 1);
      var p := (m - 1) / MAXOPBLOCKS;
      var t := LogWrite(p, hb[m - 1], ZeroBlock());
      assert hb[..m] == hb[..m - 1] + [hb[m - 1]];
      RunExtend(g, s, ts, q, t);
      ts, r := ts + [t], Next(g, q, t);
    }
  }

  /** ...and with fewer it can: for every smaller log area (mkfs makes one of LOGSIZE blocks) and
      enough blocks outside it, three operations within their allowance reach a state where one of
      them still has room and its next log_write panics. */
  lemma SmallLogCanPanic(g: Geo, s: State, hb: seq<nat>) returns (ts: seq<Step>, r: State, p: nat)
    requires Init(g, s) && |s.procs| >= 3 && g.size <= LOGSIZE && g.Loggable(hb) && |hb| == g.size - 1
    ensures Run(g, s, ts, r) && p < |r.procs| && r.procs[p].InOp? && r.procs[p].added < MAXOPBLOCKS
    ensures LogWritePanics(g, |r.lh|, r.outstanding)
  {
    ts, r := FillLog(g, s, hb, |hb|);
    p := |hb| / MAXOPBLOCKS;
  }

  // ----- waiting -----

  /** In every reachable state: a commit runs alone, end_op never finds one under way, an idle log is
      empty, and a process asleep in begin_op is owed a wakeup by a commit or an open operation. */
  lemma NobodyStranded(g: Geo, s: State, ts: seq<Step>, r: State)
    requires Init(g, s) && Run(g, s, ts, r)
    ensures r.committing ==> r.outstanding == 0
    ensures forall p, q :: 0 <= p < |r.procs| && 0 <= q < |r.procs| && r.procs[p].Commit? && r.procs[q].Commit? ==> p == q
    ensures forall p :: 0 <= p < |r.procs| && r.procs[p].InOp? ==> !r.committing
    ensures forall p :: 0 <= p < |r.procs| && r.procs[p].Asleep? ==> r.committing || r.outstanding > 0
    ensures |r.hist| > 0
    ensures r.mode.Up? && !r.committing && r.outstanding == 0 ==> r.lh == [] && SameHome(g, r.store.disk, Last(r.hist))
  {
    InitInv(g, s);
    RunKeepsInv(g, s, ts, r);
    forall p | 0 <= p < |r.procs| && r.procs[p].InOp? ensures !r.committing {
      ReservedCovers(r.procs, p);
    }
  }
}
