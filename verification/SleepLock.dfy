/** sleep, wakeup and the sleep-lock, one lock operation at a time. */
module SleepLock {
  // Any number of processes, with the lock's inner spinlock `lk` and ptable.lock as guarded steps,
  // kill included.

  /** Where a process is.
      acquiresleep: Out -> Test -> (Got -> Holder) or into sleep;
      sleep: WantTable -> Both -> Doze -> Asleep -> Woken -> Back -> Relock -> Test again;
      releasesleep: Holder -> Clear -> WakeWant -> Waking -> Woke -> Leave -> Out. */
  datatype Pc =
    | Out
    | Test       // holds lk, at `while(lk->locked)`
    | Got        // holds lk, has set locked, about to release lk
    | Holder     // has the sleep-lock, holds no spinlock
    | WantTable  // in sleep, holds lk, about to acquire ptable.lock
    | Both       // in sleep, holds lk and ptable.lock
    | Doze       // in sleep, has released lk, about to set SLEEPING and switch away
    | Asleep     // SLEEPING on this lock
    | Woken      // RUNNABLE, still inside sched()
    | Back       // running again in sleep, holds ptable.lock
    | Relock     // about to reacquire lk
    | Clear      // in releasesleep, holds lk, about to clear locked
    | WakeWant   // holds lk, in wakeup, about to acquire ptable.lock
    | Waking     // holds both, about to run wakeup1
    | Woke       // holds both, wakeup1 done
    | Leave      // holds lk, about to release it

  datatype Holding = Free | By(p: nat) | Scheduler

  datatype State = State(lk: Holding, table: Holding, locked: bool, owner: nat, pcs: seq<Pc>)

  /** `Go(p)` is the next lock operation or assignment of process `p`. */
  datatype Step = Go(p: nat) | Yielded | Kill(p: nat)

  predicate HasLk(pc: Pc) {
    pc in {Test, Got, WantTable, Both, Clear, WakeWant, Waking, Woke, Leave}
  }

  predicate HasTable(pc: Pc) { pc in {Both, Doze, Back, Waking, Woke} }

  /** The process owns the sleep-lock. */
  predicate Owns(pc: Pc) { pc in {Got, Holder, Clear} }

  predicate WantsLk(pc: Pc) { pc in {Out, Relock, Holder} }

  predicate WantsTable(pc: Pc) { pc in {WantTable, WakeWant} }

  /** A spinlock is acquired only when free; a woken process comes back through the scheduler,
      which holds ptable.lock. */
  predicate Enabled(s: State, t: Step) {
    match t
    case Go(p) =>
      && p < |s.pcs| && s.pcs[p] != Asleep
      && (WantsLk(s.pcs[p]) ==> s.lk == Free)
      && (WantsTable(s.pcs[p]) ==> s.table == Free)
      && (s.pcs[p] == Woken ==> !s.table.By?)
    case Yielded => s.table == Scheduler
    case Kill(p) => p < |s.pcs| && s.table == Free
  }

  function WakeAll(pcs: seq<Pc>): (r: seq<Pc>)
    ensures |r| == |pcs| && forall q :: 0 <= q < |pcs| ==> r[q] == if pcs[q] == Asleep then Woken else pcs[q]
  {
    seq(|pcs|, q requires 0 <= q < |pcs| => if pcs[q] == Asleep then Woken else pcs[q])
  }

  function At(s: State, p: nat, pc: Pc): State
    requires p < |s.pcs|
  {
    s.(pcs := s.pcs[p := pc])
  }

  function Next(s: State, t: Step): State
    requires Enabled(s, t)
  {
    match t
    case Yielded => s.(table := Free)
    case Kill(p) => if s.pcs[p] == Asleep then At(s, p, Woken) else s
    case Go(p) =>
      match s.pcs[p]
      case Out => At(s, p, Test).(lk := By(p))
      case Test => if s.locked then At(s, p, WantTable) else At(s, p, Got).(locked := true, owner := p)
      case Got => At(s, p, Holder).(lk := Free)
      case WantTable => At(s, p, Both).(table := By(p))
      case Both => At(s, p, Doze).(lk := Free)
      case Doze => At(s, p, Asleep).(table := Scheduler)
      case Woken => At(s, p, Back).(table := By(p))
      case Back => At(s, p, Relock).(table := Free)
      case Relock => At(s, p, Test).(lk := By(p))
      case Holder => At(s, p, Clear).(lk := By(p))
      case Clear => At(s, p, WakeWant).(locked := false)
      case WakeWant => At(s, p, Waking).(table := By(p))
      case Waking => At(s.(pcs := WakeAll(s.pcs)), p, Woke)
      case Woke => At(s, p, Leave).(table := Free)
      case Leave => At(s, p, Out).(lk := Free)
      case Asleep => s
  }

  // ----- invariant -----

  ghost predicate Consistent(s: State, p: nat)
    requires p < |s.pcs|
  {
    && (s.lk == By(p) <==> HasLk(s.pcs[p]))
    && (s.table == By(p) <==> HasTable(s.pcs[p]))
    && (Owns(s.pcs[p]) <==> s.locked && s.owner == p)
    && (s.pcs[p] in {WantTable, Both} ==> s.locked)
  }

  /** Someone is on the way to waking every sleeper. */
  ghost predicate WakerComing(s: State) {
    exists r :: 0 <= r < |s.pcs| && s.pcs[r] in {WakeWant, Waking}
  }

  ghost predicate Inv(s: State) {
    && (forall p :: 0 <= p < |s.pcs| ==> Consistent(s, p))
    && Bounds(s)
    && (forall p :: 0 <= p < |s.pcs| && s.pcs[p] in {Doze, Asleep} ==> s.locked || WakerComing(s))
  }

  function Start(n: nat): State { State(Free, Free, false, 0, seq(n, _ => Out)) }

  lemma GoKeepsOther(s: State, p: nat, q: nat)
    requires Enabled(s, Go(p)) && q < |s.pcs| && q != p && Consistent(s, p) && Consistent(s, q)
    ensures Consistent(Next(s, Go(p)), q)
  {
  }

  lemma GoKeepsOwn(s: State, p: nat)
    requires Enabled(s, Go(p)) && Consistent(s, p)
    ensures Consistent(Next(s, Go(p)), p)
  {
  }

  lemma GoKeepsConsistent(s: State, p: nat)
    requires Inv(s) && Enabled(s, Go(p))
    ensures |Next(s, Go(p)).pcs| == |s.pcs|
    ensures forall q :: 0 <= q < |s.pcs| ==> Consistent(Next(s, Go(p)), q)
  {
    GoKeepsSize(s, p);
    hide Next, Consistent, Bounds;
    forall q | 0 <= q < |s.pcs| ensures Consistent(Next(s, Go(p)), q) {
      if q == p { GoKeepsOwn(s, p); } else { GoKeepsOther(s, p, q); }
    }
  }

  lemma GoKeepsSize(s: State, p: nat)
    requires Enabled(s, Go(p))
    ensures |Next(s, Go(p)).pcs| == |s.pcs|
  {
  }

  lemma GoKeepsWaker(s: State, p: nat)
    requires Inv(s) && Enabled(s, Go(p))
    ensures var n := Next(s, Go(p));
      forall q :: 0 <= q < |n.pcs| && n.pcs[q] in {Doze, Asleep} ==> n.locked || WakerComing(n)
  {
    var n := Next(s, Go(p));
    assert Consistent(s, p);
    forall q | 0 <= q < |n.pcs| && n.pcs[q] in {Doze, Asleep} ensures n.locked || WakerComing(n) {
      assert Consistent(s, q);
      if s.pcs[p] == Clear || s.pcs[p] == WakeWant {
        assert n.pcs[p] in {WakeWant, Waking};
      } else if q != p && WakerComing(s) {
        var r :| 0 <= r < |s.pcs| && s.pcs[r] in {WakeWant, Waking};
        assert Consistent(s, r);
        if r != p {
          assert n.pcs[r] == s.pcs[r];
        }
      } else if q == p && s.pcs[p] == Doze && WakerComing(s) {
        var r :| 0 <= r < |s.pcs| && s.pcs[r] in {WakeWant, Waking};
        assert n.pcs[r] == s.pcs[r];
      }
    }
  }

  ghost predicate Bounds(s: State) {
    && (s.lk.By? ==> s.lk.p < |s.pcs|) && s.lk != Scheduler
    && (s.table.By? ==> s.table.p < |s.pcs|)
    && (s.locked ==> s.owner < |s.pcs|)
  }

  lemma GoKeepsBounds(s: State, p: nat)
    requires Bounds(s) && Enabled(s, Go(p))
    ensures Bounds(Next(s, Go(p)))
  {
  }

  lemma GoKeepsInv(s: State, p: nat)
    requires Inv(s) && Enabled(s, Go(p))
    ensures Inv(Next(s, Go(p)))
  {
    hide Next, Consistent, WakerComing, Bounds;
    GoKeepsBounds(s, p);
    GoKeepsConsistent(s, p);
    GoKeepsWaker(s, p);
  }

  lemma KillKeepsInv(s: State, p: nat)
    requires Inv(s) && p < |s.pcs| && s.pcs[p] == Asleep
    ensures Inv(At(s, p, Woken))
  {
    var n := At(s, p, Woken);
    forall q | 0 <= q < |n.pcs| ensures Consistent(n, q) { assert Consistent(s, q); }
    if r :| 0 <= r < |s.pcs| && s.pcs[r] in {WakeWant, Waking} { assert n.pcs[r] == s.pcs[r]; }
    hide Consistent;
  }

  lemma YieldKeepsInv(s: State)
    requires Inv(s) && s.table == Scheduler
    ensures Inv(s.(table := Free))
  {
    var n := s.(table := Free);
    forall q | 0 <= q < |n.pcs| ensures Consistent(n, q) { assert Consistent(s, q); }
    hide Consistent;
    assert WakerComing(s) ==> WakerComing(n);
  }

  lemma NextKeepsInv(s: State, t: Step)
    requires Inv(s) && Enabled(s, t)
    ensures Inv(Next(s, t))
  {
    hide Inv;
    match t
    case Go(p) => GoKeepsInv(s, p);
    case Yielded => YieldKeepsInv(s);
    case Kill(p) => if s.pcs[p] == Asleep { KillKeepsInv(s, p); }
  }

  /** A run of the machine. */
  ghost predicate Run(ss: seq<State>, ts: seq<Step>) {
    |ss| == |ts| + 1 && forall k :: 0 <= k < |ts| ==> Stepped(ss[k], ts[k], ss[k + 1])
  }

  ghost predicate Stepped(s: State, t: Step, n: State) { Enabled(s, t) && n == Next(s, t) }

  lemma {:induction false} RunInv(ss: seq<State>, ts: seq<Step>, n: nat, k: nat)
    requires Run(ss, ts) && ss[0] == Start(n) && k < |ss|
    ensures Inv(ss[k])
  {
    if k > 0 {
      RunInv(ss, ts, n, k - 1);
      assert Stepped(ss[k - 1], ts[k - 1], ss[k]);
      NextKeepsInv(ss[k - 1], ts[k - 1]);
    }
  }

  // ----- what it gives -----

  lemma WakerHasLk(s: State)
    requires Inv(s) && s.lk == Free
    ensures !WakerComing(s)
  {
    forall r | 0 <= r < |s.pcs| ensures s.pcs[r] !in {WakeWant, Waking} { assert Consistent(s, r); }
  }

  /** No missed wakeup: with lk free, a process asleep on the lock means somebody holds it. */
  lemma NoMissedWakeup(ss: seq<State>, ts: seq<Step>, n: nat, k: nat, p: nat)
    requires Run(ss, ts) && ss[0] == Start(n) && k < |ss| && p < |ss[k].pcs|
    requires ss[k].lk == Free && ss[k].pcs[p] == Asleep
    ensures ss[k].locked && ss[k].owner < |ss[k].pcs| && ss[k].pcs[ss[k].owner] == Holder
  {
    RunInv(ss, ts, n, k);
    var s := ss[k];
    WakerHasLk(s);
    assert Consistent(s, s.owner);
  }

  /** Mutual exclusion: at most one process owns the sleep-lock. */
  lemma OneOwner(ss: seq<State>, ts: seq<Step>, n: nat, k: nat, p: nat, q: nat)
    requires Run(ss, ts) && ss[0] == Start(n) && k < |ss| && p < |ss[k].pcs| && q < |ss[k].pcs|
    requires Owns(ss[k].pcs[p]) && Owns(ss[k].pcs[q])
    ensures p == q
  {
    RunInv(ss, ts, n, k);
    assert Consistent(ss[k], p) && Consistent(ss[k], q);
  }

  /** No deadlock: while any call is unfinished or the lock is held, some process inside a call, the
      holder, or the scheduler can take a step. */
  lemma SomebodyCanStep(s: State, p: nat)
    requires Inv(s) && p < |s.pcs| && s.pcs[p] != Out
    ensures Enabled(s, Yielded) || exists q :: 0 <= q < |s.pcs| && s.pcs[q] != Out && Enabled(s, Go(q))
  {
    if s.table.By? {
      assert Consistent(s, s.table.p) && Enabled(s, Go(s.table.p));
    } else if s.table == Free {
      if s.lk.By? {
        assert Consistent(s, s.lk.p) && Enabled(s, Go(s.lk.p));
      } else if s.pcs[p] != Asleep {
        assert Consistent(s, p) && Enabled(s, Go(p));
      } else {
        WakerHasLk(s);
        assert Consistent(s, s.owner) && Enabled(s, Go(s.owner));
      }
    }
  }

  // ----- the fields -----

  /** Every process has its own pid. */
  ghost predicate Pids(s: State, pids: seq<nat>) {
    |pids| == |s.pcs| && forall p, q :: 0 <= p < q < |pids| ==> pids[p] != pids[q]
  }

  /** struct sleeplock; each method is what runs with `lk` held, for process `p` of the machine. */
  class Cell {
    var locked: bool
    var pid: nat

    /** The fields are those of machine state `s`, the owner named by its pid. */
    ghost predicate Agrees(s: State, pids: seq<nat>)
      reads this
    {
      locked == s.locked && (locked ==> s.owner < |pids| && pid == pids[s.owner])
    }

    constructor (n: nat, ghost pids: seq<nat>)
      ensures Agrees(Start(n), pids)
    {
      locked, pid := false, 0;
    }

    /** acquiresleep's test: take the lock, or tell the caller to sleep and test again. */
    method Test(me: nat, ghost s: State, ghost p: nat, ghost pids: seq<nat>) returns (got: bool)
      requires Pids(s, pids) && Agrees(s, pids) && p < |s.pcs| && s.pcs[p].Test? && pids[p] == me
      modifies this
      ensures Agrees(Next(s, Go(p)), pids)
      ensures Next(s, Go(p)).pcs[p] == if got then Got else WantTable
      ensures got <==> !old(locked)
      ensures locked && pid == if got then me else old(pid)
    {
      if locked {
        return false;
      }
      locked := true;
      pid := me;
      return true;
    }

    /** releasesleep, before its wakeup. */
    method Release(ghost s: State, ghost p: nat, ghost pids: seq<nat>)
      requires Inv(s) && Pids(s, pids) && Agrees(s, pids) && p < |s.pcs| && s.pcs[p].Clear?
      modifies this
      ensures Agrees(Next(s, Go(p)), pids)
      ensures old(locked) && old(pid) == pids[p] && !locked && pid == 0
    {
      assert Consistent(s, p);
      locked := false;
      pid := 0;
    }

    /** holdingsleep: true for the process that owns the lock and for no other, so a holder never
        runs into a panic that tests it. */
    method Holding(me: nat, ghost s: State, ghost p: nat, ghost pids: seq<nat>) returns (r: bool)
      requires Inv(s) && Pids(s, pids) && Agrees(s, pids) && p < |s.pcs| && pids[p] == me
      ensures r <==> Owns(s.pcs[p])
    {
      assert Consistent(s, p);
      r := locked && pid == me;
    }
  }
}
