/** The process table of proc.c as a step machine over its critical sections. */
module ProcMachine {
  // Any number of processes and CPUs; a step is a critical section under ptable.lock, cut where
  // sched() and the scheduler hand the lock over.

  datatype PState = Unused | Embryo | Sleeping | Runnable | Running | Zombie

  datatype Ref = Nobody | Some(p: nat)

  /** Sleep channels: a process's own address, used by wait, or any other kernel address. */
  datatype Chan = NoChan | OfProc(p: nat) | Other(k: nat)

  /** Where sched() returns to: out of sleep, yield or forkret, or into wait's loop. */
  datatype Resume = Return | WaitLoop

  /** A slot of the table; `fork` is the slot the process is filling in fork(). */
  datatype Proc = Proc(state: PState, pid: nat, parent: Ref, chan: Chan, killed: bool, resume: Resume, fork: Ref)

  datatype State = State(
    procs: seq<Proc>,
    cpus: seq<Ref>,        // cpus[c].proc
    lock: Ref,             // the CPU holding ptable.lock between steps
    nextpid: nat,
    init: nat,
    exited: set<nat>,      // history: pids that became zombies
    reaped: seq<nat>)      // history: pids wait returned

  datatype Step =
    | AllocProc(c: nat)
    | ForkFail(c: nat)
    | ForkParent(c: nat)
    | ForkDone(c: nat)
    | Yield(c: nat)
    | Sleep(c: nat, k: nat)
    | Exit(c: nat)
    | Wait(c: nat)
    | WaitAgain(c: nat)
    | Resumed(c: nat)
    | SchedAcquire(c: nat)
    | SchedRelease(c: nat)
    | Dispatch(c: nat, q: nat)
    | Wakeup(k: nat)
    | Kill(pid: nat)

  // ----- table operations (shared with the class in ProcCode) -----

  predicate Alive(pr: Proc) { pr.state in {Sleeping, Runnable, Running} }

  /** allocproc's scan. */
  function FirstUnused(ps: seq<Proc>, i: nat): (r: nat)
    requires i <= |ps|
    ensures i <= r <= |ps| && (r < |ps| ==> ps[r].state == Unused)
    ensures forall q :: i <= q < r ==> ps[q].state != Unused
    decreases |ps| - i
  {
    if i == |ps| || ps[i].state == Unused then i else FirstUnused(ps, i + 1)
  }

  predicate ZombieChild(pr: Proc, me: nat) { pr.parent == Some(me) && pr.state == Zombie }

  predicate HasZombieChild(ps: seq<Proc>, me: nat) { exists q :: 0 <= q < |ps| && ZombieChild(ps[q], me) }

  predicate HasKids(ps: seq<Proc>, me: nat) { exists q :: 0 <= q < |ps| && ps[q].parent == Some(me) }

  /** wait's scan. */
  function FirstZombie(ps: seq<Proc>, me: nat, i: nat): (r: nat)
    requires i <= |ps|
    ensures i <= r <= |ps| && (r < |ps| ==> ZombieChild(ps[r], me))
    ensures forall q :: i <= q < r ==> !ZombieChild(ps[q], me)
    decreases |ps| - i
  {
    if i == |ps| || ZombieChild(ps[i], me) then i else FirstZombie(ps, me, i + 1)
  }

  function Woken(pr: Proc, chan: Chan): Proc {
    if pr.state == Sleeping && pr.chan == chan then pr.(state := Runnable) else pr
  }

  /** wakeup1. */
  function WakeAll(ps: seq<Proc>, chan: Chan): (r: seq<Proc>)
    ensures |r| == |ps| && forall q :: 0 <= q < |ps| ==> r[q] == Woken(ps[q], chan)
  {
    seq(|ps|, q requires 0 <= q < |ps| => Woken(ps[q], chan))
  }

  function ParentChan(r: Ref): Chan { if r.Some? then OfProc(r.p) else NoChan }

  /** What exit makes of slot `q`: the parent is woken, children go to init, which is woken when
      it inherits a zombie, and the caller becomes a zombie. */
  function ExitEntry(ps: seq<Proc>, me: nat, init: nat, q: nat): Proc
    requires me < |ps| && q < |ps|
  {
    var a := Woken(ps[q], ParentChan(ps[me].parent));
    var b := if a.parent == Some(me) then a.(parent := Some(init)) else a;
    var d := if HasZombieChild(ps, me) then Woken(b, OfProc(init)) else b;
    if q == me then d.(state := Zombie) else d
  }

  function ExitTable(ps: seq<Proc>, me: nat, init: nat): (r: seq<Proc>)
    requires me < |ps|
    ensures |r| == |ps| && forall q :: 0 <= q < |ps| ==> r[q] == ExitEntry(ps, me, init, q)
  {
    seq(|ps|, q requires 0 <= q < |ps| => ExitEntry(ps, me, init, q))
  }

  function Reaped(pr: Proc): Proc { pr.(state := Unused, pid := 0, parent := Nobody, killed := false) }

  function FirstPid(ps: seq<Proc>, pid: nat, i: nat): (r: nat)
    requires i <= |ps|
    ensures i <= r <= |ps| && (r < |ps| ==> ps[r].pid == pid)
    decreases |ps| - i
  {
    if i == |ps| || ps[i].pid == pid then i else FirstPid(ps, pid, i + 1)
  }

  function Killed(pr: Proc): Proc {
    pr.(killed := true, state := if pr.state == Sleeping then Runnable else pr.state)
  }

  // ----- transitions -----

  /** CPU `c` runs a process and does not hold ptable.lock. */
  ghost predicate Running1(s: State, c: nat) {
    c < |s.cpus| && s.cpus[c].Some? && s.cpus[c].p < |s.procs| && s.lock != Some(c)
  }

  /** Has a slot under construction. */
  ghost predicate Forking(s: State, c: nat) {
    Running1(s, c) && s.procs[s.cpus[c].p].fork.Some? && s.procs[s.cpus[c].p].fork.p < |s.procs|
  }

  ghost predicate Enabled(s: State, t: Step) {
    match t
    case AllocProc(c) => Running1(s, c) && s.lock == Nobody && s.procs[s.cpus[c].p].fork == Nobody
    case ForkFail(c) => Forking(s, c) && s.procs[s.procs[s.cpus[c].p].fork.p].parent == Nobody
    case ForkParent(c) => Forking(s, c)
    case ForkDone(c) => Forking(s, c) && s.lock == Nobody && s.procs[s.procs[s.cpus[c].p].fork.p].parent == s.cpus[c]
    case Yield(c) => Running1(s, c) && s.lock == Nobody
    case Sleep(c, _) => Running1(s, c) && s.lock == Nobody
    case Exit(c) =>
      Running1(s, c) && s.lock == Nobody && s.procs[s.cpus[c].p].fork == Nobody && s.cpus[c].p != s.init
    case Wait(c) => Running1(s, c) && s.lock == Nobody && s.procs[s.cpus[c].p].fork == Nobody
    case WaitAgain(c) =>
      && c < |s.cpus| && s.cpus[c].Some? && s.cpus[c].p < |s.procs|
      && s.lock == Some(c) && s.procs[s.cpus[c].p].resume == WaitLoop
    case Resumed(c) =>
      && c < |s.cpus| && s.cpus[c].Some? && s.cpus[c].p < |s.procs|
      && s.lock == Some(c) && s.procs[s.cpus[c].p].resume == Return
    case SchedAcquire(c) => c < |s.cpus| && s.cpus[c] == Nobody && s.lock == Nobody
    case SchedRelease(c) => c < |s.cpus| && s.cpus[c] == Nobody && s.lock == Some(c)
    case Dispatch(c, q) =>
      && c < |s.cpus| && s.cpus[c] == Nobody && s.lock == Some(c)
      && q < |s.procs| && s.procs[q].state == Runnable
    case Wakeup(_) => s.lock == Nobody
    case Kill(_) => s.lock == Nobody
  }

  /** sched(): the process leaves its CPU, whose scheduler now has the lock. */
  function SwitchOut(s: State, c: nat, pr: Proc): State
    requires c < |s.cpus| && s.cpus[c].Some? && s.cpus[c].p < |s.procs|
  {
    s.(procs := s.procs[s.cpus[c].p := pr], cpus := s.cpus[c := Nobody], lock := Some(c))
  }

  /** wait's loop body, lock held: reap the first zombie child, give up, or sleep. */
  function WaitBody(s: State, c: nat): State
    requires c < |s.cpus| && s.cpus[c].Some? && s.cpus[c].p < |s.procs|
  {
    var me := s.cpus[c].p;
    var z := FirstZombie(s.procs, me, 0);
    if z < |s.procs| then
      s.(procs := s.procs[z := Reaped(s.procs[z])], lock := Nobody, reaped := s.reaped + [s.procs[z].pid])
    else if !HasKids(s.procs, me) || s.procs[me].killed then s.(lock := Nobody)
    else SwitchOut(s, c, s.procs[me].(state := Sleeping, chan := OfProc(me), resume := WaitLoop))
  }

  function DoAlloc(s: State, c: nat): State
    requires Running1(s, c)
  {
    var e, me := FirstUnused(s.procs, 0), s.cpus[c].p;
    if e == |s.procs| then s
    else
      var made := s.procs[e := s.procs[e].(state := Embryo, pid := s.nextpid, resume := Return)];
      s.(procs := made[me := made[me].(fork := Some(e))], nextpid := s.nextpid + 1)
  }

  /** The slot under construction becomes `st`, and is no longer the caller's. */
  function DoForkEnd(s: State, c: nat, st: PState): State
    requires Forking(s, c)
  {
    var me := s.cpus[c].p;
    var e := s.procs[me].fork.p;
    var ended := s.procs[e := s.procs[e].(state := st)];
    s.(procs := ended[me := ended[me].(fork := Nobody)])
  }

  function DoForkParent(s: State, c: nat): State
    requires Forking(s, c)
  {
    var e := s.procs[s.cpus[c].p].fork.p;
    s.(procs := s.procs[e := s.procs[e].(parent := s.cpus[c])])
  }

  function DoExit(s: State, c: nat): State
    requires Running1(s, c)
  {
    var me := s.cpus[c].p;
    s.(procs := ExitTable(s.procs, me, s.init), cpus := s.cpus[c := Nobody], lock := Some(c),
       exited := s.exited + {s.procs[me].pid})
  }

  /** sleep's tidying up after sched() returns. */
  function Tidied(s: State, c: nat): State
    requires c < |s.cpus| && s.cpus[c].Some? && s.cpus[c].p < |s.procs|
  {
    var me := s.cpus[c].p;
    s.(procs := s.procs[me := s.procs[me].(chan := NoChan)])
  }

  function DoKill(s: State, pid: nat): State {
    var v := FirstPid(s.procs, pid, 0);
    if v == |s.procs| then s else s.(procs := s.procs[v := Killed(s.procs[v])])
  }

  function Next(s: State, t: Step): State
    requires Enabled(s, t)
  {
    match t
    case AllocProc(c) => DoAlloc(s, c)
    case ForkFail(c) => DoForkEnd(s, c, Unused)
    case ForkParent(c) => DoForkParent(s, c)
    case ForkDone(c) => DoForkEnd(s, c, Runnable)
    case Yield(c) => SwitchOut(s, c, s.procs[s.cpus[c].p].(state := Runnable, resume := Return))
    case Sleep(c, k) => SwitchOut(s, c, s.procs[s.cpus[c].p].(state := Sleeping, chan := Other(k), resume := Return))
    case Exit(c) => DoExit(s, c)
    case Wait(c) => WaitBody(s, c)
    case WaitAgain(c) => WaitBody(Tidied(s, c), c)
    case Resumed(c) => Tidied(s, c).(lock := Nobody)
    case SchedAcquire(c) => s.(lock := Some(c))
    case SchedRelease(c) => s.(lock := Nobody)
    case Dispatch(c, q) =>
      s.(procs := s.procs[q := s.procs[q].(state := Running)], cpus := s.cpus[c := Some(q)])
    case Wakeup(k) => s.(procs := WakeAll(s.procs, Other(k)))
    case Kill(pid) => DoKill(s, pid)
  }

  // ----- invariants -----

  /** A CPU's process is RUNNING; every RUNNING process is on one CPU, and on one only. */
  ghost predicate CpusOk(ps: seq<Proc>, cpus: seq<Ref>) {
    && (forall c :: 0 <= c < |cpus| && cpus[c].Some? ==> cpus[c].p < |ps| && ps[cpus[c].p].state == Running)
    && (forall c, d :: 0 <= c < |cpus| && 0 <= d < |cpus| && cpus[c].Some? && cpus[c] == cpus[d] ==> c == d)
    && (forall p :: 0 <= p < |ps| && ps[p].state == Running ==> Some(p) in cpus)
  }

  /** Only wait sleeps on a process, on the caller itself. */
  ghost predicate SleepOk(pr: Proc, p: nat) {
    pr.state == Sleeping && pr.chan.OfProc? ==> pr.chan.p == p && pr.resume == WaitLoop
  }

  /** Slot `p` of the family tree. */
  ghost predicate SlotOk(ps: seq<Proc>, init: nat, p: nat)
    requires p < |ps|
  {
    && (ps[p].state == Unused ==> ps[p].parent == Nobody && ps[p].fork == Nobody)
    && (ps[p].parent.Some? ==> ps[p].parent.p != p && ps[p].parent.p < |ps| && Alive(ps[ps[p].parent.p]))
    && (p == init ==> ps[p].parent == Nobody && Alive(ps[p]))
    && (p != init && (Alive(ps[p]) || ps[p].state == Zombie) ==> ps[p].parent.Some?)
    && (ps[p].fork.Some? ==> Alive(ps[p]) && MakingOk(ps, p, ps[p].fork.p))
    && SleepOk(ps[p], p)
  }

  /** `e` is the embryo `p` is making. */
  ghost predicate MakingOk(ps: seq<Proc>, p: nat, e: nat) {
    e < |ps| && ps[e].state == Embryo && ps[e].parent in {Nobody, Some(p)}
  }

  ghost predicate TreeOk(ps: seq<Proc>, init: nat) {
    && init < |ps|
    && (forall p :: 0 <= p < |ps| ==> SlotOk(ps, init, p))
    && (forall p, q :: 0 <= p < |ps| && 0 <= q < |ps| && ps[p].fork.Some? && ps[p].fork == ps[q].fork ==> p == q)
  }

  ghost predicate InWait(pr: Proc, p: nat) { pr.state == Sleeping && pr.chan == OfProc(p) }

  /** Nobody sleeps in wait with a zombie child. */
  ghost predicate WaitOk(ps: seq<Proc>) {
    forall p, z :: 0 <= p < |ps| && 0 <= z < |ps| && InWait(ps[p], p) ==> !ZombieChild(ps[z], p)
  }

  ghost predicate SamePid(a: Proc, b: Proc) { a.state != Unused && b.state != Unused && a.pid == b.pid }

  /** Pids in use are distinct; exactly the pids of zombies and reaped processes have exited; each
      was reaped at most once. */
  ghost predicate PidsOk(s: State) {
    && (forall p :: 0 <= p < |s.procs| && s.procs[p].state != Unused ==> s.procs[p].pid < s.nextpid)
    && (forall p, q :: 0 <= p < |s.procs| && 0 <= q < |s.procs| && SamePid(s.procs[p], s.procs[q]) ==> p == q)
    && (forall p :: 0 <= p < |s.procs| && s.procs[p].state != Unused ==>
          (s.procs[p].pid in s.exited <==> s.procs[p].state == Zombie) && s.procs[p].pid !in s.reaped)
    && (forall i, j :: 0 <= i < j < |s.reaped| ==> s.reaped[i] != s.reaped[j])
    && (forall x :: x in s.reaped ==> x in s.exited && x < s.nextpid)
    && (forall x :: x in s.exited ==> x < s.nextpid && (x in s.reaped || ZombiePid(s.procs, x)))
  }

  ghost predicate ZombiePid(ps: seq<Proc>, x: nat) {
    exists p :: 0 <= p < |ps| && ps[p].state == Zombie && ps[p].pid == x
  }

  ghost predicate Inv(s: State) {
    && CpusOk(s.procs, s.cpus) && TreeOk(s.procs, s.init) && WaitOk(s.procs) && PidsOk(s)
  }

  function Start(nprocs: nat, ncpus: nat): State
    requires nprocs > 0
  {
    var free := Proc(Unused, 0, Nobody, NoChan, false, Return, Nobody);
    State(seq(nprocs, i => if i == 0 then free.(state := Runnable, pid := 1) else free),
          seq(ncpus, _ => Nobody), Nobody, 2, 0, {}, [])
  }

  lemma StartInv(nprocs: nat, ncpus: nat)
    requires nprocs > 0
    ensures Inv(Start(nprocs, ncpus))
  {
  }

  // ----- steps that change nobody's place in the table -----

  /** Slot `p` keeps its pid, parent, child in the making, and whether it is unused, embryo, alive or
      zombie; it is asleep in wait only if it was, or it has no zombie child. */
  ghost predicate Minor(ps: seq<Proc>, a: Proc, b: Proc, p: nat) {
    && a.parent == b.parent && a.fork == b.fork && a.pid == b.pid
    && (Alive(a) <==> Alive(b)) && (Alive(a) || a.state == b.state)
    && SleepOk(b, p) && (InWait(b, p) ==> InWait(a, p) || !HasZombieChild(ps, p))
  }

  ghost predicate MinorChange(s: State, n: State) {
    && |n.procs| == |s.procs| && n.nextpid == s.nextpid && n.init == s.init
    && n.exited == s.exited && n.reaped == s.reaped
    && forall p :: 0 <= p < |s.procs| ==> Minor(s.procs, s.procs[p], n.procs[p], p)
  }

  /** Everything but the CPUs. */
  ghost predicate TableInv(s: State) { TreeOk(s.procs, s.init) && WaitOk(s.procs) && PidsOk(s) }

  lemma MinorTree(s: State, n: State)
    requires TableInv(s) && MinorChange(s, n)
    ensures TreeOk(n.procs, n.init)
  {
    hide PidsOk, WaitOk;
    forall p | 0 <= p < |n.procs| ensures SlotOk(n.procs, n.init, p) {
      assert SlotOk(s.procs, s.init, p) && Minor(s.procs, s.procs[p], n.procs[p], p);
    }
  }

  lemma MinorKeeps(s: State, n: State)
    requires TableInv(s) && MinorChange(s, n)
    ensures TableInv(n)
  {
    MinorTree(s, n);
    forall x | x in n.exited ensures x < n.nextpid && (x in n.reaped || ZombiePid(n.procs, x)) {
      if ZombiePid(s.procs, x) {
        var p :| 0 <= p < |s.procs| && s.procs[p].state == Zombie && s.procs[p].pid == x;
        assert Minor(s.procs, s.procs[p], n.procs[p], p);
      }
    }
    forall p, z | 0 <= p < |n.procs| && 0 <= z < |n.procs| && InWait(n.procs[p], p) ensures !ZombieChild(n.procs[z], p) {
      assert Minor(s.procs, s.procs[p], n.procs[p], p) && Minor(s.procs, s.procs[z], n.procs[z], z);
    }
    hide TreeOk, SlotOk, WaitOk;
  }

  // ----- one CPU per running process -----

  lemma CpusSame(ps: seq<Proc>, cpus: seq<Ref>, qs: seq<Proc>)
    requires CpusOk(ps, cpus) && |qs| == |ps|
    requires forall p :: 0 <= p < |ps| ==> (qs[p].state == Running <==> ps[p].state == Running)
    ensures CpusOk(qs, cpus)
  {
  }

  lemma CpusOut(ps: seq<Proc>, cpus: seq<Ref>, c: nat, qs: seq<Proc>)
    requires CpusOk(ps, cpus) && c < |cpus| && cpus[c].Some? && |qs| == |ps| && qs[cpus[c].p].state != Running
    requires forall p :: 0 <= p < |ps| && p != cpus[c].p ==> (qs[p].state == Running <==> ps[p].state == Running)
    ensures CpusOk(qs, cpus[c := Nobody])
  {
    var ds := cpus[c := Nobody];
    forall p | 0 <= p < |qs| && qs[p].state == Running ensures Some(p) in ds {
      assert Some(p) in cpus;
      var d :| 0 <= d < |cpus| && cpus[d] == Some(p);
      assert ds[d] == Some(p);
    }
  }

  lemma CpusIn(ps: seq<Proc>, cpus: seq<Ref>, c: nat, q: nat)
    requires CpusOk(ps, cpus) && c < |cpus| && cpus[c] == Nobody && q < |ps| && ps[q].state == Runnable
    ensures CpusOk(ps[q := ps[q].(state := Running)], cpus[c := Some(q)])
  {
    var qs, ds := ps[q := ps[q].(state := Running)], cpus[c := Some(q)];
    forall p | 0 <= p < |qs| && qs[p].state == Running ensures Some(p) in ds {
      if p == q {
        assert ds[c] == Some(q);
      } else {
        assert Some(p) in cpus;
        var d :| 0 <= d < |cpus| && cpus[d] == Some(p);
        assert ds[d] == Some(p);
      }
    }
  }

  /** A process running on a CPU is RUNNING, and the slot it is making is an EMBRYO. */
  lemma Caller(s: State, c: nat)
    requires Inv(s) && c < |s.cpus| && s.cpus[c].Some?
    ensures s.cpus[c].p < |s.procs|
    ensures var me := s.cpus[c].p;
      && s.procs[me].state == Running && SlotOk(s.procs, s.init, me)
      && (s.procs[me].fork.Some? ==> MakingOk(s.procs, me, s.procs[me].fork.p) && s.procs[me].fork.p != me)
  {
  }

  // ----- each step keeps everything -----

  lemma YieldKeeps(s: State, c: nat, pr: Proc)
    requires Inv(s) && c < |s.cpus| && s.cpus[c].Some? && s.cpus[c].p < |s.procs|
    requires Minor(s.procs, s.procs[s.cpus[c].p], pr, s.cpus[c].p) && pr.state != Running
    ensures Inv(SwitchOut(s, c, pr))
  {
    var n := SwitchOut(s, c, pr);
    forall p | 0 <= p < |s.procs| ensures Minor(s.procs, s.procs[p], n.procs[p], p) {
      if p != s.cpus[c].p { SameIsMinor(s, p); }
    }
    MinorKeeps(s, n);
    hide TreeOk, WaitOk, PidsOk, Minor;
    CpusOut(s.procs, s.cpus, c, n.procs);
  }

  lemma SameIsMinor(s: State, p: nat)
    requires TableInv(s) && p < |s.procs|
    ensures Minor(s.procs, s.procs[p], s.procs[p], p)
  {
    assert SlotOk(s.procs, s.init, p);
  }

  /** A step that only makes minor changes and moves nobody on or off a CPU. */
  lemma MinorStepKeeps(s: State, n: State)
    requires Inv(s) && n.cpus == s.cpus && MinorChange(s, n)
    requires forall p :: 0 <= p < |s.procs| ==> (n.procs[p].state == Running <==> s.procs[p].state == Running)
    ensures Inv(n)
  {
    MinorKeeps(s, n);
    hide TreeOk, WaitOk, PidsOk, MinorChange, Minor;
    CpusSame(s.procs, s.cpus, n.procs);
  }

  lemma DispatchKeeps(s: State, c: nat, q: nat)
    requires Inv(s) && Enabled(s, Dispatch(c, q))
    ensures Inv(Next(s, Dispatch(c, q)))
  {
    var n := Next(s, Dispatch(c, q));
    forall p | 0 <= p < |s.procs| ensures Minor(s.procs, s.procs[p], n.procs[p], p) {
      if p != q { SameIsMinor(s, p); }
    }
    MinorKeeps(s, n);
    hide TreeOk, WaitOk, PidsOk, Minor;
    CpusIn(s.procs, s.cpus, c, q);
  }

  lemma WakeupKeeps(s: State, k: nat)
    requires Inv(s)
    ensures Inv(s.(procs := WakeAll(s.procs, Other(k))))
  {
    var n := s.(procs := WakeAll(s.procs, Other(k)));
    forall p | 0 <= p < |s.procs| ensures Minor(s.procs, s.procs[p], n.procs[p], p) { SameIsMinor(s, p); }
    MinorStepKeeps(s, n);
  }

  lemma KillKeeps(s: State, pid: nat)
    requires Inv(s)
    ensures Inv(DoKill(s, pid))
  {
    var n := DoKill(s, pid);
    forall p | 0 <= p < |s.procs| ensures Minor(s.procs, s.procs[p], n.procs[p], p) { SameIsMinor(s, p); }
    MinorStepKeeps(s, n);
  }

  lemma TidiedKeeps(s: State, c: nat, lock: Ref)
    requires Inv(s) && c < |s.cpus| && s.cpus[c].Some? && s.cpus[c].p < |s.procs|
    ensures Inv(Tidied(s, c).(lock := lock))
  {
    var n := Tidied(s, c).(lock := lock);
    Caller(s, c);
    forall p | 0 <= p < |s.procs| ensures Minor(s.procs, s.procs[p], n.procs[p], p) { SameIsMinor(s, p); }
    MinorStepKeeps(s, n);
  }

  // ----- how pids and the tree change -----

  /** Every slot in use was in use under the same pid, and is a zombie exactly if it was. */
  ghost predicate NoNewPid(ps: seq<Proc>, qs: seq<Proc>) {
    |qs| == |ps| && forall p :: 0 <= p < |ps| ==> PidStays(ps[p], qs[p])
  }

  ghost predicate PidStays(a: Proc, b: Proc) {
    && (b.state != Unused ==> a.state != Unused && a.pid == b.pid)
    && (b.state == Zombie <==> a.state == Zombie)
  }

  lemma PidsStay(s: State, n: State)
    requires PidsOk(s) && NoNewPid(s.procs, n.procs)
    requires n.nextpid == s.nextpid && n.exited == s.exited && n.reaped == s.reaped
    ensures PidsOk(n)
  {
    forall p | 0 <= p < |s.procs| ensures PidStays(s.procs[p], n.procs[p]) {}
    forall p, q | 0 <= p < |n.procs| && 0 <= q < |n.procs| && SamePid(n.procs[p], n.procs[q]) ensures p == q {
      assert SamePid(s.procs[p], s.procs[q]);
    }
    forall x | x in n.exited ensures x < n.nextpid && (x in n.reaped || ZombiePid(n.procs, x)) {
      if ZombiePid(s.procs, x) {
        var p :| 0 <= p < |s.procs| && s.procs[p].state == Zombie && s.procs[p].pid == x;
        assert n.procs[p].state == Zombie && n.procs[p].pid == x;
      }
    }
  }

  /** Slot `p` is as it was, and so is what it relies on. */
  lemma SlotStays(ps: seq<Proc>, qs: seq<Proc>, init: nat, p: nat)
    requires |qs| == |ps| && p < |ps| && SlotOk(ps, init, p) && qs[p] == ps[p]
    requires forall q :: 0 <= q < |ps| && Alive(ps[q]) ==> Alive(qs[q])
    requires ps[p].fork.Some? ==> MakingOk(qs, p, ps[p].fork.p)
    ensures SlotOk(qs, init, p)
  {
  }

  lemma SlotOf(ps: seq<Proc>, init: nat, p: nat)
    requires TreeOk(ps, init) && p < |ps|
    ensures SlotOk(ps, init, p)
  {
  }

  /** Two makers never make the same slot. */
  lemma OneMaker(ps: seq<Proc>, init: nat, p: nat, q: nat)
    requires TreeOk(ps, init) && p < |ps| && q < |ps| && ps[p].fork.Some? && ps[p].fork == ps[q].fork
    ensures p == q
  {
  }

  lemma OnlyMaker(ps: seq<Proc>, init: nat, me: nat, e: nat)
    requires TreeOk(ps, init) && me < |ps| && ps[me].fork == Some(e)
    ensures forall p :: 0 <= p < |ps| && p != me ==> ps[p].fork != Some(e)
  {
  }

  lemma TreeIntro(qs: seq<Proc>, init: nat)
    requires init < |qs| && forall p :: 0 <= p < |qs| ==> SlotOk(qs, init, p)
    requires forall p, q :: 0 <= p < |qs| && 0 <= q < |qs| && qs[p].fork.Some? && qs[p].fork == qs[q].fork ==> p == q
    ensures TreeOk(qs, init)
  {
  }

  /** All slots but `a` and `b` are the same. */
  ghost predicate SameBut(ps: seq<Proc>, qs: seq<Proc>, a: nat, b: nat) {
    |qs| == |ps| && forall p :: 0 <= p < |ps| && p != a && p != b ==> qs[p] == ps[p]
  }

  // ----- fork -----

  lemma AllocTree(ps: seq<Proc>, qs: seq<Proc>, init: nat, me: nat, e: nat, pid: nat)
    requires TreeOk(ps, init) && me < |ps| && e < |ps| && SameBut(ps, qs, me, e)
    requires ps[me].state == Running && ps[me].fork == Nobody && ps[e].state == Unused
    requires qs[e] == ps[e].(state := Embryo, pid := pid, resume := Return)
    requires qs[me] == ps[me].(fork := Some(e))
    ensures TreeOk(qs, init)
  {
    assert init < |ps|;
    SlotOf(ps, init, e);
    forall p | 0 <= p < |qs| ensures SlotOk(qs, init, p) && (p != me ==> qs[p].fork != Some(e)) {
      SlotOf(ps, init, p);
      if p != me && p != e { SlotStays(ps, qs, init, p); }
    }
    forall p, q | 0 <= p < |qs| && 0 <= q < |qs| && qs[p].fork.Some? && qs[p].fork == qs[q].fork ensures p == q {
      if p != me && q != me { OneMaker(ps, init, p, q); }
    }
    TreeIntro(qs, init);
  }

  lemma AllocPids(s: State, n: State, e: nat)
    requires PidsOk(s) && e < |s.procs| && s.procs[e].state == Unused && |n.procs| == |s.procs|
    requires n.procs[e].state == Embryo && n.procs[e].pid == s.nextpid && n.nextpid == s.nextpid + 1
    requires forall p :: 0 <= p < |s.procs| && p != e ==>
               n.procs[p].state == s.procs[p].state && n.procs[p].pid == s.procs[p].pid
    requires n.exited == s.exited && n.reaped == s.reaped
    ensures PidsOk(n)
  {
    forall p, q | 0 <= p < |n.procs| && 0 <= q < |n.procs| && SamePid(n.procs[p], n.procs[q]) ensures p == q {
      assert p != e && q != e ==> SamePid(s.procs[p], s.procs[q]);
    }
    forall x | x in n.exited ensures x < n.nextpid && (x in n.reaped || ZombiePid(n.procs, x)) {
      if ZombiePid(s.procs, x) {
        var p :| 0 <= p < |s.procs| && s.procs[p].state == Zombie && s.procs[p].pid == x;
        assert n.procs[p].state == Zombie && n.procs[p].pid == x;
      }
    }
  }

  /** What the other invariants need of a change to two slots. */
  ghost predicate SlotPart(a: Proc, b: Proc, p: nat) {
    PidStays(a, b) && WaitPart(a, b, p) && (b.state == Running <==> a.state == Running)
  }

  lemma TwoSlots(s: State, n: State, a: nat, b: nat)
    requires SameBut(s.procs, n.procs, a, b) && a < |s.procs| && b < |s.procs|
    requires SlotPart(s.procs[a], n.procs[a], a) && SlotPart(s.procs[b], n.procs[b], b)
    requires CpusOk(s.procs, s.cpus) && WaitOk(s.procs) && n.cpus == s.cpus
    ensures CpusOk(n.procs, n.cpus) && WaitOk(n.procs) && NoNewPid(s.procs, n.procs)
  {
    hide CpusOk, WaitOk;
    CpusSame(s.procs, s.cpus, n.procs);
    WaitStays(s.procs, n.procs);
  }

  lemma AllocShape(s: State, c: nat, e: nat, me: nat, n: State)
    requires Running1(s, c) && e == FirstUnused(s.procs, 0) && e < |s.procs| && me == s.cpus[c].p && n == DoAlloc(s, c)
    requires s.procs[me].state == Running
    ensures SameBut(s.procs, n.procs, me, e) && e != me
    ensures n.procs[e] == s.procs[e].(state := Embryo, pid := s.nextpid, resume := Return)
    ensures n.procs[me] == s.procs[me].(fork := Some(e))
    ensures n == s.(procs := n.procs, nextpid := s.nextpid + 1)
  {
  }

  lemma AllocRest(s: State, n: State, me: nat, e: nat)
    requires SameBut(s.procs, n.procs, me, e) && me < |s.procs| && e < |s.procs| && n.cpus == s.cpus
    requires s.procs[e].state == Unused && n.procs[e].state == Embryo && n.procs[me] == s.procs[me].(fork := Some(e))
    requires CpusOk(s.procs, s.cpus) && WaitOk(s.procs)
    ensures CpusOk(n.procs, n.cpus) && WaitOk(n.procs)
  {
    hide CpusOk, WaitOk;
    CpusSame(s.procs, s.cpus, n.procs);
    WaitStays(s.procs, n.procs);
  }

  lemma AllocKeeps(s: State, c: nat)
    requires Inv(s) && Running1(s, c) && s.procs[s.cpus[c].p].fork == Nobody
    ensures Inv(DoAlloc(s, c))
  {
    var e, me, n := FirstUnused(s.procs, 0), s.cpus[c].p, DoAlloc(s, c);
    if e < |s.procs| {
      Caller(s, c);
      AllocShape(s, c, e, me, n);
      hide TreeOk, SlotOk, PidsOk, CpusOk, WaitOk, DoAlloc, FirstUnused;
      AllocTree(s.procs, n.procs, s.init, me, e, s.nextpid);
      AllocPids(s, n, e);
      AllocRest(s, n, me, e);
    }
  }

  lemma WaitStays(ps: seq<Proc>, qs: seq<Proc>)
    requires WaitOk(ps) && |qs| == |ps|
    requires forall p :: 0 <= p < |ps| ==> WaitPart(ps[p], qs[p], p)
    ensures WaitOk(qs)
  {
    forall p, z | 0 <= p < |qs| && 0 <= z < |qs| && InWait(qs[p], p) ensures !ZombieChild(qs[z], p) {
      assert WaitPart(ps[p], qs[p], p) && WaitPart(ps[z], qs[z], z);
    }
  }

  ghost predicate WaitPart(a: Proc, b: Proc, p: nat) {
    && (InWait(b, p) ==> InWait(a, p))
    && (b.state == Zombie ==> a.state == Zombie && a.parent == b.parent)
  }

  lemma ForkEndTree(ps: seq<Proc>, qs: seq<Proc>, init: nat, me: nat, e: nat, st: PState)
    requires TreeOk(ps, init) && me < |ps| && e < |ps| && SameBut(ps, qs, me, e)
    requires ps[me].state == Running && ps[me].fork == Some(e) && ps[e].state == Embryo && me != e
    requires st in {Unused, Runnable} && ps[e].parent == if st == Unused then Nobody else Some(me)
    requires qs[e] == ps[e].(state := st) && qs[me] == ps[me].(fork := Nobody)
    ensures TreeOk(qs, init)
  {
    assert init < |ps|;
    SlotOf(ps, init, e);
    SlotOf(ps, init, init);
    OnlyMaker(ps, init, me, e);
    forall p | 0 <= p < |qs| ensures SlotOk(qs, init, p) {
      SlotOf(ps, init, p);
      if p != me && p != e {
        assert ps[p].fork != Some(e);
        SlotStays(ps, qs, init, p);
      }
    }
    forall p, q | 0 <= p < |qs| && 0 <= q < |qs| && qs[p].fork.Some? && qs[p].fork == qs[q].fork ensures p == q {
      OneMaker(ps, init, p, q);
    }
    TreeIntro(qs, init);
  }

  lemma ForkEndShape(s: State, c: nat, st: PState, me: nat, e: nat, n: State)
    requires Forking(s, c) && me == s.cpus[c].p && e == s.procs[me].fork.p && e != me && n == DoForkEnd(s, c, st)
    ensures SameBut(s.procs, n.procs, me, e)
    ensures n.procs[e] == s.procs[e].(state := st) && n.procs[me] == s.procs[me].(fork := Nobody)
    ensures n == s.(procs := n.procs)
  {
  }

  lemma ForkEndKeeps(s: State, c: nat, st: PState)
    requires Inv(s) && Forking(s, c) && st in {Unused, Runnable}
    requires s.procs[s.procs[s.cpus[c].p].fork.p].parent == if st == Unused then Nobody else s.cpus[c]
    ensures Inv(DoForkEnd(s, c, st))
  {
    var me, n := s.cpus[c].p, DoForkEnd(s, c, st);
    var e := s.procs[me].fork.p;
    Caller(s, c);
    ForkEndShape(s, c, st, me, e, n);
    hide TreeOk, SlotOk, PidsOk, CpusOk, WaitOk, DoForkEnd;
    ForkEndTree(s.procs, n.procs, s.init, me, e, st);
    TwoSlots(s, n, me, e);
    PidsStay(s, n);
  }

  lemma ForkParentTree(ps: seq<Proc>, qs: seq<Proc>, init: nat, me: nat, e: nat)
    requires TreeOk(ps, init) && me < |ps| && e < |ps| && SameBut(ps, qs, e, e)
    requires ps[me].state == Running && ps[me].fork == Some(e) && ps[e].state == Embryo && me != e
    requires qs[e] == ps[e].(parent := Some(me))
    ensures TreeOk(qs, init)
  {
    assert init < |ps|;
    SlotOf(ps, init, e);
    SlotOf(ps, init, init);
    OnlyMaker(ps, init, me, e);
    forall p | 0 <= p < |qs| ensures SlotOk(qs, init, p) {
      SlotOf(ps, init, p);
      if p != e {
        assert p != me ==> ps[p].fork != Some(e);
        SlotStays(ps, qs, init, p);
      }
    }
    forall p, q | 0 <= p < |qs| && 0 <= q < |qs| && qs[p].fork.Some? && qs[p].fork == qs[q].fork ensures p == q {
      OneMaker(ps, init, p, q);
    }
    TreeIntro(qs, init);
  }

  lemma ForkParentKeeps(s: State, c: nat)
    requires Inv(s) && Forking(s, c)
    ensures Inv(DoForkParent(s, c))
  {
    var me, n := s.cpus[c].p, DoForkParent(s, c);
    var e := s.procs[me].fork.p;
    Caller(s, c);
    assert SameBut(s.procs, n.procs, e, e) && n.procs[e] == s.procs[e].(parent := Some(me)) && n == s.(procs := n.procs);
    hide TreeOk, SlotOk, PidsOk, CpusOk, WaitOk, DoForkParent;
    ForkParentTree(s.procs, n.procs, s.init, me, e);
    TwoSlots(s, n, e, e);
    PidsStay(s, n);
  }

  // ----- exit and wait -----

  /** What exit does to a slot, without how it was computed. */
  lemma ExitShape(ps: seq<Proc>, me: nat, init: nat, q: nat)
    requires me < |ps| && q < |ps| && ps[me].state == Running
    ensures var b := ExitEntry(ps, me, init, q);
      && b.pid == ps[q].pid && b.fork == ps[q].fork && b.chan == ps[q].chan && b.resume == ps[q].resume
      && b.parent == (if ps[q].parent == Some(me) then Some(init) else ps[q].parent)
      && (q == me ==> b.state == Zombie)
      && (q != me && Alive(ps[q]) ==> Alive(b) && (b.state == Running <==> ps[q].state == Running))
      && (q != me && !Alive(ps[q]) ==> b.state == ps[q].state)
      && (b.state == Sleeping ==> ps[q].state == Sleeping && ps[q].chan != ParentChan(ps[me].parent))
      && (b.state == Sleeping && HasZombieChild(ps, me) ==> ps[q].chan != OfProc(init))
  {
  }

  lemma ExitTree(ps: seq<Proc>, qs: seq<Proc>, init: nat, me: nat)
    requires TreeOk(ps, init) && me < |ps| && qs == ExitTable(ps, me, init)
    requires ps[me].state == Running && ps[me].fork == Nobody && me != init
    ensures TreeOk(qs, init)
  {
    forall p | 0 <= p < |ps| ensures SlotOk(ps, init, p) { SlotOf(ps, init, p); }
    assert init < |ps|;
    forall p, q | 0 <= p < |qs| && 0 <= q < |qs| && qs[p].fork.Some? && qs[p].fork == qs[q].fork ensures p == q {
      ExitShape(ps, me, init, p);
      ExitShape(ps, me, init, q);
      OneMaker(ps, init, p, q);
    }
    hide ExitEntry, TreeOk;
    forall p | 0 <= p < |qs| ensures SlotOk(qs, init, p) {
      assert SlotOk(ps, init, p) && SlotOk(ps, init, init);
      ExitShape(ps, me, init, p);
      ExitShape(ps, me, init, init);
      if ps[p].parent.Some? { ExitShape(ps, me, init, ps[p].parent.p); }
      if ps[p].fork.Some? { ExitShape(ps, me, init, ps[p].fork.p); }
    }
    TreeIntro(qs, init);
  }

  /** The parent was woken, and so was init if it inherited a zombie. */
  lemma ExitWait(ps: seq<Proc>, qs: seq<Proc>, init: nat, me: nat)
    requires WaitOk(ps) && me < |ps| && qs == ExitTable(ps, me, init) && ps[me].state == Running
    requires ps[me].parent.Some? && ps[me].parent.p != me
    ensures WaitOk(qs)
  {
    hide ExitEntry;
    forall p, z | 0 <= p < |qs| && 0 <= z < |qs| && InWait(qs[p], p) ensures !ZombieChild(qs[z], p) {
      ExitShape(ps, me, init, p);
      ExitShape(ps, me, init, z);
      assert InWait(ps[p], p) && !ZombieChild(ps[z], p);
      assert ZombieChild(ps[z], me) ==> HasZombieChild(ps, me);
    }
  }

  lemma ExitPids(s: State, n: State, me: nat)
    requires PidsOk(s) && me < |s.procs| && s.procs[me].state == Running && |n.procs| == |s.procs|
    requires n.nextpid == s.nextpid && n.reaped == s.reaped && n.exited == s.exited + {s.procs[me].pid}
    requires forall p :: 0 <= p < |s.procs| ==> n.procs[p].pid == s.procs[p].pid
    requires forall p :: 0 <= p < |s.procs| ==> (n.procs[p].state == Unused <==> s.procs[p].state == Unused)
    requires forall p :: 0 <= p < |s.procs| ==> (n.procs[p].state == Zombie <==> s.procs[p].state == Zombie || p == me)
    ensures PidsOk(n)
  {
    forall p, q | 0 <= p < |n.procs| && 0 <= q < |n.procs| && SamePid(n.procs[p], n.procs[q]) ensures p == q {
      assert SamePid(s.procs[p], s.procs[q]);
    }
    forall p | 0 <= p < |n.procs| && n.procs[p].state != Unused
      ensures n.procs[p].pid in n.exited <==> n.procs[p].state == Zombie
    {
      assert SamePid(s.procs[p], s.procs[me]) ==> p == me;
    }
    forall x | x in n.exited ensures x < n.nextpid && (x in n.reaped || ZombiePid(n.procs, x)) {
      assert n.procs[me].state == Zombie;
      if x != s.procs[me].pid && ZombiePid(s.procs, x) {
        var p :| 0 <= p < |s.procs| && s.procs[p].state == Zombie && s.procs[p].pid == x;
        assert n.procs[p].state == Zombie && n.procs[p].pid == x;
      }
    }
  }

  lemma ExitKeeps(s: State, c: nat)
    requires Inv(s) && Running1(s, c) && s.procs[s.cpus[c].p].fork == Nobody && s.cpus[c].p != s.init
    ensures Inv(DoExit(s, c))
  {
    var me, n := s.cpus[c].p, DoExit(s, c);
    Caller(s, c);
    hide TreeOk, SlotOk, WaitOk, CpusOk, PidsOk, ExitEntry;
    assert s.procs[me].parent.Some?;
    forall p | 0 <= p < |s.procs|
      ensures n.procs[p].pid == s.procs[p].pid
      ensures n.procs[p].state == Unused <==> s.procs[p].state == Unused
      ensures n.procs[p].state == Zombie <==> s.procs[p].state == Zombie || p == me
      ensures p != me ==> (n.procs[p].state == Running <==> s.procs[p].state == Running)
    {
      ExitShape(s.procs, me, s.init, p);
    }
    ExitTree(s.procs, n.procs, s.init, me);
    ExitWait(s.procs, n.procs, s.init, me);
    ExitPids(s, n, me);
    CpusOut(s.procs, s.cpus, c, n.procs);
  }

  lemma ReapTree(ps: seq<Proc>, qs: seq<Proc>, init: nat, z: nat)
    requires TreeOk(ps, init) && z < |ps| && ps[z].state == Zombie && SameBut(ps, qs, z, z) && qs[z] == Reaped(ps[z])
    ensures TreeOk(qs, init)
  {
    assert init < |ps|;
    SlotOf(ps, init, z);
    SlotOf(ps, init, init);
    forall p | 0 <= p < |qs| ensures SlotOk(qs, init, p) {
      SlotOf(ps, init, p);
      if p != z { SlotStays(ps, qs, init, p); }
    }
    forall p, q | 0 <= p < |qs| && 0 <= q < |qs| && qs[p].fork.Some? && qs[p].fork == qs[q].fork ensures p == q {
      OneMaker(ps, init, p, q);
    }
    TreeIntro(qs, init);
  }

  lemma ReapPids(s: State, n: State, z: nat)
    requires PidsOk(s) && z < |s.procs| && s.procs[z].state == Zombie && SameBut(s.procs, n.procs, z, z)
    requires n.procs[z] == Reaped(s.procs[z]) && n.nextpid == s.nextpid && n.exited == s.exited
    requires n.reaped == s.reaped + [s.procs[z].pid]
    ensures PidsOk(n)
  {
    forall p, q | 0 <= p < |n.procs| && 0 <= q < |n.procs| && SamePid(n.procs[p], n.procs[q]) ensures p == q {
      assert SamePid(s.procs[p], s.procs[q]);
    }
    forall p | 0 <= p < |n.procs| && n.procs[p].state != Unused ensures n.procs[p].pid !in n.reaped {
      assert SamePid(s.procs[p], s.procs[z]) ==> p == z;
    }
    forall x | x in n.exited ensures x < n.nextpid && (x in n.reaped || ZombiePid(n.procs, x)) {
      assert x in s.reaped ==> x in n.reaped;
      assert n.reaped[|s.reaped|] == s.procs[z].pid;
      if x != s.procs[z].pid && ZombiePid(s.procs, x) {
        var p :| 0 <= p < |s.procs| && s.procs[p].state == Zombie && s.procs[p].pid == x;
        assert n.procs[p].state == Zombie && n.procs[p].pid == x;
      }
    }
  }

  /** Reaping a zombie: nobody's parent, on no CPU, its pid not handed out before. */
  lemma ReapKeeps(s: State, z: nat, n: State)
    requires Inv(s) && z < |s.procs| && s.procs[z].state == Zombie
    requires n == s.(procs := s.procs[z := Reaped(s.procs[z])], lock := n.lock, reaped := s.reaped + [s.procs[z].pid])
    ensures Inv(n) && s.procs[z].pid !in s.reaped && Some(z) !in s.cpus
  {
    assert s.procs[z].pid !in s.reaped && Some(z) !in s.cpus;
    hide TreeOk, SlotOk, CpusOk, PidsOk, WaitOk;
    ReapTree(s.procs, n.procs, s.init, z);
    ReapPids(s, n, z);
    CpusSame(s.procs, s.cpus, n.procs);
    WaitStays(s.procs, n.procs);
  }

  lemma WaitKeeps(s: State, c: nat)
    requires Inv(s) && c < |s.cpus| && s.cpus[c].Some? && s.cpus[c].p < |s.procs|
    ensures Inv(WaitBody(s, c))
  {
    var me := s.cpus[c].p;
    var z, n := FirstZombie(s.procs, me, 0), WaitBody(s, c);
    if z < |s.procs| {
      ReapKeeps(s, z, n);
    } else if HasKids(s.procs, me) && !s.procs[me].killed {
      Caller(s, c);
      YieldKeeps(s, c, s.procs[me].(state := Sleeping, chan := OfProc(me), resume := WaitLoop));
    }
  }

  // ----- every step, every run -----

  lemma LockOnly(s: State, lock: Ref)
    requires Inv(s)
    ensures Inv(s.(lock := lock))
  {
    hide CpusOk, TreeOk, WaitOk;
  }

  lemma NextKeepsInv(s: State, t: Step)
    requires Inv(s) && Enabled(s, t)
    ensures Inv(Next(s, t))
  {
    hide CpusOk, TreeOk, WaitOk, PidsOk, DoAlloc, DoForkEnd, DoForkParent, DoExit, DoKill, WaitBody;
    match t
    case AllocProc(c) => AllocKeeps(s, c);
    case ForkFail(c) => ForkEndKeeps(s, c, Unused);
    case ForkParent(c) => ForkParentKeeps(s, c);
    case ForkDone(c) => ForkEndKeeps(s, c, Runnable);
    case Yield(c) =>
      Caller(s, c);
      YieldKeeps(s, c, s.procs[s.cpus[c].p].(state := Runnable, resume := Return));
    case Sleep(c, k) =>
      Caller(s, c);
      YieldKeeps(s, c, s.procs[s.cpus[c].p].(state := Sleeping, chan := Other(k), resume := Return));
    case Exit(c) => ExitKeeps(s, c);
    case Wait(c) => WaitKeeps(s, c);
    case WaitAgain(c) =>
      TidiedKeeps(s, c, s.lock);
      WaitKeeps(Tidied(s, c), c);
    case Resumed(c) => TidiedKeeps(s, c, Nobody);
    case SchedAcquire(c) => LockOnly(s, Some(c));
    case SchedRelease(c) => LockOnly(s, Nobody);
    case Dispatch(c, q) => DispatchKeeps(s, c, q);
    case Wakeup(k) => WakeupKeeps(s, k);
    case Kill(pid) => KillKeeps(s, pid);
  }

  ghost predicate Run(ss: seq<State>, ts: seq<Step>) {
    |ss| == |ts| + 1 && forall k :: 0 <= k < |ts| ==> Stepped(ss[k], ts[k], ss[k + 1])
  }

  ghost predicate Stepped(s: State, t: Step, n: State) { Enabled(s, t) && n == Next(s, t) }

  lemma {:induction false} RunInv(ss: seq<State>, ts: seq<Step>, nprocs: nat, ncpus: nat, k: nat)
    requires Run(ss, ts) && nprocs > 0 && ss[0] == Start(nprocs, ncpus) && k < |ss|
    ensures Inv(ss[k])
  {
    hide Inv, Next, Start;
    if k == 0 {
      StartInv(nprocs, ncpus);
    } else {
      RunInv(ss, ts, nprocs, ncpus, k - 1);
      assert Stepped(ss[k - 1], ts[k - 1], ss[k]);
      NextKeepsInv(ss[k - 1], ts[k - 1]);
    }
  }

  /** In every run: a process is RUNNING exactly when it is some CPU's process, and then one CPU's. */
  lemma RunningIsOnOneCpu(ss: seq<State>, ts: seq<Step>, nprocs: nat, ncpus: nat, k: nat, p: nat)
    requires Run(ss, ts) && nprocs > 0 && ss[0] == Start(nprocs, ncpus) && k < |ss| && p < |ss[k].procs|
    ensures ss[k].procs[p].state == Running <==> exists c :: 0 <= c < |ss[k].cpus| && ss[k].cpus[c] == Some(p)
    ensures forall c, d :: 0 <= c < d < |ss[k].cpus| ==> !(ss[k].cpus[c] == Some(p) && ss[k].cpus[d] == Some(p))
  {
    RunInv(ss, ts, nprocs, ncpus, k);
  }

  /** In every run: parents are alive, nobody sleeps in wait beside a zombie child, and every slot in
      use but init's has a parent to collect it, or a maker still building it. */
  lemma FamilySafe(ss: seq<State>, ts: seq<Step>, nprocs: nat, ncpus: nat, k: nat, p: nat)
    requires Run(ss, ts) && nprocs > 0 && ss[0] == Start(nprocs, ncpus) && k < |ss| && p < |ss[k].procs|
    ensures ss[k].procs[p].parent.Some? ==>
      ss[k].procs[p].parent.p < |ss[k].procs| && ss[k].procs[ss[k].procs[p].parent.p].state !in {Unused, Embryo, Zombie}
    ensures ss[k].procs[p].state !in {Unused, Embryo} && p != ss[k].init ==> ss[k].procs[p].parent.Some?
    ensures InWait(ss[k].procs[p], p) ==> !HasZombieChild(ss[k].procs, p)
  {
    RunInv(ss, ts, nprocs, ncpus, k);
    SlotOf(ss[k].procs, ss[k].init, p);
  }

  /** In every run: no pid is reaped twice, and only pids that exited are; a zombie is on no CPU and
      has not been reaped. */
  lemma ReapedOnce(ss: seq<State>, ts: seq<Step>, nprocs: nat, ncpus: nat, k: nat)
    requires Run(ss, ts) && nprocs > 0 && ss[0] == Start(nprocs, ncpus) && k < |ss|
    ensures forall i, j :: 0 <= i < j < |ss[k].reaped| ==> ss[k].reaped[i] != ss[k].reaped[j]
    ensures forall x :: x in ss[k].exited <==> x in ss[k].reaped || ZombiePid(ss[k].procs, x)
    ensures forall p :: 0 <= p < |ss[k].procs| && ss[k].procs[p].state == Zombie ==>
      ss[k].procs[p].pid !in ss[k].reaped && Some(p) !in ss[k].cpus
  {
    RunInv(ss, ts, nprocs, ncpus, k);
    hide TreeOk, WaitOk;
  }

  // ----- a killed flag that outlives its process -----

  /** Free slots carry no kill, so a new process starts unkilled. */
  ghost predicate Clean(ps: seq<Proc>) { forall p :: 0 <= p < |ps| && ps[p].state == Unused ==> !ps[p].killed }

  /** kill finds a free slot whose pid field matches (0, or left by a failed fork), or a fork fails
      after its embryo was killed. */
  ghost predicate Marks(s: State, t: Step)
    requires Enabled(s, t)
  {
    || (t.Kill? && FirstPid(s.procs, t.pid, 0) < |s.procs| && s.procs[FirstPid(s.procs, t.pid, 0)].state == Unused)
    || (t.ForkFail? && s.procs[s.procs[s.cpus[t.c].p].fork.p].killed)
  }

  lemma WaitKeepsClean(s: State, c: nat)
    requires Clean(s.procs) && c < |s.cpus| && s.cpus[c].Some? && s.cpus[c].p < |s.procs|
    ensures Clean(WaitBody(s, c).procs)
  {
  }

  lemma ExitKeepsClean(s: State, c: nat)
    requires Inv(s) && Running1(s, c) && Clean(s.procs)
    ensures Clean(DoExit(s, c).procs)
  {
    Caller(s, c);
    hide TreeOk, WaitOk, PidsOk, CpusOk;
  }

  lemma AllocKeepsClean(s: State, c: nat)
    requires Running1(s, c) && Clean(s.procs)
    ensures Clean(DoAlloc(s, c).procs)
  {
  }

  lemma ForkEndClean(s: State, c: nat, st: PState)
    requires Inv(s) && Forking(s, c) && Clean(s.procs)
    ensures Clean(DoForkEnd(s, c, st).procs) <==> !(st == Unused && s.procs[s.procs[s.cpus[c].p].fork.p].killed)
  {
    Caller(s, c);
    hide TreeOk, WaitOk, PidsOk, CpusOk, SlotOk;
    var n, e := DoForkEnd(s, c, st), s.procs[s.cpus[c].p].fork.p;
    assert n.procs[e].state == st && n.procs[e].killed == s.procs[e].killed;
  }

  lemma KillClean(s: State, pid: nat)
    requires Clean(s.procs)
    ensures Clean(DoKill(s, pid).procs) <==>
      !(FirstPid(s.procs, pid, 0) < |s.procs| && s.procs[FirstPid(s.procs, pid, 0)].state == Unused)
  {
    var v := FirstPid(s.procs, pid, 0);
    assert v < |s.procs| ==> DoKill(s, pid).procs[v] == Killed(s.procs[v]);
  }

  lemma SwitchClean(s: State, c: nat, pr: Proc)
    requires Clean(s.procs) && c < |s.cpus| && s.cpus[c].Some? && s.cpus[c].p < |s.procs| && pr.state != Unused
    ensures Clean(SwitchOut(s, c, pr).procs)
  {
  }

  lemma SlotClean(ps: seq<Proc>, p: nat, pr: Proc)
    requires Clean(ps) && p < |ps| && (pr.state == Unused ==> !pr.killed)
    ensures Clean(ps[p := pr])
  {
  }

  /** The steps that hand the CPU over, or only touch slots in use. */
  lemma SmallStepsClean(s: State, t: Step)
    requires Inv(s) && Enabled(s, t) && Clean(s.procs)
    requires t.ForkParent? || t.Yield? || t.Sleep? || t.Dispatch? || t.Wakeup? || t.SchedAcquire? || t.SchedRelease?
    ensures Clean(Next(s, t).procs)
  {
    if t.ForkParent? || t.Yield? || t.Sleep? { Caller(s, t.c); }
    hide Inv, SlotOk, Clean;
    match t
    case ForkParent(c) =>
      var e := s.procs[s.cpus[c].p].fork.p;
      SlotClean(s.procs, e, s.procs[e].(parent := s.cpus[c]));
    case Yield(c) => SwitchClean(s, c, s.procs[s.cpus[c].p].(state := Runnable, resume := Return));
    case Sleep(c, k) =>
      SwitchClean(s, c, s.procs[s.cpus[c].p].(state := Sleeping, chan := Other(k), resume := Return));
    case Dispatch(c, q) => SlotClean(s.procs, q, s.procs[q].(state := Running));
    case Wakeup(k) => WakeClean(s.procs, Other(k));
    case _ =>
  }

  /** Free slots stay clean at every step but exactly those. */
  lemma NextKeepsClean(s: State, t: Step)
    requires Inv(s) && Enabled(s, t) && Clean(s.procs)
    ensures Clean(Next(s, t).procs) <==> !Marks(s, t)
  {
    hide Inv, DoExit, WaitBody, SlotOk, DoKill, DoForkEnd, DoForkParent, DoAlloc, Clean, SwitchOut;
    match t
    case AllocProc(c) => AllocKeepsClean(s, c);
    case ForkFail(c) => ForkEndClean(s, c, Unused);
    case ForkDone(c) => ForkEndClean(s, c, Runnable);
    case Exit(c) => ExitKeepsClean(s, c);
    case Wait(c) => WaitKeepsClean(s, c);
    case WaitAgain(c) =>
      TidiedClean(s, c);
      WaitKeepsClean(Tidied(s, c), c);
    case Resumed(c) => TidiedClean(s, c);
    case Kill(pid) => KillClean(s, pid);
    case _ => SmallStepsClean(s, t);
  }

  lemma TidiedClean(s: State, c: nat)
    requires Clean(s.procs) && c < |s.cpus| && s.cpus[c].Some? && s.cpus[c].p < |s.procs|
    ensures Clean(Tidied(s, c).procs)
  {
  }

  lemma WakeClean(ps: seq<Proc>, chan: Chan)
    requires Clean(ps)
    ensures Clean(WakeAll(ps, chan))
  {
  }

  function FreeSlot(): Proc { Proc(Unused, 0, Nobody, NoChan, false, Return, Nobody) }

  function BootSlot(): Proc { FreeSlot().(state := Runnable, pid := 1) }

  /** The first process gets to run. */
  lemma BootSteps(s0: State) returns (s1: State, s2: State, s3: State)
    requires s0 == Start(2, 1)
    ensures Stepped(s0, SchedAcquire(0), s1) && Stepped(s1, Dispatch(0, 0), s2) && Stepped(s2, Resumed(0), s3)
    ensures s3 == State([BootSlot().(state := Running), FreeSlot()], [Some(0)], Nobody, 2, 0, {}, [])
  {
    assert s0.procs == [BootSlot(), FreeSlot()] && s0.cpus == [Nobody];
    s1 := Next(s0, SchedAcquire(0));
    s2 := Next(s1, Dispatch(0, 0));
    assert s2.procs == [BootSlot().(state := Running), FreeSlot()] && s2.cpus == [Some(0)];
    s3 := Next(s2, Resumed(0));
    assert s3.procs == s2.procs;
  }

  lemma KillZeroSteps(s3: State) returns (s4: State, s5: State)
    requires s3 == State([BootSlot().(state := Running), FreeSlot()], [Some(0)], Nobody, 2, 0, {}, [])
    ensures Stepped(s3, Kill(0), s4) && Stepped(s4, AllocProc(0), s5)
    ensures |s5.procs| == 2 && s5.procs[1].state == Embryo && s5.procs[1].killed
  {
    assert FirstPid(s3.procs, 0, 1) == 1;
    s4 := Next(s3, Kill(0));
    assert s4.procs == [BootSlot().(state := Running), FreeSlot().(killed := true)];
    assert FirstUnused(s4.procs, 1) == 1;
    s5 := Next(s4, AllocProc(0));
  }

  /** It happens: after kill(0), the next process forked is born killed. */
  lemma KillZeroDoomsNextChild() returns (ss: seq<State>, ts: seq<Step>)
    ensures Run(ss, ts) && ss[0] == Start(2, 1) && |ss| == 6
    ensures ts == [SchedAcquire(0), Dispatch(0, 0), Resumed(0), Kill(0), AllocProc(0)]
    ensures |ss[5].procs| == 2 && ss[5].procs[1].state == Embryo && ss[5].procs[1].killed
  {
    var s0 := Start(2, 1);
    var s1, s2, s3 := BootSteps(s0);
    var s4, s5 := KillZeroSteps(s3);
    hide Start, Stepped;
    ss := [s0, s1, s2, s3, s4, s5];
    ts := [SchedAcquire(0), Dispatch(0, 0), Resumed(0), Kill(0), AllocProc(0)];
  }
}
