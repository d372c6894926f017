/** The loops of proc.c over the process table, each run with ptable.lock held. */
module ProcCode {
  import opened ProcMachine

  datatype WaitResult = Pid(pid: nat) | NoChildren | MustSleep

  /** The table while exit's second loop has done the slots before `i`. */
  function ExitPart(ps: seq<Proc>, me: nat, init: nat, q: nat, i: nat): Proc
    requires me < |ps| && q < |ps| && i <= |ps|
  {
    var a := Woken(ps[q], ParentChan(ps[me].parent));
    var b := if q < i && a.parent == Some(me) then a.(parent := Some(init)) else a;
    if HasZombieChild(ps[..i], me) then Woken(b, OfProc(init)) else b
  }

  class Ptable {
    const proc: array<Proc>
    var nextpid: nat
    const init: nat

    constructor (table: array<Proc>, i: nat)
      ensures proc == table && nextpid == 1 && init == i
    {
      proc, nextpid, init := table, 1, i;
    }

    /** allocproc's scan: the first unused slot becomes an embryo with a fresh pid. */
    method Alloc() returns (e: nat)
      modifies this`nextpid, proc
      ensures e == FirstUnused(old(proc[..]), 0)
      ensures e == proc.Length ==> proc[..] == old(proc[..]) && nextpid == old(nextpid)
      ensures e < proc.Length ==>
        && proc[..] == old(proc[..])[e := old(proc[e]).(state := Embryo, pid := old(nextpid), resume := Return)]
        && nextpid == old(nextpid) + 1
    {
      e := 0;
      while e < proc.Length
        invariant e <= proc.Length && proc[..] == old(proc[..]) && nextpid == old(nextpid)
        invariant FirstUnused(proc[..], e) == FirstUnused(old(proc[..]), 0)
      {
        if proc[e].state == Unused {
          proc[e] := proc[e].(state := Embryo, pid := nextpid, resume := Return);
          nextpid := nextpid + 1;
          return;
        }
        e := e + 1;
      }
    }

    /** wakeup1. */
    method Wakeup1(chan: Chan)
      modifies proc
      ensures proc[..] == WakeAll(old(proc[..]), chan)
    {
      var p := 0;
      while p < proc.Length
        invariant p <= proc.Length
        invariant forall q :: 0 <= q < p ==> proc[q] == Woken(old(proc[q]), chan)
        invariant forall q :: p <= q < proc.Length ==> proc[q] == old(proc[q])
      {
        if proc[p].state == Sleeping && proc[p].chan == chan {
          proc[p] := proc[p].(state := Runnable);
        }
        p := p + 1;
      }
    }

    /** exit under the lock: wake the parent, give the children to init, become a zombie. */
    method Exit(me: nat)
      requires me < proc.Length && proc[me].state == Running && me != init
      modifies proc
      ensures proc[..] == ExitTable(old(proc[..]), me, init)
    {
      ghost var ps := proc[..];
      Wakeup1(ParentChan(proc[me].parent));
      var p := 0;
      while p < proc.Length
        invariant p <= proc.Length
        invariant forall q :: 0 <= q < proc.Length ==> proc[q] == ExitPart(ps, me, init, q, p)
      {
        if proc[p].parent == Some(me) {
          proc[p] := proc[p].(parent := Some(init));
          if proc[p].state == Zombie {
            Wakeup1(OfProc(init));
          }
        }
        p := p + 1;
      }
      assert ps[..p] == ps;
      proc[me] := proc[me].(state := Zombie);
    }

    /** wait's loop body: the pid of a zombie child, reaped, if there is one; else no children (or
        killed); else the caller goes to sleep on itself. */
    method Wait(me: nat) returns (r: WaitResult)
      requires me < proc.Length
      modifies proc
      ensures r.Pid? <==> old(HasZombieChild(proc[..], me))
      ensures r.NoChildren? <==> !old(HasZombieChild(proc[..], me)) && (!old(HasKids(proc[..], me)) || old(proc[me].killed))
      ensures r.Pid? ==>
        var z := FirstZombie(old(proc[..]), me, 0);
        && z < proc.Length && r.pid == old(proc[..])[z].pid
        && proc[..] == old(proc[..])[z := Reaped(old(proc[..])[z])]
      ensures r.NoChildren? ==> proc[..] == old(proc[..])
      ensures r.MustSleep? ==>
        proc[..] == old(proc[..])[me := old(proc[me]).(state := Sleeping, chan := OfProc(me), resume := WaitLoop)]
    {
      ghost var ps := proc[..];
      var havekids := false;
      var p := 0;
      while p < proc.Length
        invariant p <= proc.Length && proc[..] == ps
        invariant FirstZombie(ps, me, p) == FirstZombie(ps, me, 0)
        invariant havekids <==> exists q :: 0 <= q < p && ps[q].parent == Some(me)
        invariant forall q :: 0 <= q < p ==> !ZombieChild(ps[q], me)
      {
        if proc[p].parent == Some(me) {
          havekids := true;
          if proc[p].state == Zombie {
            assert ZombieChild(ps[p], me);
            var pid := proc[p].pid;
            proc[p] := proc[p].(pid := 0, parent := Nobody, killed := false, state := Unused);
            return Pid(pid);
          }
        }
        p := p + 1;
      }
      if !havekids || proc[me].killed {
        return NoChildren;
      }
      proc[me] := proc[me].(state := Sleeping, chan := OfProc(me), resume := WaitLoop);
      return MustSleep;
    }

    /** kill: marks the first slot with that pid and wakes it if asleep. */
    method Kill(pid: nat) returns (found: bool)
      modifies proc
      ensures found <==> exists q :: 0 <= q < proc.Length && old(proc[q]).pid == pid
      ensures !found ==> proc[..] == old(proc[..])
      ensures found ==>
        var v := FirstPid(old(proc[..]), pid, 0);
        v < proc.Length && proc[..] == old(proc[..])[v := Killed(old(proc[..])[v])]
    {
      ghost var ps := proc[..];
      var p := 0;
      while p < proc.Length
        invariant p <= proc.Length && proc[..] == ps
        invariant FirstPid(ps, pid, p) == FirstPid(ps, pid, 0)
        invariant forall q :: 0 <= q < p ==> ps[q].pid != pid
      {
        if proc[p].pid == pid {
          assert old(proc[p]).pid == pid;
          proc[p] := proc[p].(killed := true);
          if proc[p].state == Sleeping {
            proc[p] := proc[p].(state := Runnable);
          }
          return true;
        }
        p := p + 1;
      }
      return false;
    }

    /** The scheduler's scan from slot `from`: the next RUNNABLE process, now RUNNING. */
    method Pick(from: nat) returns (q: nat)
      requires from <= proc.Length
      modifies proc
      ensures from <= q <= proc.Length
      ensures forall p :: from <= p < q ==> old(proc[p]).state != Runnable
      ensures q == proc.Length ==> proc[..] == old(proc[..])
      ensures q < proc.Length ==>
        old(proc[q]).state == Runnable && proc[..] == old(proc[..])[q := old(proc[q]).(state := Running)]
    {
      q := from;
      while q < proc.Length
        invariant from <= q <= proc.Length && proc[..] == old(proc[..])
        invariant forall p :: from <= p < q ==> old(proc[p]).state != Runnable
      {
        if proc[q].state == Runnable {
          proc[q] := proc[q].(state := Running);
          return;
        }
        q := q + 1;
      }
    }
  }
}
