/** Any number of processes reading and writing one pipe. */
module PipeMachine {
  // A step is one stay inside the pipe's lock: from acquiring it, or waking with it, to releasing
  // it or going to sleep.

  import opened Blocks
  import opened PipeSpec

  /** A call under way, with what is left of it; the next step enters the lock. */
  datatype Call = Idle | Reading(n: nat) | Writing(addr: seq<byte>, i: nat)

  datatype Proc = Proc(call: Call, asleep: bool, killed: bool)

  datatype State = State(
    ring: Ring,
    readopen: bool,
    writeopen: bool,
    procs: seq<Proc>,
    written: seq<byte>,    // history: bytes accepted by pipewrite
    got: seq<byte>)        // history: bytes piperead handed out

  datatype Step =
    | StartRead(p: nat, n: nat)
    | StartWrite(p: nat, addr: seq<byte>)
    | Enter(p: nat)
    | Kill(p: nat)
    | CloseRead
    | CloseWrite

  datatype Outcome = Done | Failed | Sleep

  // ----- one stay inside the lock (shared with the class in PipeCode) -----

  /** pipewrite from `addr[i]`. */
  function WriteStay(r: Ring, readopen: bool, killed: bool, addr: seq<byte>, i: nat): (Ring, nat, Outcome)
    requires Sized(r) && i <= |addr|
  {
    var o := PutMany(r, addr, i);
    (o.0, o.1, if o.1 == |addr| then Done else if !readopen || killed then Failed else Sleep)
  }

  /** piperead of up to `n` bytes. */
  function ReadStay(r: Ring, writeopen: bool, killed: bool, n: nat): (Ring, seq<byte>, Outcome)
    requires Sized(r)
  {
    if Empty(r) && writeopen then (r, [], if killed then Failed else Sleep)
    else
      var o := TakeMany(r, n);
      (o.0, o.1, Done)
  }

  function Rouse(pr: Proc, readers: bool): Proc {
    if (if readers then pr.call.Reading? else pr.call.Writing?) then pr.(asleep := false) else pr
  }

  /** wakeup on &nread or &nwrite. */
  function Wake(ps: seq<Proc>, readers: bool): (r: seq<Proc>)
    ensures |r| == |ps| && forall i :: 0 <= i < |ps| ==> r[i] == Rouse(ps[i], readers)
  {
    seq(|ps|, i requires 0 <= i < |ps| => Rouse(ps[i], readers))
  }

  // ----- transitions -----

  ghost predicate NoCall(s: State, readers: bool) {
    forall q :: 0 <= q < |s.procs| ==> !(if readers then s.procs[q].call.Reading? else s.procs[q].call.Writing?)
  }

  /** A call holds its end of the pipe open; an end closes when no call is using it. */
  ghost predicate Enabled(s: State, t: Step) {
    match t
    case StartRead(p, _) => p < |s.procs| && s.procs[p].call.Idle? && s.readopen
    case StartWrite(p, _) => p < |s.procs| && s.procs[p].call.Idle? && s.writeopen
    case Enter(p) => p < |s.procs| && !s.procs[p].call.Idle? && !s.procs[p].asleep
    case Kill(p) => p < |s.procs|
    case CloseRead => s.readopen && NoCall(s, true)
    case CloseWrite => s.writeopen && NoCall(s, false)
  }

  ghost predicate Shape(s: State) {
    && Sized(s.ring)
    && forall q :: 0 <= q < |s.procs| ==> CallOk(s, s.procs[q].call)
  }

  ghost predicate CallOk(s: State, c: Call) {
    && (c.Reading? ==> s.readopen)
    && (c.Writing? ==> s.writeopen && c.i <= |c.addr|)
  }

  function EnterWrite(s: State, p: nat): State
    requires Sized(s.ring) && p < |s.procs| && s.procs[p].call.Writing?
    requires s.procs[p].call.i <= |s.procs[p].call.addr|
  {
    var c, k := s.procs[p].call, s.procs[p].killed;
    var o := WriteStay(s.ring, s.readopen, k, c.addr, c.i);
    var now := s.(ring := o.0, written := s.written + c.addr[c.i..o.1]);
    match o.2
    case Done => now.(procs := Wake(s.procs[p := Proc(Idle, false, k)], true))
    case Failed => now.(procs := s.procs[p := Proc(Idle, false, k)])
    case Sleep => now.(procs := Wake(s.procs[p := Proc(Writing(c.addr, o.1), true, k)], true))
  }

  function EnterRead(s: State, p: nat): State
    requires Sized(s.ring) && p < |s.procs| && s.procs[p].call.Reading?
  {
    var c, k := s.procs[p].call, s.procs[p].killed;
    var o := ReadStay(s.ring, s.writeopen, k, c.n);
    var now := s.(ring := o.0, got := s.got + o.1);
    match o.2
    case Done => now.(procs := Wake(s.procs[p := Proc(Idle, false, k)], false))
    case Failed => now.(procs := s.procs[p := Proc(Idle, false, k)])
    case Sleep => now.(procs := s.procs[p := Proc(c, true, k)])
  }

  function Next(s: State, t: Step): State
    requires Shape(s) && Enabled(s, t)
  {
    match t
    case StartRead(p, n) => s.(procs := s.procs[p := s.procs[p].(call := Reading(n), asleep := false)])
    case StartWrite(p, addr) => s.(procs := s.procs[p := s.procs[p].(call := Writing(addr, 0), asleep := false)])
    case Enter(p) => if s.procs[p].call.Writing? then EnterWrite(s, p) else EnterRead(s, p)
    case Kill(p) => s.(procs := s.procs[p := s.procs[p].(killed := true, asleep := false)])
    case CloseRead => s.(readopen := false, procs := Wake(s.procs, false))
    case CloseWrite => s.(writeopen := false, procs := Wake(s.procs, true))
  }

  // ----- bytes come out once each, in order -----

  ghost predicate Inv(s: State) { Shape(s) && Rep(s.ring, s.written, s.got) }

  lemma EnterWriteInv(s: State, p: nat)
    requires Inv(s) && Enabled(s, Enter(p)) && s.procs[p].call.Writing?
    ensures Inv(EnterWrite(s, p)) && s.written <= EnterWrite(s, p).written && s.got == EnterWrite(s, p).got
  {
    var c := s.procs[p].call;
    PutManyRep(s.ring, c.addr, c.i, s.written, s.got);
    hide Rep, PutMany, Sized;
  }

  lemma EnterReadInv(s: State, p: nat)
    requires Inv(s) && Enabled(s, Enter(p)) && s.procs[p].call.Reading?
    ensures Inv(EnterRead(s, p)) && s.written == EnterRead(s, p).written && s.got <= EnterRead(s, p).got
  {
    TakeManyRep(s.ring, s.procs[p].call.n, s.written, s.got);
    hide Rep, TakeMany, Sized;
    assert s.got + [] == s.got;
  }

  lemma NextKeepsInv(s: State, t: Step)
    requires Inv(s) && Enabled(s, t)
    ensures Inv(Next(s, t))
    ensures s.written <= Next(s, t).written && s.got <= Next(s, t).got
  {
    if t.Enter? {
      hide Inv, EnterWrite, EnterRead;
      if s.procs[t.p].call.Writing? { EnterWriteInv(s, t.p); } else { EnterReadInv(s, t.p); }
    } else {
      hide Rep, Sized;
    }
  }

  /** A run: each state follows from the one before by the step between them. */
  ghost predicate Run(ss: seq<State>, ts: seq<Step>) {
    |ss| == |ts| + 1 && forall k :: 0 <= k < |ts| ==> Stepped(ss[k], ts[k], ss[k + 1])
  }

  ghost predicate Stepped(s: State, t: Step, n: State) {
    Shape(s) && Enabled(s, t) && n == Next(s, t)
  }

  function Start(nprocs: nat, data: seq<byte>): State {
    State(Ring(data, 0, 0), true, true, seq(nprocs, _ => Proc(Idle, false, false)), [], [])
  }

  /** In every run, at every moment, the bytes read are a prefix of the bytes written, at most
      PIPESIZE behind, whatever wrapped. */
  lemma {:induction false} Fifo(ss: seq<State>, ts: seq<Step>, data: seq<byte>, k: nat)
    requires Run(ss, ts) && |data| == PIPESIZE && ss[0] == Start(|ss[0].procs|, data) && k < |ss|
    ensures Inv(ss[k]) && ss[k].got <= ss[k].written && |ss[k].written| <= |ss[k].got| + PIPESIZE
  {
    if k > 0 {
      Fifo(ss, ts, data, k - 1);
      assert Stepped(ss[k - 1], ts[k - 1], ss[k]);
      NextKeepsInv(ss[k - 1], ts[k - 1]);
    }
  }

  // ----- nobody sleeps for nothing -----

  ghost predicate Justified(s: State, pr: Proc) {
    pr.asleep ==>
      && (pr.call.Reading? ==> Empty(s.ring) && s.writeopen)
      && (pr.call.Writing? ==> Full(s.ring) && s.readopen)
  }

  /** Sleeping readers wait for a byte, sleeping writers for room. */
  ghost predicate NoMissedWakeup(s: State) {
    forall q :: 0 <= q < |s.procs| ==> Justified(s, s.procs[q])
  }

  ghost predicate ReaderAsleep(s: State) {
    exists q :: 0 <= q < |s.procs| && s.procs[q].call.Reading? && s.procs[q].asleep
  }

  /** A killed writer with more to write than fits returns -1 without waking the readers. */
  ghost predicate Strands(s: State, t: Step) {
    && t.Enter? && t.p < |s.procs| && s.procs[t.p].call.Writing? && s.procs[t.p].killed
    && ReaderAsleep(s) && |s.procs[t.p].call.addr| - s.procs[t.p].call.i > PIPESIZE
  }

  lemma EnterWriteJustified(s: State, p: nat)
    requires Inv(s) && NoMissedWakeup(s) && Enabled(s, Enter(p)) && s.procs[p].call.Writing?
    ensures NoMissedWakeup(EnterWrite(s, p)) <==> !Strands(s, Enter(p))
  {
    var c, n := s.procs[p].call, EnterWrite(s, p);
    PutManyRep(s.ring, c.addr, c.i, s.written, s.got);
    TestsAreExact(s.ring, s.written, s.got);
    TestsAreExact(n.ring, n.written, s.got);
    var o := WriteStay(s.ring, s.readopen, s.procs[p].killed, c.addr, c.i);
    hide Rep, Full, Empty, PutMany;
    assert o.2 != Done ==> Full(n.ring) && !Empty(n.ring);
    assert ReaderAsleep(s) ==> |s.written| == |s.got|;
    assert o.2 == Failed && ReaderAsleep(s) ==> Strands(s, Enter(p));
    if Strands(s, Enter(p)) {
      var q :| 0 <= q < |s.procs| && s.procs[q].call.Reading? && s.procs[q].asleep;
      assert n.procs[q] == s.procs[q] && !Justified(n, n.procs[q]);
    } else {
      forall q | 0 <= q < |n.procs| ensures Justified(n, n.procs[q]) {
        assert q != p ==> Justified(s, s.procs[q]);
        assert Full(s.ring) ==> n.ring == s.ring;
      }
    }
  }

  /** Every step keeps sleepers justified, except exactly a killed writer's return with a reader
      asleep and more bytes than the pipe holds. */
  lemma NextKeepsJustified(s: State, t: Step)
    requires Inv(s) && NoMissedWakeup(s) && Enabled(s, t)
    ensures NoMissedWakeup(Next(s, t)) <==> !Strands(s, t)
  {
    var n := Next(s, t);
    if t.Enter? && s.procs[t.p].call.Writing? {
      EnterWriteJustified(s, t.p);
    } else if t.Enter? {
    } else {
      forall q | 0 <= q < |n.procs| ensures Justified(n, n.procs[q]) {
        assert Justified(s, s.procs[q]);
      }
    }
  }

  /** What no kill can break: a sleeping writer waits for room, and then no reader sleeps. */
  ghost predicate WritersJustified(s: State) {
    forall w :: 0 <= w < |s.procs| && s.procs[w].call.Writing? && s.procs[w].asleep ==>
      Full(s.ring) && s.readopen && !ReaderAsleep(s)
  }

  lemma NextKeepsWriters(s: State, t: Step)
    requires Inv(s) && WritersJustified(s) && Enabled(s, t)
    ensures WritersJustified(Next(s, t))
  {
    var n := Next(s, t);
    TestsAreExact(s.ring, s.written, s.got);
    if t.Enter? && s.procs[t.p].call.Writing? {
      PutManyRep(s.ring, s.procs[t.p].call.addr, s.procs[t.p].call.i, s.written, s.got);
      TestsAreExact(n.ring, n.written, n.got);
    }
    hide Rep, Full, Empty, PutMany, TakeMany;
    assert ReaderAsleep(n) && !ReaderAsleep(s) ==> t.Enter? && s.procs[t.p].call.Reading? && Empty(n.ring);
  }

  /** In every run, kills included, a reader and a writer are never both asleep. */
  lemma {:induction false} NeverBothAsleep(ss: seq<State>, ts: seq<Step>, data: seq<byte>, k: nat, q: nat, w: nat)
    requires Run(ss, ts) && |data| == PIPESIZE && ss[0] == Start(|ss[0].procs|, data) && k < |ss|
    requires q < |ss[k].procs| && w < |ss[k].procs|
    requires ss[k].procs[q].call.Reading? && ss[k].procs[w].call.Writing?
    ensures !(ss[k].procs[q].asleep && ss[k].procs[w].asleep)
  {
    WritersInRun(ss, ts, data, k);
  }

  lemma {:induction false} WritersInRun(ss: seq<State>, ts: seq<Step>, data: seq<byte>, k: nat)
    requires Run(ss, ts) && |data| == PIPESIZE && ss[0] == Start(|ss[0].procs|, data) && k < |ss|
    ensures WritersJustified(ss[k])
  {
    if k > 0 {
      WritersInRun(ss, ts, data, k - 1);
      Fifo(ss, ts, data, k - 1);
      assert Stepped(ss[k - 1], ts[k - 1], ss[k]);
      NextKeepsWriters(ss[k - 1], ts[k - 1]);
    }
  }

  /** In a run without kill no sleeper is ever stranded. */
  lemma {:induction false} NoKillNoStranding(ss: seq<State>, ts: seq<Step>, data: seq<byte>, k: nat)
    requires Run(ss, ts) && |data| == PIPESIZE && ss[0] == Start(|ss[0].procs|, data) && k < |ss|
    requires forall j :: 0 <= j < |ts| ==> !ts[j].Kill?
    ensures NoMissedWakeup(ss[k]) && forall q :: 0 <= q < |ss[k].procs| ==> !ss[k].procs[q].killed
  {
    if k > 0 {
      NoKillNoStranding(ss, ts, data, k - 1);
      Fifo(ss, ts, data, k - 1);
      assert Stepped(ss[k - 1], ts[k - 1], ss[k]);
      NextKeepsJustified(ss[k - 1], ts[k - 1]);
    }
  }

  /** The exception happens: a reader asleep beside a full pipe, and no call of anybody else under
      way that would wake it. */
  lemma KillStrands(data: seq<byte>) returns (ss: seq<State>, ts: seq<Step>)
    requires |data| == PIPESIZE
    ensures Run(ss, ts) && |ts| == 5 && ss[0] == Start(2, data)
    ensures !NoMissedWakeup(ss[5]) && Full(ss[5].ring) && ss[5].procs == [Proc(Reading(1), true, false), Proc(Idle, false, true)]
  {
    var addr: seq<byte> := seq(PIPESIZE + 1, _ => 0);
    var s0 := Start(2, data);
    var s1 := Next(s0, StartRead(0, 1));
    var s2 := Next(s1, Enter(0));
    assert s2.procs[0] == Proc(Reading(1), true, false);
    var s3 := Next(s2, StartWrite(1, addr));
    var s4 := Next(s3, Kill(1));
    PutManyRep(s4.ring, addr, 0, [], []);
    var o := PutMany(s4.ring, addr, 0);
    TestsAreExact(o.0, [] + addr[..o.1], []);
    var s5 := Next(s4, Enter(1));
    ss := [s0, s1, s2, s3, s4, s5];
    ts := [StartRead(0, 1), Enter(0), StartWrite(1, addr), Kill(1), Enter(1)];
    assert !Justified(s5, s5.procs[0]);
  }
}
