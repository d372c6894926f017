/** struct pipe and its calls, one stay inside the lock at a time. */
module PipeCode {
  import opened Blocks
  import opened PipeSpec
  import opened PipeMachine

  class Pipe {
    const data: array<byte>
    var nread: nat
    var nwrite: nat
    var readopen: bool
    var writeopen: bool

    ghost predicate Valid()
      reads this, data
    {
      data.Length == PIPESIZE && nread < UINT_LIMIT && nwrite < UINT_LIMIT
    }

    ghost function Now(): (r: Ring)
      requires Valid()
      reads this, data
      ensures Sized(r)
    {
      Ring(data[..], nread, nwrite)
    }

    /** pipealloc's pipe: empty, both ends open, whatever the page held. */
    constructor (page: array<byte>)
      requires page.Length == PIPESIZE
      ensures Valid() && data == page && readopen && writeopen && Rep(Now(), [], [])
    {
      data, readopen, writeopen, nwrite, nread := page, true, true, 0, 0;
    }

    /** pipewrite from `addr[from]` until it returns or sleeps; `wake` says whether it woke the
        readers before letting go of the lock. */
    method PipeWrite(addr: seq<byte>, from: nat, killed: bool) returns (i: nat, outcome: Outcome, wake: bool)
      requires Valid() && from <= |addr|
      modifies this`nwrite, data
      ensures Valid()
      ensures (Now(), i, outcome) == WriteStay(old(Now()), readopen, killed, addr, from)
      ensures wake <==> outcome != Failed
    {
      i := from;
      while i < |addr|
        invariant Valid() && i <= |addr|
        invariant PutMany(Now(), addr, i) == PutMany(old(Now()), addr, from)
      {
        if nwrite == (nread + PIPESIZE) % UINT_LIMIT {
          if !readopen || killed {
            return i, Failed, false;
          }
          return i, Sleep, true;
        }
        ghost var was := Now();
        data[nwrite % PIPESIZE] := addr[i];
        nwrite := (nwrite + 1) % UINT_LIMIT;
        assert Now() == Put(was, addr[i]);
        i := i + 1;
      }
      return i, Done, true;
    }

    /** piperead of up to `n` bytes until it returns or sleeps. */
    method PipeRead(n: nat, killed: bool) returns (got: seq<byte>, outcome: Outcome, wake: bool)
      requires Valid()
      modifies this`nread
      ensures Valid()
      ensures (Now(), got, outcome) == ReadStay(old(Now()), writeopen, killed, n)
      ensures wake <==> outcome == Done
    {
      if nread == nwrite && writeopen {
        return [], if killed then Failed else Sleep, false;
      }
      var i := 0;
      got := [];
      while i < n
        invariant Valid() && i <= n && |got| == i
        invariant TakeMany(Now(), n - i).0 == TakeMany(old(Now()), n).0
        invariant got + TakeMany(Now(), n - i).1 == TakeMany(old(Now()), n).1
      {
        if nread == nwrite {
          break;
        }
        ghost var was := Now();
        ghost var g := got;
        got := got + [data[nread % PIPESIZE]];
        nread := (nread + 1) % UINT_LIMIT;
        assert Now() == Drop(was);
        assert g + ([First(was)] + TakeMany(Drop(was), n - i - 1).1) == got + TakeMany(Now(), n - i - 1).1;
        i := i + 1;
      }
      assert got + [] == got;
      return got, Done, true;
    }

    /** pipeclose of one end; `last` says the page is freed, `readers` which end is woken: the
        readers when the write end closes, the writers when the read end does. */
    method PipeClose(writable: bool) returns (last: bool, readers: bool)
      requires Valid()
      modifies this`readopen, this`writeopen
      ensures Valid() && Now() == old(Now())
      ensures writable ==> !writeopen && readopen == old(readopen)
      ensures !writable ==> !readopen && writeopen == old(writeopen)
      ensures (last <==> !readopen && !writeopen) && (readers <==> writable)
      ensures forall s: State :: Shape(s) && s.readopen == old(readopen) && s.writeopen == old(writeopen) ==>
        var t := if writable then CloseWrite else CloseRead;
        Enabled(s, t) ==>
          Next(s, t) == s.(readopen := readopen, writeopen := writeopen, procs := Wake(s.procs, readers))
    {
      if writable {
        writeopen, readers := false, true;
      } else {
        readopen, readers := false, false;
      }
      last := !readopen && !writeopen;
    }
  }
}
