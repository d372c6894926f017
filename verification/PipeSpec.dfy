/** pipe.c: a ring buffer with wrapping 32-bit counters. */
module PipeSpec {
  import opened Blocks

  const PIPESIZE: nat := 512

  // ----- the ring -----

  /** data[], nread and nwrite; the counters are 32-bit and wrap. */
  datatype Ring = Ring(data: seq<byte>, nread: nat, nwrite: nat)

  /** A counter in 32 bits, and the slot of data[] it names. */
  function Wrapped(a: nat): (r: nat)
    ensures r < UINT_LIMIT
  {
    a % UINT_LIMIT
  }

  function Slot(a: nat): (r: nat)
    ensures r < PIPESIZE
  {
    a % PIPESIZE
  }

  ghost predicate Sized(r: Ring) { |r.data| == PIPESIZE && r.nread < UINT_LIMIT && r.nwrite < UINT_LIMIT }

  predicate Full(r: Ring) { r.nwrite == Wrapped(r.nread + PIPESIZE) }

  predicate Empty(r: Ring) { r.nread == r.nwrite }

  function Put(r: Ring, b: byte): Ring
    requires Sized(r)
  {
    Ring(r.data[Slot(r.nwrite) := b], r.nread, Wrapped(r.nwrite + 1))
  }

  function First(r: Ring): byte
    requires Sized(r)
  {
    r.data[Slot(r.nread)]
  }

  function Drop(r: Ring): Ring { r.(nread := Wrapped(r.nread + 1)) }

  /** pipewrite's copying, from `addr[i]` until done or full. */
  function PutMany(r: Ring, addr: seq<byte>, i: nat): (o: (Ring, nat))
    requires Sized(r) && i <= |addr|
    ensures Sized(o.0) && i <= o.1 <= |addr|
    decreases |addr| - i
  {
    if i < |addr| && !Full(r) then PutMany(Put(r, addr[i]), addr, i + 1) else (r, i)
  }

  /** piperead's copying, at most `n` bytes. */
  function TakeMany(r: Ring, n: nat): (o: (Ring, seq<byte>))
    requires Sized(r)
    ensures Sized(o.0) && |o.1| <= n
    decreases n
  {
    if n > 0 && !Empty(r) then
      var t := TakeMany(Drop(r), n - 1);
      (t.0, [First(r)] + t.1)
    else (r, [])
  }

  // ----- the ring holds what was written and not yet read -----

  ghost predicate Rep(r: Ring, written: seq<byte>, got: seq<byte>) {
    && Sized(r) && got <= written && |written| - |got| <= PIPESIZE
    && r.nread == Wrapped(|got|) && r.nwrite == Wrapped(|written|)
    && forall k :: |got| <= k < |written| ==> r.data[Slot(k)] == written[k]
  }

  /** PIPESIZE divides 2^32, so a wrapped counter still names the right slot. */
  lemma SlotOfWrapped(a: nat)
    ensures Slot(Wrapped(a)) == Slot(a)
  {
    var q := a / UINT_LIMIT;
    assert a == 8388608 * q * PIPESIZE + a % UINT_LIMIT;
  }

  lemma WrappedNext(a: nat)
    ensures Wrapped(Wrapped(a) + 1) == Wrapped(a + 1)
  {
  }

  /** Two counters at most PIPESIZE apart, compared after wrapping. */
  lemma WrappedGap(a: nat, b: nat)
    requires a <= b <= a + PIPESIZE
    ensures Wrapped(b) == Wrapped(Wrapped(a) + PIPESIZE) <==> b == a + PIPESIZE
    ensures Wrapped(a) == Wrapped(b) <==> a == b
  {
    var d := b - a;
    assert b == a + d;
  }

  /** The tests on wrapped counters say how many bytes wait in the ring. */
  lemma TestsAreExact(r: Ring, written: seq<byte>, got: seq<byte>)
    requires Rep(r, written, got)
    ensures Full(r) <==> |written| - |got| == PIPESIZE
    ensures Empty(r) <==> |written| == |got|
  {
    hide Wrapped, Slot;
    WrappedGap(|got|, |written|);
  }

  lemma SlotsDiffer(k: nat, n: nat)
    requires k < n < k + PIPESIZE
    ensures Slot(k) != Slot(n)
  {
  }

  lemma PutKeepsRep(r: Ring, written: seq<byte>, got: seq<byte>, b: byte)
    requires Rep(r, written, got) && !Full(r)
    ensures Rep(Put(r, b), written + [b], got)
  {
    hide Wrapped, Slot, Full;
    TestsAreExact(r, written, got);
    SlotOfWrapped(|written|);
    WrappedNext(|written|);
    var w, s := written + [b], Put(r, b);
    forall k | |got| <= k < |w| ensures s.data[Slot(k)] == w[k] {
      if k < |written| { SlotsDiffer(k, |written|); }
    }
  }

  lemma DropKeepsRep(r: Ring, written: seq<byte>, got: seq<byte>)
    requires Rep(r, written, got) && !Empty(r)
    ensures |got| < |written| && First(r) == written[|got|]
    ensures Rep(Drop(r), written, got + [First(r)])
  {
    hide Wrapped, Slot, Full;
    TestsAreExact(r, written, got);
    SlotOfWrapped(|got|);
    WrappedNext(|got|);
    assert First(r) == written[|got|];
  }

  function Min(a: int, b: int): int { if a <= b then a else b }

  /** Copying in appends what fits, in order. */
  lemma {:induction false} PutManyRep(r: Ring, addr: seq<byte>, i: nat, written: seq<byte>, got: seq<byte>)
    requires Rep(r, written, got) && i <= |addr|
    ensures Sized(r)
    ensures var o := PutMany(r, addr, i);
      && Rep(o.0, written + addr[i..o.1], got)
      && o.1 == i + Min(|addr| - i, PIPESIZE - (|written| - |got|))
    decreases |addr| - i
  {
    hide Rep, Full, Put;
    TestsAreExact(r, written, got);
    RepLengths(r, written, got);
    if i < |addr| && !Full(r) {
      PutKeepsRep(r, written, got, addr[i]);
      PutManyRep(Put(r, addr[i]), addr, i + 1, written + [addr[i]], got);
      AppendNext(written, addr, i, PutMany(r, addr, i).1);
    } else {
      assert written + addr[i..i] == written;
    }
  }

  lemma AppendNext(w: seq<byte>, addr: seq<byte>, i: nat, j: nat)
    requires i < j <= |addr|
    ensures w + [addr[i]] + addr[i + 1..j] == w + addr[i..j]
  {
  }

  /** Copying out yields the oldest bytes not yet read, in order. */
  lemma {:induction false} TakeManyRep(r: Ring, n: nat, written: seq<byte>, got: seq<byte>)
    requires Rep(r, written, got)
    ensures Sized(r)
    ensures var o := TakeMany(r, n);
      && Rep(o.0, written, got + o.1)
      && o.1 == written[|got|..|got| + Min(n, |written| - |got|)]
    decreases n
  {
    hide Rep, First, Drop, Full;
    TestsAreExact(r, written, got);
    RepLengths(r, written, got);
    if n > 0 && !Empty(r) {
      DropKeepsRep(r, written, got);
      TakeManyRep(Drop(r), n - 1, written, got + [First(r)]);
      TakeNext(r, n, written, got);
    } else {
      assert got + [] == got && written[|got|..|got|] == [];
    }
  }

  lemma RepLengths(r: Ring, written: seq<byte>, got: seq<byte>)
    requires Rep(r, written, got)
    ensures |got| <= |written| <= |got| + PIPESIZE && Sized(r)
  {
  }

  lemma TakeNext(r: Ring, n: nat, written: seq<byte>, got: seq<byte>)
    requires Sized(r) && n > 0 && !Empty(r) && |got| < |written| && First(r) == written[|got|]
    requires TakeMany(Drop(r), n - 1).1 == written[|got| + 1..|got| + 1 + Min(n - 1, |written| - |got| - 1)]
    ensures TakeMany(r, n).0 == TakeMany(Drop(r), n - 1).0
    ensures got + TakeMany(r, n).1 == got + [First(r)] + TakeMany(Drop(r), n - 1).1
    ensures TakeMany(r, n).1 == written[|got|..|got| + Min(n, |written| - |got|)]
  {
  }
}
