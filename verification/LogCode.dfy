/** log.c's own loops over the in-memory log, the cache and the disk, proved against LogSpec and
    LogMachine. `crashes` records the disk after every block write: the states a crash can leave. */
module LogCode {
  import opened Blocks
  import opened LogSpec
  import M = LogMachine

  class Log {
    const g: Geo
    var disk: seq<Block>
    var view: seq<Block>   // the buffer cache over the disk: what bread returns
    var n: nat             // log.lh.n
    var block: array<nat>  // log.lh.block
    var outstanding: int
    var committing: bool
    ghost var crashes: seq<Image>

    ghost predicate Valid()
      reads this, block
    {
      g.Valid() && St().Sized(g) && block.Length == LOGSIZE && n <= LOGSIZE && g.Loggable(Lh())
    }

    ghost function St(): Store
      reads this
    {
      Store(disk, view)
    }

    ghost function Lh(): seq<nat>
      reads this, block
      requires n <= block.Length
    {
      block[..n]
    }

    method Bwrite(b: nat, data: Block)
      requires b < |disk| && b < |view|
      modifies this`disk, this`view, this`crashes
      ensures St() == old(St()).Bwrite(b, data) && crashes == old(crashes) + [disk]
    {
      disk, view := disk[b := data], view[b := data];
      crashes := crashes + [disk];
    }

    /** write_log */
    method WriteLog()
      requires Valid()
      modifies this`disk, this`view, this`crashes
      ensures Valid() && St() == AfterWriteLog(g, old(St()), Lh(), n)
      ensures crashes == old(crashes) + WriteLogDisks(g, old(St()), Lh(), n)
    {
      var tail := 0;
      while tail < n
        invariant tail <= n && Valid()
        invariant St() == AfterWriteLog(g, old(St()), Lh(), tail)
        invariant crashes == old(crashes) + WriteLogDisks(g, old(St()), Lh(), tail)
      {
        var from := view[block[tail]];
        Bwrite(g.start + tail + 1, from);
        tail := tail + 1;
      }
    }

    /** install_trans */
    method InstallTrans()
      requires Valid()
      modifies this`disk, this`view, this`crashes
      ensures Valid() && St() == AfterInstall(g, old(St()), Lh(), n)
      ensures crashes == old(crashes) + InstallDisks(g, old(St()), Lh(), n)
    {
      var tail := 0;
      while tail < n
        invariant tail <= n && Valid()
        invariant St() == AfterInstall(g, old(St()), Lh(), tail)
        invariant crashes == old(crashes) + InstallDisks(g, old(St()), Lh(), tail)
      {
        var lbuf := view[g.start + tail + 1];
        Bwrite(block[tail], lbuf);
        tail := tail + 1;
      }
    }

    /** write_head */
    method WriteHead()
      requires Valid()
      modifies this`disk, this`view, this`crashes
      ensures Valid() && St() == AfterWriteHead(g, old(St()), Lh()) && crashes == old(crashes) + [disk]
    {
      var hb := SetWord(view[g.start], 0, n);
      var i := 0;
      while i < n
        invariant i <= n
        invariant hb == PutHeaderWords(SetWord(view[g.start], 0, n), Lh(), i)
      {
        hb := SetWord(hb, i + 1, block[i]);
        i := i + 1;
      }
      Bwrite(g.start, hb);
    }

    /** read_head: the header on the surviving disk is taken as it is. */
    method ReadHead()
      requires g.Valid() && St().Sized(g) && block.Length == LOGSIZE && g.Loggable(GetHeader(view[g.start]))
      modifies this`n, block
      ensures Valid() && Lh() == GetHeader(view[g.start])
    {
      var head := view[g.start];
      n := Word(head, 0);
      var i := 0;
      while i < n
        invariant i <= n == Word(head, 0) <= LOGSIZE
        invariant block[..i] == HeaderEntries(head, i)
      {
        block[i] := Word(head, i + 1);
        i := i + 1;
      }
    }

    /** recover_from_log, with the disk after each of its writes. */
    method RecoverFromLog()
      requires g.Valid() && St().Sized(g) && block.Length == LOGSIZE && g.Loggable(GetHeader(view[g.start]))
      modifies this`disk, this`view, this`crashes, this`n, block
      ensures var h := |GetHeader(old(view[g.start]))|;
        && Valid() && n == 0 && St() == AfterRecovery(g, old(St()), h + 1)
        && crashes == old(crashes) + RecoveryDisks(g, old(St()), h + 1)
    {
      ReadHead();
      RecoveryDisksInstall(g, St(), n);
      InstallTrans();
      n := 0;
      assert Lh() == [];
      WriteHead();
    }

    /** commit, with the disk after each of its writes. */
    method Commit()
      requires Valid()
      modifies this`disk, this`view, this`crashes, this`n
      ensures var lh := old(Lh()); var len := CommitLen(|lh|);
        && Valid() && n == 0 && St() == AfterCommit(g, old(St()), lh, len)
        && crashes == old(crashes) + CommitDisks(g, old(St()), lh, len)
    {
      ghost var s0, lh, log0 := St(), Lh(), crashes;
      if n > 0 {
        WriteLog();
        WriteHead();
        ghost var c := HeaderWritten(g, s0, lh);
        assert St() == c;
        InstallTrans();
        ghost var i := AfterInstall(g, c, lh, |lh|);
        assert St() == i && crashes == log0 + WriteLogDisks(g, s0, lh, |lh|) + [c.disk] + InstallDisks(g, c, lh, |lh|);
        n := 0;
        assert Lh() == [];
        WriteHead();
        LastCommitStore(g, s0, lh, CommitLen(|lh|));
        CommitFinishes(g, s0, lh, CommitLen(|lh|), log0, crashes, disk);
      }
    }

    /** One pass of begin_op's loop: admitted, or to sleep. */
    method BeginOpPass() returns (admitted: bool)
      requires Valid()
      modifies this`outstanding
      ensures admitted == M.Admits(n, old(outstanding), committing)
      ensures outstanding == old(outstanding) + if admitted then 1 else 0
    {
      if committing {
        admitted := false;
      } else if n + (outstanding + 1) * MAXOPBLOCKS > LOGSIZE {
        admitted := false;
      } else {
        outstanding := outstanding + 1;
        admitted := true;
      }
    }

    /** end_op, run to its return. `ok` is false for the "log.committing" panic. */
    method EndOp() returns (ok: bool)
      requires Valid() && outstanding >= 1
      modifies this`disk, this`view, this`crashes, this`n, this`outstanding, this`committing
      ensures Valid() && outstanding == old(outstanding) - 1 && ok == !old(committing)
      ensures !ok || old(outstanding) > 1 ==> St() == old(St()) && Lh() == old(Lh()) && committing == old(committing)
      ensures ok && old(outstanding) == 1 ==>
        !committing && n == 0 && St() == AfterCommit(g, old(St()), old(Lh()), CommitLen(old(n)))
    {
      outstanding := outstanding - 1;
      if committing { return false; }
      ok := true;
      if outstanding == 0 {
        committing := true;
        Commit();
        committing := false;
      }
    }

    /** log_write of a buffer already modified to `data`. `ok` is false for its panics. */
    method LogWrite(b: nat, data: Block) returns (ok: bool)
      requires Valid() && g.Home(b)
      modifies this`view, this`n, block
      ensures Valid() && ok == !M.LogWritePanics(g, old(n), outstanding) && view == old(view)[b := data]
      ensures Lh() == if ok then M.Absorb(old(Lh()), b) else old(Lh())
    {
      view := view[b := data];
      if n >= LOGSIZE || n >= g.size - 1 || outstanding < 1 { return false; }
      var i := 0;
      while i < n && block[i] != b
        invariant i <= n
        invariant b !in block[..i]
      {
        i := i + 1;
      }
      ghost var lh := Lh();
      block[i] := b;
      if i == n {
        n := n + 1;
        assert Lh() == lh + [b];
      } else {
        assert lh[i] == b;
        assert Lh() == lh;
      }
      ok := true;
    }
  }

  lemma CommitDisksStep(g: Geo, s: Store, lh: seq<nat>, k: nat)
    requires g.Valid() && s.Sized(g) && g.Loggable(lh) && 0 < k <= CommitLen(|lh|)
    ensures CommitDisks(g, s, lh, k) == CommitDisks(g, s, lh, k - 1) + [AfterCommit(g, s, lh, k).disk]
  {
  }

  lemma LastCommitStore(g: Geo, s: Store, lh: seq<nat>, k: nat)
    requires g.Valid() && s.Sized(g) && g.Loggable(lh) && |lh| > 0 && k == CommitLen(|lh|)
    ensures AfterCommit(g, s, lh, k) == AfterWriteHead(g, AfterInstall(g, HeaderWritten(g, s, lh), lh, |lh|), [])
  {
  }

  lemma Regroup<T>(a: seq<T>, b: seq<T>, c: seq<T>, d: seq<T>, e: seq<T>)
    ensures a + b + c + d + e == a + (b + c + d + e)
  {
  }

  lemma CommitFinishes(g: Geo, s: Store, lh: seq<nat>, k: nat, before: seq<Image>, after: seq<Image>, last: Image)
    requires g.Valid() && s.Sized(g) && g.Loggable(lh) && |lh| > 0 && k == CommitLen(|lh|)
    requires last == AfterCommit(g, s, lh, k).disk
    requires var c := HeaderWritten(g, s, lh);
      after == before + WriteLogDisks(g, s, lh, |lh|) + [c.disk] + InstallDisks(g, c, lh, |lh|) + [last]
    ensures after == before + CommitDisks(g, s, lh, k)
  {
    var c := HeaderWritten(g, s, lh);
    Regroup(before, WriteLogDisks(g, s, lh, |lh|), [c.disk], InstallDisks(g, c, lh, |lh|), [last]);
    CommitDisksInstall(g, s, lh, |lh|);
    CommitDisksStep(g, s, lh, k);
  }
}
