/** The redo log of log.c. */
module LogSpec {
  // What each loop writes, and what recovery makes of any disk.

  import opened Blocks

  const MAXOPBLOCKS: nat := 10
  const LOGSIZE: nat := 30   // MAXOPBLOCKS * 3

  type Image = seq<Block>

  /** Where the log lies: header at `start`, then `size - 1` data blocks. */
  datatype Geo = Geo(start: nat, size: nat, nblocks: nat) {
    predicate Valid() { size >= 1 && start + size <= nblocks && nblocks <= UINT_LIMIT }
    /** A block outside the log area. */
    predicate Home(b: int) { 0 <= b < nblocks && !(start <= b < start + size) }
    /** Block numbers a transaction may hold: outside the log, each once, few enough for the log. */
    ghost predicate Loggable(lh: seq<nat>) {
      && |lh| <= LOGSIZE && |lh| <= size - 1
      && (forall i :: 0 <= i < |lh| ==> Home(lh[i]))
      && (forall i, j :: 0 <= i < j < |lh| ==> lh[i] != lh[j])
    }
  }

  // ----- the header block -----

  ghost predicate Uints(lh: seq<nat>) { forall i :: 0 <= i < |lh| ==> lh[i] < UINT_LIMIT }

  function PutHeaderWords(b: Block, lh: seq<nat>, k: nat): Block
    requires k <= |lh| < NWORDS && Uints(lh)
  {
    if k == 0 then b else SetWord(PutHeaderWords(b, lh, k - 1), k, lh[k - 1])
  }

  lemma {:induction false} PutHeaderWordAt(b: Block, lh: seq<nat>, k: nat, i: nat)
    requires k <= |lh| < NWORDS && Uints(lh) && i < NWORDS
    ensures Word(PutHeaderWords(b, lh, k), i) == if 1 <= i <= k then lh[i - 1] else Word(b, i)
  {
    if k > 0 {
      PutHeaderWordAt(b, lh, k - 1, i);
      WordOfSetWord(PutHeaderWords(b, lh, k - 1), k, lh[k - 1], i);
    }
  }

  /** write_head overwrites the count and the first `|lh|` entries of the cached header block. */
  function PutHeader(b: Block, lh: seq<nat>): Block
    requires |lh| < NWORDS && Uints(lh)
  {
    PutHeaderWords(SetWord(b, 0, |lh|), lh, |lh|)
  }

  /** The first `k` block numbers read_head copies (none past the block's end). */
  function HeaderEntries(b: Block, k: nat): (r: seq<nat>)
    ensures |r| == k
  {
    if k == 0 then [] else HeaderEntries(b, k - 1) + [if k < NWORDS then Word(b, k) else 0]
  }

  /** What read_head reads: a count and that many block numbers. */
  function GetHeader(b: Block): seq<nat> { HeaderEntries(b, Word(b, 0)) }

  lemma {:induction false} HeaderEntriesOfPut(b: Block, lh: seq<nat>, k: nat)
    requires k <= |lh| < NWORDS && Uints(lh)
    ensures HeaderEntries(PutHeaderWords(b, lh, |lh|), k) == lh[..k]
  {
    if k > 0 {
      HeaderEntriesOfPut(b, lh, k - 1);
      PutHeaderWordAt(b, lh, |lh|, k);
      assert lh[..k] == lh[..k - 1] + [lh[k - 1]];
    }
  }

  /** What is written to the header block is what recovery reads back. */
  lemma HeaderRoundTrip(b: Block, lh: seq<nat>)
    requires |lh| < NWORDS && Uints(lh)
    ensures GetHeader(PutHeader(b, lh)) == lh
  {
    WordOfSetWord(b, 0, |lh|, 0);
    PutHeaderWordAt(SetWord(b, 0, |lh|), lh, |lh|, 0);
    HeaderEntriesOfPut(SetWord(b, 0, |lh|), lh, |lh|);
  }

  /** The `i`th data block of the log in an image. */
  function LogAt(g: Geo, d: Image, i: nat): Block
    requires g.Valid() && |d| == g.nblocks && i < g.size - 1
  {
    d[g.start + 1 + i]
  }

  // ----- disk and cache, one bwrite at a time -----

  /** `disk` survives a crash; `view` is what bread returns (the cache over the disk). */
  datatype Store = Store(disk: Image, view: Image) {
    ghost predicate Sized(g: Geo) { |disk| == g.nblocks && |view| == g.nblocks }
    function Bwrite(b: nat, data: Block): Store
      requires b < |disk| && b < |view|
    {
      Store(disk[b := data], view[b := data])
    }
  }

  /** write_log after `k` iterations. */
  function AfterWriteLog(g: Geo, s: Store, lh: seq<nat>, k: nat): (r: Store)
    requires g.Valid() && s.Sized(g) && g.Loggable(lh) && k <= |lh|
    ensures r.Sized(g)
  {
    if k == 0 then s
    else var p := AfterWriteLog(g, s, lh, k - 1); p.Bwrite(g.start + k, p.view[lh[k - 1]])
  }

  /** install_trans after `k` iterations. */
  function AfterInstall(g: Geo, s: Store, lh: seq<nat>, k: nat): (r: Store)
    requires g.Valid() && s.Sized(g) && g.Loggable(lh) && k <= |lh|
    ensures r.Sized(g)
  {
    if k == 0 then s
    else var p := AfterInstall(g, s, lh, k - 1); p.Bwrite(lh[k - 1], p.view[g.start + k])
  }

  function AfterWriteHead(g: Geo, s: Store, lh: seq<nat>): (r: Store)
    requires g.Valid() && s.Sized(g) && g.Loggable(lh)
    ensures r.Sized(g)
  {
    s.Bwrite(g.start, PutHeader(s.view[g.start], lh))
  }

  /** The moment of commit: all blocks in the log, then the header naming them. */
  function HeaderWritten(g: Geo, s: Store, lh: seq<nat>): (r: Store)
    requires g.Valid() && s.Sized(g) && g.Loggable(lh)
    ensures r.Sized(g)
  {
    AfterWriteHead(g, AfterWriteLog(g, s, lh, |lh|), lh)
  }

  /** Number of block writes a commit of `n` blocks makes. */
  function CommitLen(n: nat): nat { if n == 0 then 0 else 2 * n + 2 }

  /** commit() stopped after `k` block writes. */
  function AfterCommit(g: Geo, s: Store, lh: seq<nat>, k: nat): (r: Store)
    requires g.Valid() && s.Sized(g) && g.Loggable(lh) && k <= CommitLen(|lh|)
    ensures r.Sized(g)
  {
    var n := |lh|;
    if k <= n then AfterWriteLog(g, s, lh, k)
    else
      var c := HeaderWritten(g, s, lh);
      if k <= 2 * n + 1 then AfterInstall(g, c, lh, k - n - 1)
      else AfterWriteHead(g, AfterInstall(g, c, lh, n), [])
  }

  /** recover_from_log() stopped after `k` block writes; its header is the one on disk. */
  function AfterRecovery(g: Geo, s: Store, k: nat): (r: Store)
    requires g.Valid() && s.Sized(g) && g.Loggable(GetHeader(s.view[g.start]))
    requires k <= |GetHeader(s.view[g.start])| + 1
    ensures r.Sized(g)
  {
    var lh := GetHeader(s.view[g.start]);
    if k <= |lh| then AfterInstall(g, s, lh, k) else AfterWriteHead(g, AfterInstall(g, s, lh, |lh|), [])
  }

  // ----- the disks a crash can leave: one after each block write -----

  ghost function WriteLogDisks(g: Geo, s: Store, lh: seq<nat>, k: nat): seq<Image>
    requires g.Valid() && s.Sized(g) && g.Loggable(lh) && k <= |lh|
  {
    if k == 0 then [] else WriteLogDisks(g, s, lh, k - 1) + [AfterWriteLog(g, s, lh, k).disk]
  }

  ghost function InstallDisks(g: Geo, s: Store, lh: seq<nat>, k: nat): seq<Image>
    requires g.Valid() && s.Sized(g) && g.Loggable(lh) && k <= |lh|
  {
    if k == 0 then [] else InstallDisks(g, s, lh, k - 1) + [AfterInstall(g, s, lh, k).disk]
  }

  ghost function CommitDisks(g: Geo, s: Store, lh: seq<nat>, k: nat): seq<Image>
    requires g.Valid() && s.Sized(g) && g.Loggable(lh) && k <= CommitLen(|lh|)
  {
    if k == 0 then [] else CommitDisks(g, s, lh, k - 1) + [AfterCommit(g, s, lh, k).disk]
  }

  ghost function RecoveryDisks(g: Geo, s: Store, k: nat): seq<Image>
    requires g.Valid() && s.Sized(g) && g.Loggable(GetHeader(s.view[g.start]))
    requires k <= |GetHeader(s.view[g.start])| + 1
  {
    if k == 0 then [] else RecoveryDisks(g, s, k - 1) + [AfterRecovery(g, s, k).disk]
  }

  lemma {:induction false} CommitDisksLog(g: Geo, s: Store, lh: seq<nat>, k: nat)
    requires g.Valid() && s.Sized(g) && g.Loggable(lh) && k <= |lh| && |lh| > 0
    ensures CommitDisks(g, s, lh, k) == WriteLogDisks(g, s, lh, k)
  {
    if k > 0 { CommitDisksLog(g, s, lh, k - 1); }
  }

  lemma {:induction false} CommitDisksInstall(g: Geo, s: Store, lh: seq<nat>, k: nat)
    requires g.Valid() && s.Sized(g) && g.Loggable(lh) && k <= |lh| && |lh| > 0
    ensures var c := HeaderWritten(g, s, lh);
      CommitDisks(g, s, lh, |lh| + 1 + k) == WriteLogDisks(g, s, lh, |lh|) + [c.disk] + InstallDisks(g, c, lh, k)
  {
    if k == 0 { CommitDisksLog(g, s, lh, |lh|); } else { CommitDisksInstall(g, s, lh, k - 1); }
  }

  lemma {:induction false} RecoveryDisksInstall(g: Geo, s: Store, k: nat)
    requires g.Valid() && s.Sized(g) && g.Loggable(GetHeader(s.view[g.start]))
    requires k <= |GetHeader(s.view[g.start])|
    ensures RecoveryDisks(g, s, k) == InstallDisks(g, s, GetHeader(s.view[g.start]), k)
  {
    if k > 0 { RecoveryDisksInstall(g, s, k - 1); }
  }

  /** A reboot: memory is lost, the cache starts from the disk. */
  function Reboot(s: Store): Store { Store(s.disk, s.disk) }

  // ----- meaning -----

  /** Recovery of this disk yields the home blocks of `img`: each block is either named by the
      on-disk header and held in the log, or already in place. */
  ghost predicate Recovers(g: Geo, disk: Image, img: Image)
    requires g.Valid()
  {
    && |disk| == |img| == g.nblocks
    && var h := GetHeader(disk[g.start]);
    && g.Loggable(h)
    && (forall i :: 0 <= i < |h| ==> LogAt(g, disk, i) == img[h[i]])
    && (forall b :: g.Home(b) && b !in h ==> disk[b] == img[b])
  }

  ghost predicate SameHome(g: Geo, a: Image, b: Image) {
    |a| == |b| == g.nblocks && forall x :: g.Home(x) ==> a[x] == b[x]
  }

  // ----- lemmas about each loop -----

  lemma {:induction false} WriteLogEffect(g: Geo, s: Store, lh: seq<nat>, k: nat)
    requires g.Valid() && s.Sized(g) && g.Loggable(lh) && k <= |lh|
    ensures var r := AfterWriteLog(g, s, lh, k);
      && (forall b :: 0 <= b < g.nblocks && !(g.start < b <= g.start + k) ==>
            r.disk[b] == s.disk[b] && r.view[b] == s.view[b])
      && (forall i :: 0 <= i < k ==> LogAt(g, r.disk, i) == s.view[lh[i]] == LogAt(g, r.view, i))
  {
    if k > 0 { WriteLogEffect(g, s, lh, k - 1); }
  }

  /** One more iteration of install_trans. */
  lemma InstallStep(g: Geo, s: Store, lh: seq<nat>, k: nat, p: Store, r: Store)
    requires g.Valid() && s.Sized(g) && p.Sized(g) && g.Loggable(lh) && k < |lh|
    requires r == p.Bwrite(lh[k], p.view[g.start + k + 1])
    requires forall b :: 0 <= b < g.nblocks && b !in lh[..k] ==> p.disk[b] == s.disk[b] && p.view[b] == s.view[b]
    requires forall i :: 0 <= i < k ==> p.disk[lh[i]] == LogAt(g, s.view, i) == p.view[lh[i]]
    ensures forall b :: 0 <= b < g.nblocks && b !in lh[..k + 1] ==> r.disk[b] == s.disk[b] && r.view[b] == s.view[b]
    ensures forall i :: 0 <= i < k + 1 ==> r.disk[lh[i]] == LogAt(g, s.view, i) == r.view[lh[i]]
  {
    assert lh[..k + 1] == lh[..k] + [lh[k]];
    assert g.start + k + 1 !in lh[..k];
  }

  lemma {:induction false} InstallEffect(g: Geo, s: Store, lh: seq<nat>, k: nat)
    requires g.Valid() && s.Sized(g) && g.Loggable(lh) && k <= |lh|
    ensures var r := AfterInstall(g, s, lh, k);
      && (forall b :: 0 <= b < g.nblocks && b !in lh[..k] ==> r.disk[b] == s.disk[b] && r.view[b] == s.view[b])
      && (forall i :: 0 <= i < k ==> r.disk[lh[i]] == LogAt(g, s.view, i) == r.view[lh[i]])
  {
    hide LogAt, Store.Bwrite;
    if k > 0 {
      InstallEffect(g, s, lh, k - 1);
      InstallStep(g, s, lh, k - 1, AfterInstall(g, s, lh, k - 1), AfterInstall(g, s, lh, k));
    }
  }

  /** Installing a committed log, wherever it stops, changes nothing recovery would yield. */
  lemma InstallKeepsRecovers(g: Geo, s: Store, lh: seq<nat>, k: nat, img: Image)
    requires g.Valid() && s.Sized(g) && g.Loggable(lh) && k <= |lh|
    requires Recovers(g, s.disk, img) && GetHeader(s.disk[g.start]) == lh
    requires forall i :: 0 <= i < |lh| ==> LogAt(g, s.view, i) == LogAt(g, s.disk, i)
    ensures Recovers(g, AfterInstall(g, s, lh, k).disk, img)
    ensures GetHeader(AfterInstall(g, s, lh, k).disk[g.start]) == lh
    ensures k == |lh| ==> SameHome(g, AfterInstall(g, s, lh, k).disk, img)
  {
    InstallEffect(g, s, lh, k);
    var r := AfterInstall(g, s, lh, k);
    assert g.start !in lh[..k];
    forall i | 0 <= i < |lh| ensures LogAt(g, r.disk, i) == LogAt(g, s.disk, i) {
      assert g.start + 1 + i !in lh[..k];
    }
    forall b | g.Home(b) && b !in lh ensures r.disk[b] == img[b] {
      assert b !in lh[..k];
    }
    if k == |lh| {
      forall b | g.Home(b) ensures r.disk[b] == img[b] {
        if b in lh { var i :| 0 <= i < |lh| && lh[i] == b; }
      }
    }
  }

  /** Clearing the header of a disk already in place. */
  lemma ClearKeepsRecovers(g: Geo, s: Store, img: Image)
    requires g.Valid() && s.Sized(g) && SameHome(g, s.disk, img)
    ensures var r := AfterWriteHead(g, s, []);
      Recovers(g, r.disk, img) && SameHome(g, r.disk, img) && GetHeader(r.disk[g.start]) == []
  {
    HeaderRoundTrip(s.view[g.start], []);
  }

  // ----- main results -----

  /** Recovery of a recoverable disk, completed: home blocks are the image, the log is empty. */
  lemma RecoveryYields(g: Geo, disk: Image, img: Image)
    requires g.Valid() && Recovers(g, disk, img)
    ensures var s := Store(disk, disk);
      var r := AfterRecovery(g, s, |GetHeader(disk[g.start])| + 1);
      SameHome(g, r.disk, img) && GetHeader(r.disk[g.start]) == []
  {
    var s, h := Store(disk, disk), GetHeader(disk[g.start]);
    InstallKeepsRecovers(g, s, h, |h|, img);
    ClearKeepsRecovers(g, AfterInstall(g, s, h, |h|), img);
  }

  /** A crash after any write of recovery leaves a disk that still recovers to the same image. */
  lemma RecoveryCrashSafe(g: Geo, disk: Image, img: Image, k: nat)
    requires g.Valid() && Recovers(g, disk, img) && k <= |GetHeader(disk[g.start])| + 1
    ensures Recovers(g, AfterRecovery(g, Store(disk, disk), k).disk, img)
  {
    var s, h := Store(disk, disk), GetHeader(disk[g.start]);
    InstallKeepsRecovers(g, s, h, if k <= |h| then k else |h|, img);
    if k > |h| { ClearKeepsRecovers(g, AfterInstall(g, s, h, |h|), img); }
  }

  /** Between transactions and while blocks are being logged: the log on disk is empty, the home
      blocks on disk are `img`, and the cache differs from the disk on logged blocks only. */
  ghost predicate Quiet(g: Geo, s: Store, lh: seq<nat>, img: Image)
    requires g.Valid()
    ensures Quiet(g, s, lh, img) ==> s.Sized(g) && g.Loggable(lh)
  {
    && s.Sized(g) && g.Loggable(lh)
    && SameHome(g, s.disk, img)
    && GetHeader(s.disk[g.start]) == []
    && (forall b :: 0 <= b < g.nblocks && b !in lh ==> s.view[b] == s.disk[b])
  }

  lemma BeforeHeader(g: Geo, s: Store, lh: seq<nat>, img: Image, k: nat)
    requires g.Valid() && Quiet(g, s, lh, img) && k <= |lh|
    ensures Recovers(g, AfterWriteLog(g, s, lh, k).disk, img)
  {
    WriteLogEffect(g, s, lh, k);
  }

  /** The log is complete and the cache agrees with the disk off the logged blocks. */
  ghost predicate LogWritten(g: Geo, s: Store, w: Store, lh: seq<nat>)
    requires g.Valid()
  {
    && s.Sized(g) && w.Sized(g) && g.Loggable(lh)
    && (forall i :: 0 <= i < |lh| ==> LogAt(g, w.disk, i) == s.view[lh[i]] == LogAt(g, w.view, i))
    && (forall b :: 0 <= b < g.nblocks && b !in lh ==> w.view[b] == w.disk[b])
    && (forall b :: g.Home(b) ==> w.view[b] == s.view[b])
    && (forall b :: g.Home(b) ==> w.disk[b] == s.disk[b])
  }

  lemma LogIsWritten(g: Geo, s: Store, lh: seq<nat>, img: Image)
    requires g.Valid() && Quiet(g, s, lh, img)
    ensures LogWritten(g, s, AfterWriteLog(g, s, lh, |lh|), lh)
  {
    var w := AfterWriteLog(g, s, lh, |lh|);
    WriteLogEffect(g, s, lh, |lh|);
    forall b | 0 <= b < g.nblocks && b !in lh ensures w.view[b] == w.disk[b] {
      if g.start < b <= g.start + |lh| {
        var i := b - g.start - 1;
        assert LogAt(g, w.disk, i) == LogAt(g, w.view, i);
      }
    }
  }

  lemma AtHeader(g: Geo, s: Store, lh: seq<nat>, img: Image, w: Store, c: Store, head: Block)
    requires g.Valid() && Quiet(g, s, lh, img) && LogWritten(g, s, w, lh)
    requires c == w.Bwrite(g.start, head) && GetHeader(head) == lh
    ensures Recovers(g, c.disk, s.view) && GetHeader(c.disk[g.start]) == lh
    ensures forall i :: 0 <= i < |lh| ==> LogAt(g, c.view, i) == LogAt(g, c.disk, i)
    ensures forall b :: 0 <= b < g.nblocks && b !in lh ==> c.view[b] == c.disk[b]
  {
    forall i | 0 <= i < |lh|
      ensures LogAt(g, c.disk, i) == LogAt(g, w.disk, i) && LogAt(g, c.view, i) == LogAt(g, w.view, i) {}
    forall b | g.Home(b) && b !in lh ensures c.disk[b] == s.view[b] {
      assert w.disk[b] == s.disk[b];
    }
  }

  lemma AfterHeader(g: Geo, c: Store, lh: seq<nat>, img: Image, k: nat)
    requires g.Valid() && c.Sized(g) && g.Loggable(lh) && k <= |lh| + 1
    requires Recovers(g, c.disk, img) && GetHeader(c.disk[g.start]) == lh
    requires forall i :: 0 <= i < |lh| ==> LogAt(g, c.view, i) == LogAt(g, c.disk, i)
    requires forall b :: 0 <= b < g.nblocks && b !in lh ==> c.view[b] == c.disk[b]
    ensures k <= |lh| ==> Recovers(g, AfterInstall(g, c, lh, k).disk, img)
    ensures k == |lh| + 1 ==>
      var r := AfterWriteHead(g, AfterInstall(g, c, lh, |lh|), []); Recovers(g, r.disk, img) && Quiet(g, r, [], img)
  {
    if k <= |lh| {
      InstallKeepsRecovers(g, c, lh, k, img);
    } else {
      InstallKeepsRecovers(g, c, lh, |lh|, img);
      var i := AfterInstall(g, c, lh, |lh|);
      ClearKeepsRecovers(g, i, img);
      InstallEffect(g, c, lh, |lh|);
      assert lh[..|lh|] == lh;
      forall b | 0 <= b < g.nblocks ensures i.view[b] == i.disk[b] {
        if b in lh { var j :| 0 <= j < |lh| && lh[j] == b; }
      }
    }
  }

  /** Crash atomicity of one commit: stopped after `k` writes, recovery yields the old image up to
      the header write (write number `|lh|`) and the whole group, as cached, from then on. */
  lemma CommitCrashAtomic(g: Geo, s: Store, lh: seq<nat>, img: Image, k: nat)
    requires g.Valid() && Quiet(g, s, lh, img) && |lh| > 0 && k <= CommitLen(|lh|)
    ensures Recovers(g, AfterCommit(g, s, lh, k).disk, if k <= |lh| then img else s.view)
    ensures k == CommitLen(|lh|) ==> Quiet(g, AfterCommit(g, s, lh, k), [], s.view)
  {
    hide Quiet, LogWritten, Recovers, AfterWriteLog, AfterInstall, PutHeader, GetHeader;
    if k <= |lh| {
      BeforeHeader(g, s, lh, img, k);
    } else {
      var w := AfterWriteLog(g, s, lh, |lh|);
      LogIsWritten(g, s, lh, img);
      HeaderRoundTrip(w.view[g.start], lh);
      AtHeader(g, s, lh, img, w, HeaderWritten(g, s, lh), PutHeader(w.view[g.start], lh));
      AfterHeader(g, HeaderWritten(g, s, lh), lh, s.view, k - |lh| - 1);
    }
  }

  /** A commit, wherever it stands, leaves every process the same home blocks to read. */
  lemma CommitKeepsView(g: Geo, s: Store, lh: seq<nat>, img: Image, k: nat)
    requires g.Valid() && Quiet(g, s, lh, img) && k <= CommitLen(|lh|)
    ensures SameHome(g, AfterCommit(g, s, lh, k).view, s.view)
  {
    if k <= |lh| {
      WriteLogEffect(g, s, lh, k);
    } else {
      WriteLogEffect(g, s, lh, |lh|);
      InstalledView(g, s, HeaderWritten(g, s, lh), lh, if k <= 2 * |lh| + 1 then k - |lh| - 1 else |lh|);
    }
  }

  lemma InstalledView(g: Geo, s: Store, c: Store, lh: seq<nat>, k: nat)
    requires g.Valid() && s.Sized(g) && c.Sized(g) && g.Loggable(lh) && k <= |lh| && SameHome(g, c.view, s.view)
    requires forall i :: 0 <= i < |lh| ==> LogAt(g, c.view, i) == s.view[lh[i]]
    ensures SameHome(g, AfterInstall(g, c, lh, k).view, s.view)
  {
    InstallEffect(g, c, lh, k);
    var r := AfterInstall(g, c, lh, k);
    forall b | g.Home(b) ensures r.view[b] == s.view[b] {
      if b in lh[..k] { var i :| 0 <= i < k && lh[i] == b; }
    }
  }

  lemma {:induction false} CommitDisksAt(g: Geo, s: Store, lh: seq<nat>, k: nat, i: nat)
    requires g.Valid() && s.Sized(g) && g.Loggable(lh) && i < k <= CommitLen(|lh|)
    ensures |CommitDisks(g, s, lh, k)| == k && CommitDisks(g, s, lh, k)[i] == AfterCommit(g, s, lh, i + 1).disk
  {
    if k > 1 { CommitDisksAt(g, s, lh, k - 1, if i < k - 1 then i else 0); }
  }

  /** Every disk commit() leaves behind on its way recovers to all of the group or none of it. */
  lemma EveryCommitDiskRecovers(g: Geo, s: Store, lh: seq<nat>, img: Image, i: nat)
    requires g.Valid() && Quiet(g, s, lh, img) && i < CommitLen(|lh|)
    ensures |CommitDisks(g, s, lh, CommitLen(|lh|))| == CommitLen(|lh|)
    ensures Recovers(g, CommitDisks(g, s, lh, CommitLen(|lh|))[i], if i < |lh| then img else s.view)
  {
    hide Quiet, Recovers, CommitDisks, AfterCommit;
    CommitDisksAt(g, s, lh, CommitLen(|lh|), i);
    CommitCrashAtomic(g, s, lh, img, i + 1);
  }

  lemma {:induction false} RecoveryDisksAt(g: Geo, s: Store, k: nat, i: nat)
    requires g.Valid() && s.Sized(g) && g.Loggable(GetHeader(s.view[g.start]))
    requires i < k <= |GetHeader(s.view[g.start])| + 1
    ensures |RecoveryDisks(g, s, k)| == k && RecoveryDisks(g, s, k)[i] == AfterRecovery(g, s, i + 1).disk
  {
    if k > 1 { RecoveryDisksAt(g, s, k - 1, if i < k - 1 then i else 0); }
  }

  /** Every disk recover_from_log() leaves behind on its way still recovers to the same image. */
  lemma EveryRecoveryDiskRecovers(g: Geo, disk: Image, img: Image, i: nat)
    requires g.Valid() && Recovers(g, disk, img) && i <= |GetHeader(disk[g.start])|
    ensures var ds := RecoveryDisks(g, Store(disk, disk), |GetHeader(disk[g.start])| + 1);
      i < |ds| && Recovers(g, ds[i], img)
  {
    RecoveryDisksAt(g, Store(disk, disk), |GetHeader(disk[g.start])| + 1, i);
    RecoveryCrashSafe(g, disk, img, i + 1);
  }
}
