/** The on-disk redo log: commit, recovery, and crashes between any two block writes.

    A disk is a sequence of blocks and a block is a sequence of words; the header block holds the
    number of logged blocks in word 0 and their home addresses in the words after it.  Every write
    of one block is atomic, and a class field records each disk state a crash could leave behind. */
module LogCrash {
  import opened Common

  const WORDS: nat := 128

  type Block = b: seq<int> | |b| == WORDS witness seq(WORDS, i => 0)
  type Disk = seq<Block>

  /** log.start and log.size: the header block is the first of `size` log blocks. */
  datatype Layout = Layout(start: nat, size: nat)

  predicate InLog(lay: Layout, b: int) {
    lay.start <= b < lay.start + lay.size
  }

  /** Home addresses a transaction may carry: distinct, on the disk, outside the log area,
      and few enough for the header and for the log area. */
  ghost predicate GoodList(lay: Layout, limit: nat, list: seq<int>) {
    && |list| <= LOGSIZE
    && |list| + 1 <= lay.size
    && lay.start + lay.size <= limit
    && (forall i :: 0 <= i < |list| ==> 0 <= list[i] < limit && !InLog(lay, list[i]))
    && (forall i, j :: 0 <= i < j < |list| ==> list[i] != list[j])
  }

  /** The header block's word count, when it makes sense, and the addresses it lists. */
  ghost predicate HeaderFits(lay: Layout, d: Disk) {
    && lay.start < |d|
    && 0 <= d[lay.start][0] <= LOGSIZE
  }

  ghost function Listed(lay: Layout, d: Disk): seq<int>
    requires HeaderFits(lay, d)
  {
    d[lay.start][1..1 + d[lay.start][0]]
  }

  ghost predicate GoodDisk(lay: Layout, d: Disk) {
    HeaderFits(lay, d) && GoodList(lay, |d|, Listed(lay, d))
  }

  /** What home block b holds once recovery has run to completion on disk d. */
  ghost function RecoverView(lay: Layout, d: Disk, b: int): Block
    requires GoodDisk(lay, d)
    requires 0 <= b < |d|
  {
    if i :| 0 <= i < |Listed(lay, d)| && Listed(lay, d)[i] == b then d[lay.start + 1 + i] else d[b]
  }

  /** Two disks on which recovery yields the same home blocks. */
  ghost predicate SameRecovery(lay: Layout, d: Disk, e: Disk) {
    && GoodDisk(lay, d) && GoodDisk(lay, e) && |d| == |e|
    && forall b :: 0 <= b < |d| && !InLog(lay, b) ==> RecoverView(lay, d, b) == RecoverView(lay, e, b)
  }

  /** Recovery on disk d yields exactly the home blocks of h. */
  ghost predicate RecoversTo(lay: Layout, d: Disk, h: Disk) {
    && GoodDisk(lay, d) && |d| == |h|
    && forall b :: 0 <= b < |d| && !InLog(lay, b) ==> RecoverView(lay, d, b) == h[b]
  }

  /** The disk after recovery has copied the first k logged blocks home. */
  ghost function Installed(lay: Layout, d: Disk, list: seq<int>, k: nat): Disk
    requires GoodList(lay, |d|, list) && k <= |list|
    ensures |Installed(lay, d, list, k)| == |d|
    ensures forall b :: 0 <= b < |d| && InLog(lay, b) ==> Installed(lay, d, list, k)[b] == d[b]
  {
    if k == 0 then d
    else Installed(lay, d, list, k - 1)[list[k - 1] := d[lay.start + k]]
  }

  lemma {:induction false} InstalledAt(lay: Layout, d: Disk, list: seq<int>, k: nat)
    requires GoodList(lay, |d|, list) && k <= |list|
    ensures forall i :: 0 <= i < k ==> Installed(lay, d, list, k)[list[i]] == d[lay.start + 1 + i]
    ensures forall b :: 0 <= b < |d| && (forall i :: 0 <= i < k ==> list[i] != b)
              ==> Installed(lay, d, list, k)[b] == d[b]
  {
    if k > 0 {
      InstalledAt(lay, d, list, k - 1);
    }
  }

  /** The header with its count cleared; the stale addresses stay where they are. */
  function Cleared(h: Block): Block {
    h[0 := 0]
  }

  /** What a completed recovery leaves on the disk. */
  ghost function Recovered(lay: Layout, d: Disk): Disk
    requires GoodDisk(lay, d)
  {
    Installed(lay, d, Listed(lay, d), |Listed(lay, d)|)[lay.start := Cleared(d[lay.start])]
  }

  /** Disk e may be found after a crash during recovery of disk d: some of the logged blocks have
      been copied home, and the header may have been cleared after all of them. */
  ghost predicate CrashedRecovery(lay: Layout, d: Disk, e: Disk)
    requires GoodDisk(lay, d)
  {
    || (exists k :: 0 <= k <= |Listed(lay, d)| && e == Installed(lay, d, Listed(lay, d), k))
    || e == Recovered(lay, d)
  }

  lemma ViewListed(lay: Layout, d: Disk, i: nat)
    requires GoodDisk(lay, d) && i < |Listed(lay, d)|
    ensures RecoverView(lay, d, Listed(lay, d)[i]) == d[lay.start + 1 + i]
  {
  }

  lemma InstallingSafe(lay: Layout, d: Disk, k: nat)
    requires GoodDisk(lay, d) && k <= |Listed(lay, d)|
    ensures SameRecovery(lay, d, Installed(lay, d, Listed(lay, d), k))
  {
    var list := Listed(lay, d);
    var e := Installed(lay, d, list, k);
    InstalledAt(lay, d, list, k);
    assert Listed(lay, e) == list;
    forall b | 0 <= b < |d| && !InLog(lay, b)
      ensures RecoverView(lay, d, b) == RecoverView(lay, e, b)
    {
      if i :| 0 <= i < |list| && list[i] == b {
        ViewListed(lay, d, i);
        ViewListed(lay, e, i);
      }
    }
  }

  /** A crashed recovery loses nothing: recovering again ends with the same home blocks. */
  lemma CrashedRecoverySafe(lay: Layout, d: Disk, e: Disk)
    requires GoodDisk(lay, d) && CrashedRecovery(lay, d, e)
    ensures SameRecovery(lay, d, e)
  {
    if e == Recovered(lay, d) {
      RecoveredHome(lay, d);
      NothingListed(lay, e);
    } else {
      var k :| 0 <= k <= |Listed(lay, d)| && e == Installed(lay, d, Listed(lay, d), k);
      InstallingSafe(lay, d, k);
    }
  }

  /** A history of reboots: each disk is what a crashed recovery of the one before left. */
  ghost predicate CrashChain(lay: Layout, ds: seq<Disk>) {
    && |ds| > 0
    && (forall k :: 0 <= k < |ds| ==> GoodDisk(lay, ds[k]))
    && forall k :: 0 < k < |ds| ==> CrashedRecovery(lay, ds[k - 1], ds[k])
  }

  lemma SameTrans(lay: Layout, c: Disk, d: Disk, e: Disk)
    requires SameRecovery(lay, c, d) && SameRecovery(lay, d, e)
    ensures SameRecovery(lay, c, e)
  {
    forall b | 0 <= b < |c| && !InLog(lay, b) ensures RecoverView(lay, c, b) == RecoverView(lay, e, b) {
      assert RecoverView(lay, c, b) == RecoverView(lay, d, b);
    }
  }

  lemma {:induction false} ChainSame(lay: Layout, ds: seq<Disk>, k: nat)
    requires CrashChain(lay, ds) && k < |ds|
    ensures SameRecovery(lay, ds[0], ds[k])
  {
    if k > 0 {
      ChainSame(lay, ds, k - 1);
      assert CrashedRecovery(lay, ds[k - 1], ds[k]);
      CrashedRecoverySafe(lay, ds[k - 1], ds[k]);
      SameTrans(lay, ds[0], ds[k - 1], ds[k]);
    }
  }

  /** However often recovery itself crashes, the recovery that completes installs the same home
      blocks and leaves an empty log. */
  lemma RecoveryAfterAnyCrashes(lay: Layout, ds: seq<Disk>)
    requires CrashChain(lay, ds)
    ensures RecoversTo(lay, ds[0], Recovered(lay, ds[|ds| - 1]))
    ensures GoodDisk(lay, Recovered(lay, ds[|ds| - 1]))
    ensures Listed(lay, Recovered(lay, ds[|ds| - 1])) == []
  {
    var last := ds[|ds| - 1];
    ChainSame(lay, ds, |ds| - 1);
    RecoveredHome(lay, last);
    forall b | 0 <= b < |last| && !InLog(lay, b)
      ensures RecoverView(lay, ds[0], b) == Recovered(lay, last)[b]
    {
      assert RecoverView(lay, ds[0], b) == RecoverView(lay, last, b);
    }
  }

  /** Completed recovery: home blocks as promised, log empty, and nothing left to recover. */
  lemma RecoveredHome(lay: Layout, d: Disk)
    requires GoodDisk(lay, d)
    ensures RecoversTo(lay, d, Recovered(lay, d))
    ensures GoodDisk(lay, Recovered(lay, d)) && Listed(lay, Recovered(lay, d)) == []
    ensures Recovered(lay, Recovered(lay, d)) == Recovered(lay, d)
  {
    var list := Listed(lay, d);
    var e := Recovered(lay, d);
    InstalledAt(lay, d, list, |list|);
    forall b | 0 <= b < |d| && !InLog(lay, b)
      ensures RecoverView(lay, d, b) == e[b]
    {
      if i :| 0 <= i < |list| && list[i] == b {
        ViewListed(lay, d, i);
      }
    }
    assert Listed(lay, e) == [];
    assert Installed(lay, e, [], 0) == e;
    assert Cleared(e[lay.start]) == e[lay.start];
  }

  /** The transaction's effect on the home blocks. */
  ghost function Committed(d: Disk, list: seq<int>, cache: map<int, Block>): Disk
    requires forall i :: 0 <= i < |list| ==> list[i] in cache
  {
    seq(|d|, b requires 0 <= b < |d| => if b in list then cache[b] else d[b])
  }

  /** An in-memory list agrees with the header block that stores it. */
  ghost predicate HeaderStores(h: Block, list: seq<int>) {
    && |list| <= LOGSIZE
    && h[0] == |list|
    && h[1..1 + |list|] == list
  }

  /** struct log of log.c together with the disk and the buffers it reads and writes.
      `block[..n]` is the in-memory header; `cache` holds the buffered contents of home blocks;
      `trace` collects every disk state since the object was made. */
  class Log {
    const lay: Layout
    var disk: Disk
    var cache: map<int, Block>
    var n: nat
    var block: seq<int>
    ghost var trace: seq<Disk>

    constructor (lay: Layout, disk: Disk)
      ensures this.lay == lay && this.disk == disk && this.cache == map[]
      ensures n == 0 && |block| == LOGSIZE && trace == []
    {
      this.lay := lay;
      this.disk := disk;
      cache := map[];
      n := 0;
      block := seq(LOGSIZE, i => 0);
      trace := [];
    }

    ghost predicate Valid()
      reads this
    {
      n <= LOGSIZE == |block| && GoodList(lay, |disk|, block[..n])
    }

    /** bwrite: one block reaches the disk atomically. */
    method Bwrite(b: nat, data: Block)
      requires b < |disk|
      modifies this`disk, this`trace
      ensures disk == old(disk)[b := data]
      ensures trace == old(trace) + [disk]
    {
      disk := disk[b := data];
      trace := trace + [disk];
    }

    /** Copy committed blocks from the log to their home location. */
    method InstallTrans()
      requires Valid()
      modifies this`disk, this`trace
      ensures disk == Installed(lay, old(disk), block[..n], n)
      ensures |trace| == |old(trace)| + n && trace[..|old(trace)|] == old(trace)
      ensures forall k :: |old(trace)| <= k < |trace|
                ==> trace[k] == Installed(lay, old(disk), block[..n], k - |old(trace)| + 1)
    {
      var tail := 0;
      while tail < n
        invariant 0 <= tail <= n
        invariant disk == Installed(lay, old(disk), block[..n], tail)
        invariant |trace| == |old(trace)| + tail && trace[..|old(trace)|] == old(trace)
        invariant forall k :: |old(trace)| <= k < |trace|
                    ==> trace[k] == Installed(lay, old(disk), block[..n], k - |old(trace)| + 1)
      {
        var lbuf := disk[lay.start + tail + 1];
        assert block[..n][tail] == block[tail];
        Bwrite(block[tail], lbuf);
        tail := tail + 1;
      }
    }

    /** Read the log header from disk into the in-memory log header. */
    method ReadHead()
      requires GoodDisk(lay, disk) && |block| == LOGSIZE
      modifies this`n, this`block
      ensures Valid() && block[..n] == Listed(lay, disk)
    {
      var lh := disk[lay.start];
      n := lh[0];
      var i := 0;
      while i < n
        invariant 0 <= i <= n == lh[0] <= LOGSIZE == |block|
        invariant block[..i] == lh[1..1 + i]
      {
        ghost var done := block[..i];
        block := block[i := lh[i + 1]];
        assert block[..i + 1] == done + [lh[i + 1]];
        assert lh[1..2 + i] == lh[1..1 + i] + [lh[i + 1]];
        i := i + 1;
      }
    }

    /** Write the in-memory header to disk: the point at which the transaction commits. */
    method WriteHead()
      requires Valid()
      modifies this`disk, this`trace
      ensures |disk| == |old(disk)|
      ensures disk == old(disk)[lay.start := disk[lay.start]]
      ensures HeaderStores(disk[lay.start], block[..n])
      ensures n == 0 ==> disk[lay.start] == Cleared(old(disk)[lay.start])
      ensures trace == old(trace) + [disk]
    {
      var hb := disk[lay.start];
      hb := hb[0 := n];
      var i := 0;
      while i < n
        invariant 0 <= i <= n
        invariant |hb| == WORDS && hb[0] == n
        invariant hb[1..1 + i] == block[..i]
        invariant n == 0 ==> hb == Cleared(disk[lay.start])
      {
        ghost var done := hb[1..1 + i];
        hb := hb[i + 1 := block[i]];
        assert hb[1..2 + i] == done + [block[i]];
        assert block[..i + 1] == block[..i] + [block[i]];
        i := i + 1;
      }
      Bwrite(lay.start, hb);
    }

    /** Copy modified blocks from the cache to the log. */
    method WriteLog()
      requires Valid()
      requires forall i :: 0 <= i < n ==> block[i] in cache
      modifies this`disk, this`trace
      ensures |disk| == |old(disk)|
      ensures forall i :: 0 <= i < n ==> disk[lay.start + 1 + i] == cache[block[i]]
      ensures forall b :: 0 <= b < |disk| && !(lay.start < b <= lay.start + n) ==> disk[b] == old(disk)[b]
      ensures |trace| == |old(trace)| + n && trace[..|old(trace)|] == old(trace)
      ensures forall k :: |old(trace)| <= k < |trace| ==> OnlyLogChanged(lay, old(disk), trace[k])
    {
      var tail := 0;
      while tail < n
        invariant 0 <= tail <= n
        invariant |disk| == |old(disk)|
        invariant forall i :: 0 <= i < tail ==> disk[lay.start + 1 + i] == cache[block[i]]
        invariant forall b :: 0 <= b < |disk| && !(lay.start < b <= lay.start + tail)
                    ==> disk[b] == old(disk)[b]
        invariant |trace| == |old(trace)| + tail && trace[..|old(trace)|] == old(trace)
        invariant forall k :: |old(trace)| <= k < |trace| ==> OnlyLogChanged(lay, old(disk), trace[k])
      {
        Bwrite(lay.start + tail + 1, cache[block[tail]]);
        tail := tail + 1;
      }
    }

    /** commit(): whichever block write the machine crashes after, recovery yields all of the
        transaction or none of it; the header write is the turning point. */
    method Commit()
      requires Valid()
      requires GoodDisk(lay, disk) && Listed(lay, disk) == []
      requires forall i :: 0 <= i < n ==> block[i] in cache
      modifies this
      ensures Valid() && n == 0
      ensures GoodDisk(lay, disk) && Listed(lay, disk) == []
      ensures cache == old(cache)
      ensures RecoversTo(lay, disk, Committed(old(disk), old(block[..n]), cache))
      ensures forall b :: 0 <= b < |disk| && !InLog(lay, b)
                ==> disk[b] == Committed(old(disk), old(block[..n]), cache)[b]
      ensures |trace| >= |old(trace)|
      ensures old(n) > 0 ==> |trace| == |old(trace)| + 2 * old(n) + 2
      ensures forall k :: |old(trace)| <= k < |old(trace)| + old(n)
                ==> RecoversTo(lay, trace[k], old(disk))
      ensures forall k :: |old(trace)| + old(n) <= k < |trace|
                ==> RecoversTo(lay, trace[k], Committed(old(disk), old(block[..n]), cache))
    {
      ghost var t0, before, list := |trace|, disk, block[..n];
      if n == 0 {
        NothingListed(lay, before);
      } else {
        LogTransaction();
        ghost var committed, logged := disk, trace;
        InstallAndClear();
        Completed(lay, committed, Committed(before, list, cache));
        CommitTrace(lay, before, committed, Committed(before, list, cache), t0, logged, trace);
        hide *;
      }
    }

    /** write_log() and then write_head(): the transaction is in the log and the header lists it. */
    method LogTransaction()
      requires Valid()
      requires GoodDisk(lay, disk) && Listed(lay, disk) == []
      requires forall i :: 0 <= i < n ==> block[i] in cache
      modifies this`disk, this`trace
      ensures GoodDisk(lay, disk) && Listed(lay, disk) == block[..n] && |disk| == |old(disk)|
      ensures RecoversTo(lay, disk, Committed(old(disk), block[..n], cache))
      ensures |trace| == |old(trace)| + n + 1 && trace[..|old(trace)|] == old(trace)
      ensures forall k :: |old(trace)| <= k < |old(trace)| + n ==> RecoversTo(lay, trace[k], old(disk))
      ensures trace[|old(trace)| + n] == disk
    {
      ghost var before, t0 := disk, |trace|;
      WriteLog();
      ghost var logged := trace;
      WriteHead();
      HeaderCommits(lay, before, disk, block[..n], cache);
      forall k | t0 <= k < t0 + n ensures RecoversTo(lay, trace[k], before) {
        assert trace[k] == logged[k];
        LogAreaIrrelevant(lay, before, logged[k]);
      }
    }

    /** The tail that commit() and recover_from_log() share: install the logged blocks, then
        erase the transaction from the log. */
    method InstallAndClear()
      requires Valid() && GoodDisk(lay, disk) && block[..n] == Listed(lay, disk)
      modifies this`disk, this`trace, this`n
      ensures Valid() && n == 0
      ensures disk == Recovered(lay, old(disk))
      ensures |trace| == |old(trace)| + old(n) + 1 && trace[..|old(trace)|] == old(trace)
      ensures forall k :: |old(trace)| <= k < |trace| ==> CrashedRecovery(lay, old(disk), trace[k])
    {
      ghost var before := disk;
      ghost var t0 := |trace|;
      InstallTrans();
      ghost var mid := trace;
      forall k | t0 <= k < |mid| ensures CrashedRecovery(lay, before, mid[k]) {
        assert mid[k] == Installed(lay, before, Listed(lay, before), k - t0 + 1);
      }
      n := 0;
      WriteHead();
      assert disk == Recovered(lay, before);
      assert forall k :: 0 <= k < |mid| ==> trace[k] == mid[k];
    }

    /** recover_from_log(): the recovered disk, and every disk a crash inside it could leave. */
    method Recover()
      requires GoodDisk(lay, disk) && |block| == LOGSIZE
      modifies this`disk, this`trace, this`n, this`block
      ensures Valid() && n == 0
      ensures disk == Recovered(lay, old(disk))
      ensures |trace| >= |old(trace)|
      ensures forall k :: |old(trace)| <= k < |trace| ==> CrashedRecovery(lay, old(disk), trace[k])
    {
      ReadHead();
      InstallAndClear();
    }

    /** log_write(): record the block number, absorbing a repeat, and keep the new contents
        buffered.  `outstanding` counts the operations in progress; `ok` is false where the source
        panics. */
    method LogWrite(b: nat, data: Block, outstanding: nat) returns (ok: bool)
      requires Valid() && b < |disk| && !InLog(lay, b)
      modifies this`n, this`block, this`cache
      ensures ok <==> old(n) < LOGSIZE && old(n) + 1 < lay.size && outstanding >= 1
      ensures !ok ==> n == old(n) && block == old(block) && cache == old(cache)
      ensures ok ==> Valid() && cache == old(cache)[b := data]
      ensures ok ==> block[..n] == Absorb(old(block[..n]), b)
    {
      if n >= LOGSIZE || n + 1 >= lay.size {
        return false;
      }
      if outstanding < 1 {
        return false;
      }
      var i := 0;
      while i < n && block[i] != b
        invariant 0 <= i <= n
        invariant b !in block[..i]
      {
        i := i + 1;
      }
      block := block[i := b];
      if i == n {
        n := n + 1;
        assert block[..n] == old(block[..n]) + [b];
        assert old(block[..n]) == old(block)[..i];
      } else {
        assert old(block[..n])[i] == b;
        assert block[..n] == old(block[..n]);
      }
      cache := cache[b := data];
      ok := true;
    }
  }

  /** d and e differ only inside the log area, past the header. */
  ghost predicate OnlyLogChanged(lay: Layout, d: Disk, e: Disk) {
    && |d| == |e|
    && forall b :: 0 <= b < |d| && !(lay.start < b < lay.start + lay.size) ==> d[b] == e[b]
  }

  lemma NothingListed(lay: Layout, d: Disk)
    requires GoodDisk(lay, d) && Listed(lay, d) == []
    ensures RecoversTo(lay, d, d)
  {
  }

  /** While the header lists nothing, what the log area holds does not matter. */
  lemma LogAreaIrrelevant(lay: Layout, d: Disk, e: Disk)
    requires GoodDisk(lay, d) && Listed(lay, d) == [] && OnlyLogChanged(lay, d, e)
    ensures RecoversTo(lay, e, d)
  {
    assert Listed(lay, e) == [];
  }

  /** The disks of a commit: before the header write they recover to the old contents, from it on
      to the new. */
  lemma CommitTrace(lay: Layout, before: Disk, committed: Disk, after: Disk, t0: nat, logged: seq<Disk>,
                    trace: seq<Disk>)
    requires RecoversTo(lay, committed, after)
    requires t0 < |logged| <= |trace| && trace[..|logged|] == logged && logged[|logged| - 1] == committed
    requires forall k :: t0 <= k < |logged| - 1 ==> RecoversTo(lay, logged[k], before)
    requires forall k :: |logged| <= k < |trace| ==> CrashedRecovery(lay, committed, trace[k])
    ensures forall k :: t0 <= k < |logged| - 1 ==> RecoversTo(lay, trace[k], before)
    ensures forall k :: |logged| - 1 <= k < |trace| ==> RecoversTo(lay, trace[k], after)
  {
    forall k | t0 <= k < |logged| - 1 ensures RecoversTo(lay, trace[k], before) {
      assert trace[k] == trace[..|logged|][k] == logged[k];
    }
    forall k | |logged| - 1 <= k < |trace| ensures RecoversTo(lay, trace[k], after) {
      if k == |logged| - 1 {
        assert trace[k] == trace[..|logged|][k] == committed;
      } else {
        CrashedRecoverySafe(lay, committed, trace[k]);
        RecoversOn(lay, committed, trace[k], after);
      }
    }
  }

  /** Recovery of a disk that recovers to h leaves h, with nothing listed. */
  lemma Completed(lay: Layout, d: Disk, h: Disk)
    requires RecoversTo(lay, d, h)
    ensures GoodDisk(lay, Recovered(lay, d)) && Listed(lay, Recovered(lay, d)) == []
    ensures RecoversTo(lay, Recovered(lay, d), h) && |Recovered(lay, d)| == |d|
    ensures forall b :: 0 <= b < |d| && !InLog(lay, b) ==> Recovered(lay, d)[b] == h[b]
  {
    RecoveredHome(lay, d);
    RecoversSame(lay, d, Recovered(lay, d), h);
    NothingListed(lay, Recovered(lay, d));
  }

  lemma RecoversOn(lay: Layout, d: Disk, e: Disk, h: Disk)
    requires RecoversTo(lay, d, h) && SameRecovery(lay, d, e)
    ensures RecoversTo(lay, e, h)
  {
    forall b | 0 <= b < |e| && !InLog(lay, b) ensures RecoverView(lay, e, b) == h[b] {
      assert RecoverView(lay, d, b) == RecoverView(lay, e, b);
    }
  }

  /** A disk that recovers to both g and h shows them equal outside the log area. */
  lemma RecoversSame(lay: Layout, d: Disk, g: Disk, h: Disk)
    requires RecoversTo(lay, d, g) && RecoversTo(lay, d, h)
    ensures forall b :: 0 <= b < |d| && !InLog(lay, b) ==> g[b] == h[b]
  {
    forall b | 0 <= b < |d| && !InLog(lay, b) ensures g[b] == h[b] {
      assert RecoverView(lay, d, b) == g[b];
    }
  }

  /** Writing the header turns the logged copies into the recovered contents. */
  lemma HeaderCommits(lay: Layout, before: Disk, d: Disk, list: seq<int>, cache: map<int, Block>)
    requires GoodList(lay, |before|, list) && |d| == |before|
    requires forall i :: 0 <= i < |list| ==> list[i] in cache
    requires HeaderStores(d[lay.start], list)
    requires forall i :: 0 <= i < |list| ==> d[lay.start + 1 + i] == cache[list[i]]
    requires forall b :: 0 <= b < |d| && !InLog(lay, b) ==> d[b] == before[b]
    ensures GoodDisk(lay, d) && Listed(lay, d) == list
    ensures RecoversTo(lay, d, Committed(before, list, cache))
  {
    assert Listed(lay, d) == list;
  }
}
