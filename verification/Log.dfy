/** log.c in its own form: the log over the buffer cache.  Every disk write appends to the
    cache's history, so a method's contract can say which disks a crash may expose. */
module LogFile {
  import opened Sets
  import opened Params
  import opened Options
  import opened LogDisk
  import opened BufferCache
  import opened LogCopy
  import opened Bio
  import LogOps

  /** The disks left by the first `k` writes of write_log, of install_trans and of commit. */
  function LogTrace(d: Disk, g: Geo, image: seq<Block>, k: nat): seq<Disk>
    requires Fits(d, g) && k <= |image| < g.size
    ensures |LogTrace(d, g, image, k)| == k
  {
    if k == 0 then [] else LogTrace(d, g, image, k - 1) + [LogTo(d, g, image, k)]
  }

  function InstallTrace(d: Disk, g: Geo, lh: seq<nat>, k: nat): seq<Disk>
    requires Fits(d, g) && Loggable(d, g, lh) && k <= |lh|
    ensures |InstallTrace(d, g, lh, k)| == k
  {
    if k == 0 then [] else InstallTrace(d, g, lh, k - 1) + [InstallTo(d, g, lh, k)]
  }

  function CommitTrace(d: Disk, g: Geo, lh: seq<nat>, image: seq<Block>, k: nat): seq<Disk>
    requires Fits(d, g) && Loggable(d, g, lh) && |image| == |lh| && k <= 2 * |lh| + 2
    ensures |CommitTrace(d, g, lh, image, k)| == k
  {
    if k == 0 then [] else CommitTrace(d, g, lh, image, k - 1) + [CommitDisk(d, g, lh, image, k)]
  }

  function RecoverTrace(d: Disk, g: Geo, k: nat): seq<Disk>
    requires WellLogged(d, g) && k <= |Head(d[g.start])| + 1
    ensures |RecoverTrace(d, g, k)| == k
  {
    if k == 0 then [] else RecoverTrace(d, g, k - 1) + [RecoverDisk(d, g, k)]
  }

  lemma {:induction false} LogPart(d: Disk, g: Geo, lh: seq<nat>, image: seq<Block>, k: nat)
    requires Fits(d, g) && Loggable(d, g, lh) && |image| == |lh| && k <= |lh|
    ensures CommitTrace(d, g, lh, image, k) == LogTrace(d, g, image, k)
    ensures CommitDisk(d, g, lh, image, k) == LogTo(d, g, image, k)
  {
    if k > 0 { LogPart(d, g, lh, image, k - 1); }
  }

  /** The disk once the header with the whole block list is down: the commit point. */
  function Sealed(d: Disk, g: Geo, lh: seq<nat>, image: seq<Block>): Disk
    requires Fits(d, g) && Loggable(d, g, lh) && |image| == |lh|
    ensures Fits(Sealed(d, g, lh, image), g) && Loggable(Sealed(d, g, lh, image), g, lh)
  {
    WriteHead(LogTo(d, g, image, |lh|), g, lh)
  }

  lemma {:induction false} InstallPart(d: Disk, g: Geo, lh: seq<nat>, image: seq<Block>, k: nat)
    requires Fits(d, g) && Loggable(d, g, lh) && |image| == |lh| && k <= |lh|
    ensures CommitTrace(d, g, lh, image, |lh| + 1 + k)
         == CommitTrace(d, g, lh, image, |lh| + 1) + InstallTrace(Sealed(d, g, lh, image), g, lh, k)
    ensures CommitDisk(d, g, lh, image, |lh| + 1 + k) == InstallTo(Sealed(d, g, lh, image), g, lh, k)
  {
    hide Loggable, LogTo;
    if k > 0 { InstallPart(d, g, lh, image, k - 1); }
  }

  lemma SealPart(d: Disk, g: Geo, lh: seq<nat>, image: seq<Block>)
    requires Fits(d, g) && Loggable(d, g, lh) && |image| == |lh|
    ensures CommitTrace(d, g, lh, image, |lh| + 1) == CommitTrace(d, g, lh, image, |lh|) + [Sealed(d, g, lh, image)]
    ensures CommitDisk(d, g, lh, image, |lh| + 1) == Sealed(d, g, lh, image)
  {
  }

  lemma LastPart(d: Disk, g: Geo, lh: seq<nat>, image: seq<Block>, e: Disk)
    requires Fits(d, g) && Loggable(d, g, lh) && |image| == |lh|
    requires e == WriteHead(InstallTo(Sealed(d, g, lh, image), g, lh, |lh|), g, [])
    ensures CommitTrace(d, g, lh, image, 2 * |lh| + 2) == CommitTrace(d, g, lh, image, 2 * |lh| + 1) + [e]
    ensures CommitDisk(d, g, lh, image, 2 * |lh| + 2) == e
  {
  }

  lemma {:induction false} RecoverPart(d: Disk, g: Geo, k: nat)
    requires WellLogged(d, g) && k <= |Head(d[g.start])|
    ensures RecoverTrace(d, g, k) == InstallTrace(d, g, Head(d[g.start]), k)
    ensures RecoverDisk(d, g, k) == InstallTo(d, g, Head(d[g.start]), k)
    ensures k == 0 ==> RecoverTrace(d, g, k) == [] && RecoverDisk(d, g, k) == d
  {
    if k > 0 { RecoverPart(d, g, k - 1); }
  }

  lemma RecoverLast(d: Disk, g: Geo, e: Disk)
    requires WellLogged(d, g)
    requires var lh := Head(d[g.start]); e == WriteHead(InstallTo(d, g, lh, |lh|), g, [])
    ensures var lh := Head(d[g.start]); RecoverTrace(d, g, |lh| + 1) == RecoverTrace(d, g, |lh|) + [e] && RecoverDisk(d, g, |lh| + 1) == e
  {
  }

  /** After a commit every home block reads as it did before, nothing it logged is pinned, and no
      buffer has been lost. */
  ghost predicate CommitEffect(c: Cache, d: Cache, g: Geo, lh: seq<nat>) {
    && |c.disk| == |d.disk|
    && (forall x: nat :: x < |c.disk| && !g.InLog(x) ==> Content(d, x) == Content(c, x))
    && (forall x: nat :: Dirty(d, x) <==> Dirty(c, x) && x !in lh)
    && IdleSet(c) <= IdleSet(d)
  }

  lemma CommitKeepsFiles(c: Cache, e: Cache, f: Cache, h: Cache, g: Geo, lh: seq<nat>)
    requires LogCopy.Ready(c, g, lh) && LogCopy.Ready(e, g, lh)
    requires SameFiles(c, e, g) && SameFiles(f, h, g)
    requires e.disk == Sealed(c.disk, g, lh, Image(c, lh))
    requires Installed(e, f, g, lh, |lh|)
    ensures CommitEffect(c, h, g, lh)
  {
    hide Inv, Content, Dirty, Unlocked;
    assert lh[..|lh|] == lh;
    forall t: nat | t < |lh| ensures Content(f, lh[t]) == Content(c, lh[t]) {
      LogToAt(c.disk, g, Image(c, lh), |lh|, g.start + 1 + t);
    }
  }

  lemma LoggableMore(d: Disk, g: Geo, lh: seq<nat>, b: nat)
    requires Loggable(d, g, lh) && b < |d| && !g.InLog(b) && |lh| < LOGSIZE && |lh| + 1 < g.size
    ensures Loggable(d, g, if b in lh then lh else lh + [b])
  {
  }

  class Log {
    const cache: Bcache
    const geo: Geo
    const block: array<nat>
    var n: nat
    var outstanding: nat
    var committing: bool
    ghost var ops: seq<set<nat>>

    /** initlog, before recovery. */
    constructor (cache: Bcache, geo: Geo)
      ensures this.cache == cache && this.geo == geo && n == 0 && outstanding == 0 && !committing && ops == []
      ensures block.Length == LOGSIZE && fresh(block)
    {
      this.cache, this.geo, n, outstanding, committing, ops := cache, geo, 0, 0, false, [];
      block := new nat[LOGSIZE];
    }

    ghost predicate Shape()
      reads this, block, cache, cache.bufs, cache.next, cache.prev, cache.disk
    {
      && cache.Valid() && block.Length == LOGSIZE && n <= LOGSIZE && block != cache.next && block != cache.prev
    }

    ghost function Lh(): seq<nat>
      requires n <= block.Length
      reads this, block
    {
      block[..n]
    }

    ghost predicate Ready()
      reads this, block, cache, cache.bufs, cache.next, cache.prev, cache.disk
    {
      Shape() && LogCopy.Ready(cache.Snap(), geo, Lh())
    }

    /** The reservation state of LogOps. */
    ghost function State(): LogOps.Log
      requires n <= block.Length
      reads this, block
    {
      LogOps.Log(Lh(), ops, committing)
    }

    /** Between operations of the file system: exactly the logged blocks are pinned. */
    ghost predicate Valid()
      reads this, block, cache, cache.bufs, cache.next, cache.prev, cache.disk
    {
      && Shape() && outstanding == |ops| && LogOps.Inv(State())
      && Fits(cache.disk[..], geo) && Head(cache.disk[geo.start]) == [] && Loggable(cache.disk[..], geo, Lh())
      && (forall x: nat :: Dirty(cache.Snap(), x) <==> x in Lh())
    }

    /** One turn of begin_op's loop: false means that it goes to sleep. */
    method BeginOp() returns (admitted: bool)
      requires Valid()
      modifies this`outstanding, this`ops
      ensures Valid() && admitted == LogOps.Admits(old(State()))
      ensures State() == if admitted then LogOps.Apply(old(State()), LogOps.Begin) else old(State())
    {
      hide Dirty, Loggable, Bcache.Valid, LogOps.Inv;
      if committing {
        admitted := false;
      } else if n + (outstanding + 1) * MAXOPBLOCKS > LOGSIZE {
        admitted := false;
      } else {
        LogOps.StepKeeps(State(), LogOps.Begin);
        outstanding := outstanding + 1;
        ops := ops + [{}];
        admitted := true;
      }
    }

    /** log_write's search: the place of block `b` in the list, or the first place after it. */
    method FindLogged(b: nat) returns (t: nat)
      requires n <= block.Length
      ensures t <= n && (t == n <==> b !in Lh()) && (t < n ==> block[t] == b)
    {
      t := 0;
      while t < n
        invariant 0 <= t <= n && b !in block[..t]
      {
        if block[t] == b {
          break;
        }
        t := t + 1;
      }
    }

    lemma Pinning(i: nat)
      requires cache.Valid() && i < cache.n && cache.bufs[i].locked && cache.bufs[i].valid && cache.bufs[i].tag >= 0
      ensures var c := cache.Snap();
              && i < |c.bufs| && Inv(Pin(c, i)) && SameContent(c, Pin(c, i)) && cache.bufs[i].tag < |c.disk|
              && (forall x: nat :: Dirty(Pin(c, i), x) <==> Dirty(c, x) || x == c.bufs[i].tag)
    {
      hide Dirty, Content, Inv, Bcache.Linked, Pin, SameContent;
      PinGood(cache.Snap(), i);
      TagOnDisk(cache.Snap(), i);
    }

    /** log_write of a locked home buffer by operation `j`; false is one of its two panics. */
    method LogWrite(i: nat, ghost j: nat) returns (ok: bool)
      requires Valid() && i < cache.n
      requires cache.bufs[i].locked && cache.bufs[i].valid && cache.bufs[i].tag >= 0 && !geo.InLog(cache.bufs[i].tag)
      requires outstanding > 0 ==> LogOps.Enabled(State(), LogOps.Write(j, cache.bufs[i].tag))
      modifies this`n, this`ops, block, cache.bufs
      ensures Valid() && SameContent(old(cache.Snap()), cache.Snap()) && cache.bufs[i].tag == old(cache.bufs[i].tag)
      ensures ok <==> !LogOps.TooBig(old(State()), geo.size) && outstanding > 0
      ensures !ok ==> State() == old(State()) && cache.Snap() == old(cache.Snap())
      ensures ok ==> State() == LogOps.Apply(old(State()), LogOps.Write(j, cache.bufs[i].tag))
      ensures ok ==> cache.Snap() == Pin(old(cache.Snap()), i)
    {
      hide Dirty, Content, Inv, LogOps.Inv, Bcache.Valid, Head, Loggable, Pin, Fits;
      if n >= LOGSIZE || n >= geo.size - 1 {
        return false;
      }
      if outstanding < 1 {
        return false;
      }
      ghost var c, l := cache.Snap(), State();
      Pinning(i);
      var b: nat := cache.bufs[i].tag;
      LogOps.StepKeeps(l, LogOps.Write(j, b));
      LoggableMore(cache.disk[..], geo, Lh(), b);
      var t := FindLogged(b);
      block[t] := b;
      if t == n {
        n := n + 1;
      }
      cache.SetDirty(i);
      ops := ops[j := ops[j] + {b}];
      assert Lh() == LogOps.Apply(l, LogOps.Write(j, b)).lh;
      return true;
    }

    /** One iteration of write_log (`up`) or install_trans: two reads, a copy, a write, two releases. */
    method Transfer(a: nat, b: nat, up: bool) returns (ok: bool)
      requires cache.Valid() && a < cache.disk.Length && b < cache.disk.Length && a != b
      requires Unlocked(cache.Snap(), a) && Unlocked(cache.Snap(), b)
      modifies cache, cache.bufs, cache.next, cache.prev, cache.disk
      ensures cache.Valid()
      ensures ok ==> Copied(old(cache.Snap()), cache.Snap(), if up then b else a, if up then a else b)
      ensures ok ==> cache.hist == old(cache.hist) + [cache.disk[..]]
      ensures !ok ==> cache.hist == old(cache.hist) && cache.disk[..] == old(cache.disk[..])
      ensures var c := old(cache.Snap()); |IdleSet(c)| >= 2 || (IdleSet(c) != {} && Dirty(c, b)) ==> ok
    {
      hide Inv, Ring, Chain, Content, SameContent, Copied, Bread, ReadBy, Unlocked, Pair, Bcache.Linked, Dirty, IdleSet;
      ghost var c := cache.Snap();
      if |IdleSet(c)| >= 2 || (IdleSet(c) != {} && Dirty(c, b)) { ReadTwice(c, a, b); }
      var x := cache.Bread(a);
      if x.None? {
        return false;
      }
      ReadPair(c, a, b);
      var y := cache.Bread(b);
      if y.None? {
        return false;
      }
      PairFacts(c, cache.Snap(), a, x.value, b, y.value);
      if up {
        CopyAcross(c, a, x.value, b, y.value, y.value, x.value);
      } else {
        CopyAcross(c, a, x.value, b, y.value, x.value, y.value);
      }
      return true;
    }

    /** With both buffers in hand: copy from buffer `s` to buffer `t`, write, release both. */
    method CopyAcross(ghost c: Cache, ghost a: nat, ghost i: nat, ghost b: nat, ghost j: nat, s: nat, t: nat)
      requires cache.Valid() && Pair(c, cache.Snap(), a, i, b, j) && a != b && ((s == i && t == j) || (s == j && t == i))
      modifies cache, cache.bufs, cache.next, cache.prev, cache.disk
      ensures cache.Valid()
      ensures old(cache.Snap().bufs[s].tag) >= 0 && old(cache.Snap().bufs[t].tag) >= 0
      ensures Copied(c, cache.Snap(), old(cache.Snap().bufs[s].tag), old(cache.Snap().bufs[t].tag))
      ensures cache.hist == old(cache.hist) + [cache.disk[..]]
    {
      hide Inv, Content, SameContent, Copied, Bcache.Linked, Pair;
      ghost var d := cache.Snap();
      PairFacts(c, d, a, i, b, j);
      TransferGood(c, d, a, i, b, j, s, t);
      cache.SetData(t, cache.bufs[s].data);
      cache.Bwrite(t);
      cache.Brelse(s);
      cache.Brelse(t);
    }

    /** write_log: the cached blocks go to the log, in order; `k` of them when buffers run out. */
    method WriteLog() returns (ok: bool, ghost k: nat)
      requires Ready()
      modifies cache, cache.bufs, cache.next, cache.prev, cache.disk
      ensures Shape() && k <= n && (ok ==> k == n)
      ensures cache.hist == old(cache.hist) + LogTrace(old(cache.disk[..]), geo, Image(old(cache.Snap()), Lh()), k)
      ensures cache.disk[..] == LogTo(old(cache.disk[..]), geo, Image(old(cache.Snap()), Lh()), k)
      ensures ok ==> Ready() && SameFiles(old(cache.Snap()), cache.Snap(), geo)
      ensures Room(old(cache.Snap()), Lh()) ==> ok
    {
      hide Inv, Bcache.Linked, Content, Dirty, Unlocked, Copied, IdleSet, Room, SameFiles, LogCopy.Ready, Loggable;
      ghost var c := cache.Snap();
      StartFree(c, geo, Lh());
      SameFilesSelf(c, geo);
      var tail := 0;
      while tail < n
        invariant 0 <= tail <= n && Ready() && SameFiles(c, cache.Snap(), geo)
        invariant cache.hist == old(cache.hist) + LogTrace(c.disk, geo, Image(c, Lh()), tail)
        invariant cache.disk[..] == LogTo(c.disk, geo, Image(c, Lh()), tail)
      {
        ghost var d := cache.Snap();
        assert Lh()[tail] == block[tail];
        ReadyBlocks(d, geo, Lh(), tail);
        ReadyRoom(c, d, geo, Lh(), tail);
        ok := Transfer(geo.start + tail + 1, block[tail], true);
        if !ok {
          return false, tail;
        }
        LogStep(c, d, cache.Snap(), geo, Lh(), tail);
        tail := tail + 1;
      }
      return true, tail;
    }

    /** install_trans: the logged blocks go home. */
    method InstallTrans() returns (ok: bool, ghost k: nat)
      requires Ready()
      modifies cache, cache.bufs, cache.next, cache.prev, cache.disk
      ensures Shape() && k <= n && (ok ==> k == n)
      ensures cache.hist == old(cache.hist) + InstallTrace(old(cache.disk[..]), geo, Lh(), k)
      ensures cache.disk[..] == InstallTo(old(cache.disk[..]), geo, Lh(), k)
      ensures ok ==> Ready() && Installed(old(cache.Snap()), cache.Snap(), geo, Lh(), k)
      ensures Room(old(cache.Snap()), Lh()) ==> ok
    {
      hide Inv, Bcache.Linked, Content, Dirty, Unlocked, Copied, Installed, IdleSet, Room, LogCopy.Ready, Loggable;
      ghost var c := cache.Snap();
      StartFree(c, geo, Lh());
      InstallNone(c, geo, Lh());
      var tail := 0;
      while tail < n
        invariant 0 <= tail <= n && Ready() && Installed(c, cache.Snap(), geo, Lh(), tail)
        invariant cache.hist == old(cache.hist) + InstallTrace(c.disk, geo, Lh(), tail)
        invariant cache.disk[..] == InstallTo(c.disk, geo, Lh(), tail)
      {
        ghost var d := cache.Snap();
        assert Lh()[tail] == block[tail];
        ReadyBlocks(d, geo, Lh(), tail);
        InstallRoom(c, d, geo, Lh(), tail);
        ok := Transfer(geo.start + tail + 1, block[tail], false);
        if !ok {
          return false, tail;
        }
        InstallStep(c, d, cache.Snap(), geo, Lh(), tail);
        InstalledDisk(c, cache.Snap(), geo, Lh(), tail + 1);
        tail := tail + 1;
      }
      return true, tail;
    }

    /** write_head: the header block gets the count and the block numbers. */
    method WriteHead() returns (ok: bool)
      requires Ready()
      modifies cache, cache.bufs, cache.next, cache.prev, cache.disk
      ensures Shape()
      ensures !ok ==> cache.hist == old(cache.hist) && cache.disk[..] == old(cache.disk[..])
      ensures ok ==> cache.disk[..] == LogDisk.WriteHead(old(cache.disk[..]), geo, Lh())
      ensures ok ==> cache.hist == old(cache.hist) + [cache.disk[..]]
      ensures ok ==> Ready() && SameFiles(old(cache.Snap()), cache.Snap(), geo)
      ensures IdleSet(old(cache.Snap())) != {} ==> ok
    {
      hide Inv, Bcache.Linked, Content, Dirty, Unlocked, SameContent, ReadBy, BufferCache.Bread, LogCopy.Ready, IdleSet;
      ghost var c := cache.Snap();
      StartFree(c, geo, Lh());
      var r := cache.Bread(geo.start);
      if r.None? {
        return false;
      }
      ghost var d := cache.Snap();
      HeadGood(c, geo, Lh(), PutHead(c.disk[geo.start], Lh()));
      var data := FillHead(cache.bufs[r.value].data);
      cache.SetData(r.value, data);
      cache.Bwrite(r.value);
      cache.Brelse(r.value);
      return true;
    }

    /** The loop of write_head over the words of the block. */
    method FillHead(b: Block) returns (data: Block)
      requires n <= block.Length == LOGSIZE
      ensures data == PutHead(b, Lh())
    {
      data := b[0 := n];
      var i := 0;
      while i < n
        invariant 0 <= i <= n && data == [n] + block[..i] + b[1 + i..]
      {
        data := data[1 + i := block[i]];
        i := i + 1;
      }
    }

    /** The first half of commit: log blocks, then the header. */
    method Seal() returns (ok: bool, ghost k: nat)
      requires Ready()
      modifies cache, cache.bufs, cache.next, cache.prev, cache.disk
      ensures Shape() && k <= n + 1
      ensures cache.hist == old(cache.hist) + CommitTrace(old(cache.disk[..]), geo, Lh(), Image(old(cache.Snap()), Lh()), k)
      ensures cache.disk[..] == CommitDisk(old(cache.disk[..]), geo, Lh(), Image(old(cache.Snap()), Lh()), k)
      ensures ok ==> k == n + 1 && Ready() && SameFiles(old(cache.Snap()), cache.Snap(), geo)
      ensures ok ==> cache.disk[..] == Sealed(old(cache.disk[..]), geo, Lh(), Image(old(cache.Snap()), Lh()))
      ensures Room(old(cache.Snap()), Lh()) ==> ok
    {
      hide Inv, Bcache.Linked, Content, Dirty, Unlocked, SameFiles, LogCopy.Ready, Loggable, IdleSet, Room;
      hide CommitTrace, LogTrace, InstallTrace, CommitDisk, LogTo;
      ghost var c, lh := cache.Snap(), Lh();
      StartFree(c, geo, lh);
      ghost var image := Image(c, lh);
      ok, k := WriteLog();
      LogPart(c.disk, geo, lh, image, k);
      if !ok { return; }
      ghost var d := cache.Snap();
      SameFilesRoom(c, d, geo, lh);
      ok := WriteHead();
      if !ok { return; }
      k := n + 1;
      SealPart(c.disk, geo, lh, image);
      SameFilesTrans(c, d, cache.Snap(), geo);
    }

    /** commit: every disk it passes through is one that LogDisk.CrashAtomic speaks of, in that
        order; when it gets to the end the files read as before and the log is empty. */
    method Commit() returns (ok: bool, ghost k: nat)
      requires Ready()
      modifies this`n, cache, cache.bufs, cache.next, cache.prev, cache.disk
      ensures Shape() && k <= 2 * old(n) + 2
      ensures cache.hist == old(cache.hist) + CommitTrace(old(cache.disk[..]), geo, old(Lh()), Image(old(cache.Snap()), old(Lh())), k)
      ensures cache.disk[..] == CommitDisk(old(cache.disk[..]), geo, old(Lh()), Image(old(cache.Snap()), old(Lh())), k)
      ensures ok ==> k == (if old(n) == 0 then 0 else 2 * old(n) + 2) && n == 0
      ensures ok ==> Ready() && CommitEffect(old(cache.Snap()), cache.Snap(), geo, old(Lh()))
      ensures old(n) == 0 || Room(old(cache.Snap()), old(Lh())) ==> ok
    {
      hide Inv, Bcache.Linked, Content, Dirty, Unlocked, Installed, SameFiles, LogCopy.Ready, Loggable, CommitEffect, IdleSet, Room;
      hide CommitTrace, LogTrace, InstallTrace, CommitDisk, LogTo, InstallTo, Sealed;
      ghost var c, lh := cache.Snap(), Lh();
      StartFree(c, geo, lh);
      if n == 0 {
        assert Image(c, lh) == [] && lh == [];
        NothingToCommit(c, geo);
        return true, 0;
      }
      ghost var image := Image(c, lh);
      ok, k := Seal();
      if !ok { return; }
      ghost var e := cache.Snap();
      SameFilesRoom(c, e, geo, lh);
      ghost var m;
      ok, m := InstallTrans();
      k := n + 1 + m;
      InstallPart(c.disk, geo, lh, image, m);
      if !ok { return; }
      ghost var f := cache.Snap();
      InstalledRoom(e, f, geo, lh);
      n := 0;
      NoneLogged(f, geo, lh);
      ok := WriteHead();
      if !ok { return; }
      k := 2 * old(n) + 2;
      LastPart(c.disk, geo, lh, image, cache.disk[..]);
      CommitKeepsFiles(c, e, f, cache.Snap(), geo, lh);
    }

    /** end_op of operation `j`: the last one out commits what all of them logged.  False is a
        panic: end_op during a commit, or no buffer left for the commit to read into.  With as many
        buffers as the log has blocks, a commit while nobody holds a buffer meets neither. */
    method EndOp(ghost j: nat) returns (ok: bool, ghost k: nat)
      requires Valid() && LogOps.Enabled(State(), LogOps.End(j))
      requires outstanding == 1 ==> forall x: nat :: geo.InLog(x) || x in Lh() ==> Unlocked(cache.Snap(), x)
      modifies this`n, this`outstanding, this`committing, this`ops, cache, cache.bufs, cache.next, cache.prev, cache.disk
      ensures k <= 2 * old(n) + 2
      ensures cache.hist == old(cache.hist) + CommitTrace(old(cache.disk[..]), geo, old(Lh()), Image(old(cache.Snap()), old(Lh())), k)
      ensures old(outstanding) > 1 ==> ok && Valid() && cache.Snap() == old(cache.Snap()) && k == 0
      ensures old(outstanding) > 1 ==> State() == LogOps.Apply(old(State()), LogOps.End(j))
      ensures old(outstanding) == 1 && ok ==>
                && LogOps.Enabled(LogOps.Apply(old(State()), LogOps.End(j)), LogOps.Committed)
                && n <= block.Length && State() == LogOps.Apply(LogOps.Apply(old(State()), LogOps.End(j)), LogOps.Committed)
      ensures old(outstanding) == 1 && ok ==> Valid() && CommitEffect(old(cache.Snap()), cache.Snap(), geo, old(Lh()))
      ensures old(outstanding) == 1 && ok ==> k == if old(n) == 0 then 0 else 2 * old(n) + 2
      ensures old(n) == 0 || IdleSet(old(cache.Snap())) != {} ==> ok
      ensures cache.n > old(n) + |HeldSet(old(cache.Snap()))| ==> ok
      ensures cache.n >= geo.size && HeldSet(old(cache.Snap())) == {} ==> ok
    {
      hide Dirty, Content, Inv, LogOps.Inv, Bcache.Linked, CommitTrace, Unlocked, CommitDisk, CommitEffect, Head, IdleSet, HeldSet;
      ghost var c, l := cache.Snap(), State();
      IdleLeft(c, Lh());
      NoWrites(c.disk, geo, Lh(), Image(c, Lh()));
      LogOps.StepKeeps(l, LogOps.End(j));
      NotCommitting(l, j);
      outstanding := outstanding - 1;
      ops := ops[..j] + ops[j + 1..];
      k := 0;
      if committing {
        return false, k;
      }
      if outstanding == 0 {
        committing := true;
        NobodyHolds(c, geo, Lh());
        ok, k := Commit();
        if !ok {
          return false, k;
        }
        committing := false;
        LogOps.StepKeeps(LogOps.Apply(l, LogOps.End(j)), LogOps.Committed);
        NonePinnedNow(c, cache.Snap(), geo, old(Lh()));
        CommitClears(c, geo, old(Lh()), k);
      } else {
        ok := true;
      }
    }

    /** read_head, of a disk whose header some commit or recovery wrote. */
    method ReadHead() returns (ok: bool)
      requires Shape() && Quiet(cache.Snap()) && WellLogged(cache.disk[..], geo)
      modifies this`n, block, cache, cache.bufs, cache.next, cache.prev
      ensures Shape() && cache.disk[..] == old(cache.disk[..]) && cache.hist == old(cache.hist)
      ensures ok ==> Lh() == Head(cache.disk[geo.start]) && Quiet(cache.Snap()) && IdleSet(old(cache.Snap())) <= IdleSet(cache.Snap())
      ensures IdleSet(old(cache.Snap())) != {} ==> ok
    {
      hide Inv, Bcache.Linked, Content, Dirty, SameContent, ReadBy, BufferCache.Bread, Chain, Ring, IdleSet;
      ghost var c := cache.Snap();
      var r := cache.Bread(geo.start);
      if r.None? {
        return false;
      }
      PeekGood(c, geo.start);
      var data := cache.bufs[r.value].data;
      n := data[0];
      CopyHead(data);
      cache.Brelse(r.value);
      return true;
    }

    method CopyHead(data: Block)
      requires block.Length == LOGSIZE && n == data[0] <= LOGSIZE
      modifies block
      ensures Lh() == Head(data)
    {
      var i := 0;
      while i < n
        invariant 0 <= i <= n && block[..i] == data[1..1 + i]
      {
        block[i] := data[1 + i];
        i := i + 1;
      }
    }

    /** recover_from_log: exactly the writes of LogDisk.RecoverDisk. */
    method RecoverFromLog() returns (ok: bool, ghost k: nat)
      requires Shape() && Quiet(cache.Snap()) && WellLogged(cache.disk[..], geo)
      modifies this`n, block, cache, cache.bufs, cache.next, cache.prev, cache.disk
      ensures Shape() && k <= |Head(old(cache.disk[geo.start]))| + 1
      ensures cache.hist == old(cache.hist) + RecoverTrace(old(cache.disk[..]), geo, k)
      ensures cache.disk[..] == RecoverDisk(old(cache.disk[..]), geo, k)
      ensures ok ==> n == 0 && cache.disk[..] == Recover(old(cache.disk[..]), geo)
      ensures ok && outstanding == 0 && ops == [] && !committing ==> Valid()
      ensures |IdleSet(old(cache.Snap()))| >= 2 ==> ok
    {
      hide Inv, Bcache.Linked, Content, Dirty, Unlocked, Installed, SameFiles, LogCopy.Ready, Loggable, Head, Quiet, IdleSet, Room;
      hide RecoverTrace, InstallTrace, RecoverDisk, InstallTo;
      ghost var d := cache.disk[..];
      RecoverPart(d, geo, 0);
      k := 0;
      ok := ReadHead();
      if !ok { return; }
      ghost var lh := Lh();
      ghost var c := cache.Snap();
      TwoIdle(old(cache.Snap()), c, lh);
      QuietReady(c, geo, lh);
      ok, k := InstallTrans();
      RecoverPart(d, geo, k);
      if !ok { return; }
      n := 0;
      ghost var f := cache.Snap();
      InstalledRoom(c, f, geo, lh);
      NoneLogged(f, geo, lh);
      ok := WriteHead();
      if !ok { return; }
      k := |lh| + 1;
      RecoverLast(d, geo, cache.disk[..]);
      RecoverHome(d, geo);
      NonePinned(c, f, cache.Snap(), geo, lh);
      StartFree(cache.Snap(), geo, Lh());
    }
  }

  lemma SameFilesSelf(c: Cache, g: Geo)
    ensures SameFiles(c, c, g)
  {
  }

  lemma ReadyBlocks(d: Cache, g: Geo, lh: seq<nat>, k: nat)
    requires LogCopy.Ready(d, g, lh) && k < |lh|
    ensures g.start + k + 1 < |d.disk| && lh[k] < |d.disk| && lh[k] != g.start + k + 1
    ensures Unlocked(d, g.start + k + 1) && Unlocked(d, lh[k])
  {
    hide Inv, Dirty, Unlocked;
    assert g.InLog(g.start + k + 1);
  }

  lemma ReadyRoom(c: Cache, d: Cache, g: Geo, lh: seq<nat>, k: nat)
    requires SameFiles(c, d, g) && k < |lh|
    ensures Room(c, lh) ==> |IdleSet(d)| >= 2 || (IdleSet(d) != {} && Dirty(d, lh[k]))
  {
    hide Content, Dirty, IdleSet;
    if Room(c, lh) { RoomLeft(c, d, lh, k); }
  }

  lemma SameFilesRoom(c: Cache, d: Cache, g: Geo, lh: seq<nat>)
    requires SameFiles(c, d, g)
    ensures Room(c, lh) ==> Room(d, lh) && IdleSet(d) != {}
  {
    hide Dirty;
    Subset(IdleSet(c), IdleSet(d));
  }

  lemma InstallRoom(c: Cache, d: Cache, g: Geo, lh: seq<nat>, k: nat)
    requires Fits(c.disk, g) && Loggable(c.disk, g, lh) && k < |lh| && Installed(c, d, g, lh, k)
    ensures Room(c, lh) ==> |IdleSet(d)| >= 2 || (IdleSet(d) != {} && Dirty(d, lh[k]))
  {
    hide Dirty, IdleSet, Content;
    if Room(c, lh) { RoomLeft(c, d, lh, k); }
  }

  lemma InstalledRoom(c: Cache, d: Cache, g: Geo, lh: seq<nat>)
    requires Fits(c.disk, g) && Loggable(c.disk, g, lh) && Installed(c, d, g, lh, |lh|)
    ensures Room(c, lh) ==> IdleSet(d) != {}
  {
    hide Dirty, Content;
  }

  lemma TwoIdle(c: Cache, d: Cache, lh: seq<nat>)
    requires IdleSet(c) <= IdleSet(d)
    ensures |IdleSet(c)| >= 2 ==> Room(d, lh) && IdleSet(c) != {}
  {
    Subset(IdleSet(c), IdleSet(d));
  }

  lemma SameFilesTrans(c: Cache, d: Cache, e: Cache, g: Geo)
    requires SameFiles(c, d, g) && SameFiles(d, e, g)
    ensures SameFiles(c, e, g)
  {
  }

  lemma TagOnDisk(c: Cache, i: nat)
    requires Inv(c) && i < |c.bufs|
    ensures c.bufs[i].tag < |c.disk|
  {
    assert BufOk(c, i);
  }

  lemma NonePinned(c: Cache, f: Cache, h: Cache, g: Geo, lh: seq<nat>)
    requires Quiet(c) && Fits(c.disk, g) && Loggable(c.disk, g, lh) && Installed(c, f, g, lh, |lh|) && SameFiles(f, h, g)
    ensures forall x: nat :: !Dirty(h, x)
  {
    assert forall x: nat :: !Dirty(c, x);
    hide Dirty;
    assert forall x: nat :: !Dirty(f, x);
  }

  lemma CommitClears(c: Cache, g: Geo, lh: seq<nat>, k: nat)
    requires Fits(c.disk, g) && Loggable(c.disk, g, lh) && Head(c.disk[g.start]) == []
    requires k == if lh == [] then 0 else 2 * |lh| + 2
    ensures var d := CommitDisk(c.disk, g, lh, Image(c, lh), k); |d| == |c.disk| && Head(d[g.start]) == []
  {
    hide CommitDisk, Head, Overlay, Recover;
    if lh == [] {
      NothingToCommit(c, g);
      assert Image(c, lh) == [];
    } else {
      CrashAtomic(c.disk, g, lh, Image(c, lh), k);
    }
  }

  lemma NonePinnedNow(c: Cache, d: Cache, g: Geo, lh: seq<nat>)
    requires CommitEffect(c, d, g, lh) && forall x: nat :: Dirty(c, x) <==> x in lh
    ensures forall x: nat :: !Dirty(d, x)
  {
    hide Dirty;
  }

  lemma NoWrites(d: Disk, g: Geo, lh: seq<nat>, image: seq<Block>)
    requires Fits(d, g) && Loggable(d, g, lh) && |image| == |lh|
    ensures CommitTrace(d, g, lh, image, 0) == []
  {
  }

  lemma NotCommitting(l: LogOps.Log, j: nat)
    requires LogOps.Inv(l) && j < |l.ops|
    ensures !l.committing
  {
  }

  lemma NobodyHolds(c: Cache, g: Geo, lh: seq<nat>)
    requires Inv(c) && Fits(c.disk, g) && Loggable(c.disk, g, lh)
    requires forall x: nat :: Dirty(c, x) <==> x in lh
    requires forall x: nat :: g.InLog(x) || x in lh ==> Unlocked(c, x)
    ensures LogCopy.Ready(c, g, lh)
  {
    hide Inv, Dirty, Unlocked;
  }

  /** Every disk of a commit, whole or cut short, recovers to none or to all of the transaction,
      and which it is depends only on whether the header write was among the writes. */
  lemma {:induction false} TraceAtomic(d: Disk, g: Geo, lh: seq<nat>, image: seq<Block>, k: nat, i: nat)
    requires Fits(d, g) && Head(d[g.start]) == [] && Loggable(d, g, lh) && |image| == |lh|
    requires i < k <= 2 * |lh| + 2
    ensures var e := CommitTrace(d, g, lh, image, k)[i];
            WellLogged(e, g) && SameHome(Recover(e, g), if i < |lh| then d else Overlay(d, lh, image), g)
  {
    hide CommitDisk, Recover, Overlay, Loggable;
    if i == k - 1 {
      CrashAtomic(d, g, lh, image, k);
    } else {
      TraceAtomic(d, g, lh, image, k - 1, i);
    }
  }

  lemma StartFree(c: Cache, g: Geo, lh: seq<nat>)
    requires LogCopy.Ready(c, g, lh)
    ensures Unlocked(c, g.start) && Fits(c.disk, g) && Loggable(c.disk, g, lh)
    ensures forall t :: 0 <= t < |lh| ==> lh[t] < |c.disk|
  {
    assert g.InLog(g.start);
  }

  lemma NothingToCommit(c: Cache, g: Geo)
    requires Fits(c.disk, g)
    ensures Loggable(c.disk, g, []) && CommitEffect(c, c, g, [])
    ensures CommitTrace(c.disk, g, [], [], 0) == [] && CommitDisk(c.disk, g, [], [], 0) == c.disk
  {
  }

  lemma NoneLogged(c: Cache, g: Geo, lh: seq<nat>)
    requires LogCopy.Ready(c, g, lh)
    ensures LogCopy.Ready(c, g, [])
  {
  }

  lemma InstallNone(c: Cache, g: Geo, lh: seq<nat>)
    requires Fits(c.disk, g) && Loggable(c.disk, g, lh)
    ensures Installed(c, c, g, lh, 0)
  {
  }

  lemma InstalledDisk(c: Cache, d: Cache, g: Geo, lh: seq<nat>, k: nat)
    requires Fits(c.disk, g) && Loggable(c.disk, g, lh) && k <= |lh| && Installed(c, d, g, lh, k)
    ensures d.disk == InstallTo(c.disk, g, lh, k)
  {
  }

  lemma PairFacts(c: Cache, d: Cache, a: nat, i: nat, b: nat, j: nat)
    requires Pair(c, d, a, i, b, j)
    ensures i != j && i < |c.bufs| && j < |c.bufs| && |d.bufs| == |c.bufs|
    ensures forall k :: k in {i, j} ==> d.bufs[k].locked && d.bufs[k].valid && d.bufs[k].tag == (if k == i then a else b)
    ensures forall k :: k in {i, j} ==> 0 <= Tag(d, k) < |d.disk| && (!d.bufs[k].dirty ==> d.bufs[k].data == d.disk[d.bufs[k].tag])
  {
  }
}
