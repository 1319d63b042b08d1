/** The on-disk redo log of log.c: what a sequence of atomic block writes leaves behind, and
    what recovery makes of it.  A block is a sequence of words. */
module LogDisk {
  import opened Params

  const NWORDS: nat := 128

  type Block = b: seq<nat> | |b| == NWORDS witness seq(NWORDS, _ => 0)
  type Disk = seq<Block>

  /** Where the log lies: a header block at `start`, then `size - 1` data blocks. */
  datatype Geo = Geo(start: nat, size: nat) {
    predicate InLog(b: nat) {
      start <= b < start + size
    }
  }

  /** The logged block numbers recorded in a header block. */
  function Head(b: Block): seq<nat> {
    b[1..1 + Min(b[0], NWORDS - 1)]
  }

  /** write_head: the count and the first entries are overwritten, the rest of the block is not. */
  function PutHead(b: Block, lh: seq<nat>): Block
    requires |lh| < NWORDS
  {
    [|lh|] + lh + b[1 + |lh|..]
  }

  lemma HeadRoundTrip(b: Block, lh: seq<nat>)
    requires |lh| < NWORDS
    ensures Head(PutHead(b, lh)) == lh
  {
  }

  predicate Fits(d: Disk, g: Geo) {
    0 < g.size && g.start + g.size <= |d|
  }

  /** A transaction's block list: it fits the log, and names each home block once. */
  ghost predicate Loggable(d: Disk, g: Geo, lh: seq<nat>) {
    && |lh| <= LOGSIZE && |lh| < g.size
    && (forall i :: 0 <= i < |lh| ==> lh[i] < |d| && !g.InLog(lh[i]))
    && (forall i, j :: 0 <= i < j < |lh| ==> lh[i] != lh[j])
  }

  /** The header on disk, whether empty or not, describes a proper transaction. */
  ghost predicate WellLogged(d: Disk, g: Geo) {
    Fits(d, g) && Loggable(d, g, Head(d[g.start]))
  }

  // ------------------------------------------------------------ the writes, one at a time

  /** write_log: after `k` of its writes. */
  function LogTo(d: Disk, g: Geo, image: seq<Block>, k: nat): Disk
    requires Fits(d, g) && k <= |image| < g.size
    ensures |LogTo(d, g, image, k)| == |d|
  {
    if k == 0 then d else LogTo(d, g, image, k - 1)[g.start + k := image[k - 1]]
  }

  /** install_trans: after `k` of its writes. */
  function InstallTo(d: Disk, g: Geo, lh: seq<nat>, k: nat): Disk
    requires Fits(d, g) && Loggable(d, g, lh) && k <= |lh|
    ensures |InstallTo(d, g, lh, k)| == |d|
  {
    if k == 0 then d
    else var e := InstallTo(d, g, lh, k - 1); e[lh[k - 1] := e[g.start + k]]
  }

  function WriteHead(d: Disk, g: Geo, lh: seq<nat>): Disk
    requires Fits(d, g) && |lh| < NWORDS
  {
    d[g.start := PutHead(d[g.start], lh)]
  }

  /** The disk after the first `i` writes of commit. */
  function CommitDisk(d: Disk, g: Geo, lh: seq<nat>, image: seq<Block>, i: nat): Disk
    requires Fits(d, g) && Loggable(d, g, lh) && |image| == |lh| && i <= 2 * |lh| + 2
  {
    var n := |lh|;
    if i <= n then LogTo(d, g, image, i)
    else
      var c := WriteHead(LogTo(d, g, image, n), g, lh);
      if i <= 2 * n + 1 then InstallTo(c, g, lh, i - n - 1)
      else WriteHead(InstallTo(c, g, lh, n), g, [])
  }

  /** The disk after the first `j` writes of recover_from_log. */
  function RecoverDisk(d: Disk, g: Geo, j: nat): Disk
    requires WellLogged(d, g) && j <= |Head(d[g.start])| + 1
  {
    var lh := Head(d[g.start]);
    if j <= |lh| then InstallTo(d, g, lh, j) else WriteHead(InstallTo(d, g, lh, |lh|), g, [])
  }

  function Recover(d: Disk, g: Geo): Disk
    requires WellLogged(d, g)
  {
    RecoverDisk(d, g, |Head(d[g.start])| + 1)
  }

  // ------------------------------------------------------------ what they mean

  /** The same outside the log. */
  ghost predicate SameHome(d: Disk, e: Disk, g: Geo) {
    |d| == |e| && forall b: nat :: b < |d| && !g.InLog(b) ==> d[b] == e[b]
  }

  /** All of a transaction's blocks written to their homes. */
  function Overlay(d: Disk, lh: seq<nat>, image: seq<Block>): Disk
    requires |lh| == |image| && forall i :: 0 <= i < |lh| ==> lh[i] < |d|
    ensures |Overlay(d, lh, image)| == |d|
    decreases |lh|
  {
    if lh == [] then d
    else
      var n := |lh| - 1;
      Overlay(d, lh[..n], image[..n])[lh[n] := image[n]]
  }

  lemma {:induction false} LogToAt(d: Disk, g: Geo, image: seq<Block>, k: nat, b: nat)
    requires Fits(d, g) && k <= |image| < g.size && b < |d|
    ensures LogTo(d, g, image, k)[b] == if g.start < b <= g.start + k then image[b - g.start - 1] else d[b]
  {
    if k > 0 { LogToAt(d, g, image, k - 1, b); }
  }

  /** Installing reads the log area and never writes it. */
  lemma {:induction false} InstallKeepsLog(d: Disk, g: Geo, lh: seq<nat>, k: nat, b: nat)
    requires Fits(d, g) && Loggable(d, g, lh) && k <= |lh| && g.InLog(b)
    ensures InstallTo(d, g, lh, k)[b] == d[b]
  {
    if k > 0 { InstallKeepsLog(d, g, lh, k - 1, b); }
  }

  lemma {:induction false} InstallAt(d: Disk, g: Geo, lh: seq<nat>, k: nat, t: nat)
    requires Fits(d, g) && Loggable(d, g, lh) && k <= |lh| && t < |lh|
    ensures InstallTo(d, g, lh, k)[lh[t]] == if t < k then d[g.start + 1 + t] else d[lh[t]]
  {
    if k > 0 {
      InstallAt(d, g, lh, k - 1, t);
      InstallKeepsLog(d, g, lh, k - 1, g.start + k);
    }
  }

  lemma {:induction false} InstallElsewhere(d: Disk, g: Geo, lh: seq<nat>, k: nat, b: nat)
    requires Fits(d, g) && Loggable(d, g, lh) && k <= |lh| && b < |d| && b !in lh
    ensures InstallTo(d, g, lh, k)[b] == d[b]
  {
    if k > 0 { InstallElsewhere(d, g, lh, k - 1, b); }
  }

  lemma {:induction false} OverlayAt(d: Disk, lh: seq<nat>, image: seq<Block>, t: nat)
    requires |lh| == |image| && t < |lh|
    requires forall i :: 0 <= i < |lh| ==> lh[i] < |d|
    requires forall i, j :: 0 <= i < j < |lh| ==> lh[i] != lh[j]
    ensures Overlay(d, lh, image)[lh[t]] == image[t]
    decreases |lh|
  {
    var n := |lh| - 1;
    if t < n {
      OverlayAt(d, lh[..n], image[..n], t);
      assert lh[..n][t] == lh[t] && image[..n][t] == image[t];
    }
  }

  lemma {:induction false} OverlayElsewhere(d: Disk, lh: seq<nat>, image: seq<Block>, b: nat)
    requires |lh| == |image| && b < |d| && b !in lh
    requires forall i :: 0 <= i < |lh| ==> lh[i] < |d|
    ensures Overlay(d, lh, image)[b] == d[b]
    decreases |lh|
  {
    if lh != [] { OverlayElsewhere(d, lh[..|lh| - 1], image[..|lh| - 1], b); }
  }

  /** The data blocks of the log. */
  function LogData(d: Disk, g: Geo, n: nat): seq<Block>
    requires Fits(d, g) && n < g.size
  {
    d[g.start + 1..g.start + 1 + n]
  }

  /** A partial or complete install is, outside the log, between the old home and the new. */
  lemma InstalledHome(d: Disk, g: Geo, lh: seq<nat>)
    requires Fits(d, g) && Loggable(d, g, lh)
    ensures SameHome(InstallTo(d, g, lh, |lh|), Overlay(d, lh, LogData(d, g, |lh|)), g)
  {
    var n := |lh|;
    forall b: nat | b < |d| && !g.InLog(b)
      ensures InstallTo(d, g, lh, n)[b] == Overlay(d, lh, LogData(d, g, n))[b]
    {
      if b in lh {
        var t :| 0 <= t < n && lh[t] == b;
        InstallAt(d, g, lh, n, t);
        OverlayAt(d, lh, LogData(d, g, n), t);
      } else {
        InstallElsewhere(d, g, lh, n, b);
        OverlayElsewhere(d, lh, LogData(d, g, n), b);
      }
    }
  }

  /** Recovery replays the transaction that the header describes. */
  lemma RecoverHome(d: Disk, g: Geo)
    requires WellLogged(d, g)
    ensures var lh := Head(d[g.start]); SameHome(Recover(d, g), Overlay(d, lh, LogData(d, g, |lh|)), g)
    ensures |Recover(d, g)| == |d| && Head(Recover(d, g)[g.start]) == []
  {
    hide InstallTo, Overlay;
    var lh := Head(d[g.start]);
    InstalledHome(d, g, lh);
    HeadRoundTrip(InstallTo(d, g, lh, |lh|)[g.start], []);
  }

  /** Replaying a transaction again, over its own partial replay, gives the same homes. */
  lemma ReplayTwice(d: Disk, e: Disk, g: Geo, lh: seq<nat>, image: seq<Block>)
    requires Fits(d, g) && Loggable(d, g, lh) && |image| == |lh| && |e| == |d|
    requires forall b: nat :: b < |d| && !g.InLog(b) && b !in lh ==> e[b] == d[b]
    ensures SameHome(Overlay(e, lh, image), Overlay(d, lh, image), g)
  {
    forall b: nat | b < |d| && !g.InLog(b) ensures Overlay(e, lh, image)[b] == Overlay(d, lh, image)[b] {
      if b in lh {
        var t :| 0 <= t < |lh| && lh[t] == b;
        OverlayAt(d, lh, image, t);
        OverlayAt(e, lh, image, t);
      } else {
        OverlayElsewhere(d, lh, image, b);
        OverlayElsewhere(e, lh, image, b);
      }
    }
  }

  lemma SameHomeTrans(d: Disk, e: Disk, f: Disk, g: Geo)
    requires SameHome(d, e, g) && SameHome(e, f, g)
    ensures SameHome(d, f, g)
  {
  }

  /** A crashed recovery, at any point, leaves a disk that recovers to the same homes. */
  lemma RecoveryRestarts(d: Disk, g: Geo, j: nat)
    requires WellLogged(d, g) && j <= |Head(d[g.start])| + 1
    ensures |RecoverDisk(d, g, j)| == |d| && WellLogged(RecoverDisk(d, g, j), g)
    ensures SameHome(Recover(RecoverDisk(d, g, j), g), Recover(d, g), g)
  {
    hide Head, Overlay;
    var lh := Head(d[g.start]);
    var e := RecoverDisk(d, g, j);
    var n := |lh|;
    RecoverHome(d, g);
    if j <= n {
      PartialInstall(d, g, lh, j);
      RecoverHome(e, g);
      ReplayTwice(d, e, g, lh, LogData(d, g, n));
      SameHomeTrans(Recover(e, g), Overlay(d, lh, LogData(d, g, n)), Recover(d, g), g);
    } else {
      RecoverEmpty(e, g);
    }
  }

  lemma PartialInstall(d: Disk, g: Geo, lh: seq<nat>, j: nat)
    requires Fits(d, g) && Loggable(d, g, lh) && j <= |lh|
    ensures var e := InstallTo(d, g, lh, j);
            && e[g.start] == d[g.start] && LogData(e, g, |lh|) == LogData(d, g, |lh|)
            && (forall b: nat :: b < |d| && !g.InLog(b) && b !in lh ==> e[b] == d[b])
  {
    var e := InstallTo(d, g, lh, j);
    forall b: nat | g.InLog(b) ensures e[b] == d[b] { InstallKeepsLog(d, g, lh, j, b); }
    forall b: nat | b < |d| && b !in lh ensures e[b] == d[b] { InstallElsewhere(d, g, lh, j, b); }
  }

  /** Recovery of an empty log changes no home block. */
  lemma RecoverEmpty(d: Disk, g: Geo)
    requires Fits(d, g) && Head(d[g.start]) == []
    ensures WellLogged(d, g) && SameHome(Recover(d, g), d, g)
  {
  }

  /** Before the header write the old homes come back, from it on the new ones: whatever write
      the crash follows, recovery finds all of the transaction or none of it. */
  lemma CrashAtomic(d: Disk, g: Geo, lh: seq<nat>, image: seq<Block>, i: nat)
    requires Fits(d, g) && Head(d[g.start]) == []
    requires Loggable(d, g, lh) && |image| == |lh| && i <= 2 * |lh| + 2
    ensures var e := CommitDisk(d, g, lh, image, i);
            && |e| == |d| && WellLogged(e, g)
            && SameHome(Recover(e, g), if i <= |lh| then d else Overlay(d, lh, image), g)
            && (i == 2 * |lh| + 2 ==> Head(e[g.start]) == [] && SameHome(e, Overlay(d, lh, image), g))
  {
    hide Head, Overlay, LogTo, InstallTo, PutHead, Recover;
    var n := |lh|;
    if i <= n {
      LogOnly(d, g, image, i);
      var e := LogTo(d, g, image, i);
      RecoverEmpty(e, g);
      SameHomeTrans(Recover(e, g), e, d, g);
    } else {
      Committed(d, g, lh, image);
      var c := WriteHead(LogTo(d, g, image, n), g, lh);
      if i <= 2 * n + 1 {
        RecoveryRestarts(c, g, i - n - 1);
        var e := InstallTo(c, g, lh, i - n - 1);
        assert e == RecoverDisk(c, g, i - n - 1);
        SameHomeTrans(Recover(e, g), Recover(c, g), Overlay(d, lh, image), g);
      } else {
        RecoverHome(c, g);
        var e := Recover(c, g);
        RecoverIs(c, g, lh);
        RecoverEmpty(e, g);
        SameHomeTrans(Recover(e, g), e, Overlay(d, lh, image), g);
      }
    }
  }

  lemma RecoverIs(c: Disk, g: Geo, lh: seq<nat>)
    requires WellLogged(c, g) && Head(c[g.start]) == lh
    ensures Recover(c, g) == WriteHead(InstallTo(c, g, lh, |lh|), g, [])
  {
  }

  lemma LogOnly(d: Disk, g: Geo, image: seq<Block>, k: nat)
    requires Fits(d, g) && k <= |image| < g.size
    ensures var e := LogTo(d, g, image, k); e[g.start] == d[g.start] && SameHome(e, d, g)
    ensures k == |image| ==> LogData(LogTo(d, g, image, k), g, k) == image
  {
    forall b: nat | b < |d|
      ensures LogTo(d, g, image, k)[b] == if g.start < b <= g.start + k then image[b - g.start - 1] else d[b]
    {
      LogToAt(d, g, image, k, b);
    }
  }

  /** The state right after the header write. */
  lemma Committed(d: Disk, g: Geo, lh: seq<nat>, image: seq<Block>)
    requires Fits(d, g) && Loggable(d, g, lh) && |image| == |lh|
    ensures var c := WriteHead(LogTo(d, g, image, |lh|), g, lh);
            && |c| == |d| && Head(c[g.start]) == lh && WellLogged(c, g)
            && SameHome(Recover(c, g), Overlay(d, lh, image), g)
  {
    hide Head, Overlay, PutHead;
    var l := LogTo(d, g, image, |lh|);
    var c := WriteHead(l, g, lh);
    LogOnly(d, g, image, |lh|);
    HeadRoundTrip(l[g.start], lh);
    assert LogData(c, g, |lh|) == image;
    RecoverHome(c, g);
    ReplayTwice(d, c, g, lh, image);
    SameHomeTrans(Recover(c, g), Overlay(c, lh, image), Overlay(d, lh, image), g);
  }

  // ------------------------------------------------------------ whole histories

  function Min(a: nat, b: nat): nat {
    if a <= b then a else b
  }

  /** Recoveries that crash, one after the other, each after so many of its writes. */
  function Retry(d: Disk, g: Geo, crashes: seq<nat>): Disk
    requires WellLogged(d, g)
    ensures WellLogged(Retry(d, g, crashes), g)
    decreases |crashes|
  {
    if crashes == [] then d
    else
      var e := Retry(d, g, crashes[..|crashes| - 1]);
      var j := Min(crashes[|crashes| - 1], |Head(e[g.start])| + 1);
      RecoveryRestarts(e, g, j);
      RecoverDisk(e, g, j)
  }

  /** However many recoveries crash, and wherever, the next one to finish gives the same homes. */
  lemma {:induction false} AnyNumberOfCrashes(d: Disk, g: Geo, crashes: seq<nat>)
    requires WellLogged(d, g)
    ensures SameHome(Recover(Retry(d, g, crashes), g), Recover(d, g), g)
    decreases |crashes|
  {
    hide Head, Recover, RecoverDisk;
    if crashes == [] {
    } else {
      AnyNumberOfCrashes(d, g, crashes[..|crashes| - 1]);
      var e := Retry(d, g, crashes[..|crashes| - 1]);
      RecoveryRestarts(e, g, Min(crashes[|crashes| - 1], |Head(e[g.start])| + 1));
      SameHomeTrans(Recover(Retry(d, g, crashes), g), Recover(e, g), Recover(d, g), g);
    }
  }

  /** A transaction that runs to its end, or crashes after `at` writes and is then recovered,
      after some recoveries that crash as well. */
  datatype Event =
    | Commit(lh: seq<nat>, image: seq<Block>)
    | Crash(lh: seq<nat>, image: seq<Block>, at: nat, retries: seq<nat>)

  ghost predicate Possible(d: Disk, g: Geo, v: Event) {
    && Loggable(d, g, v.lh) && |v.image| == |v.lh| && v.lh != []
    && (v.Crash? ==> v.at <= 2 * |v.lh| + 2)
  }

  /** What the disk holds afterwards. */
  ghost function After(d: Disk, g: Geo, v: Event): Disk
    requires Fits(d, g) && Head(d[g.start]) == [] && Possible(d, g, v)
  {
    match v
    case Commit(lh, image) => CommitDisk(d, g, lh, image, 2 * |lh| + 2)
    case Crash(lh, image, at, retries) =>
      CrashAtomic(d, g, lh, image, at);
      Recover(Retry(CommitDisk(d, g, lh, image, at), g, retries), g)
  }

  /** What it should hold: all of the transaction, unless the crash came before the header write. */
  function Ideal(d: Disk, v: Event): Disk
    requires |v.image| == |v.lh| && forall i :: 0 <= i < |v.lh| ==> v.lh[i] < |d|
  {
    if v.Crash? && v.at <= |v.lh| then d else Overlay(d, v.lh, v.image)
  }

  lemma EventAtomic(d: Disk, g: Geo, v: Event)
    requires Fits(d, g) && Head(d[g.start]) == [] && Possible(d, g, v)
    ensures var e := After(d, g, v); |e| == |d| && Head(e[g.start]) == [] && SameHome(e, Ideal(d, v), g)
  {
    hide Head, Overlay, CommitDisk, Recover, Retry;
    match v
    case Commit(lh, image) => CrashAtomic(d, g, lh, image, 2 * |lh| + 2);
    case Crash(lh, image, at, retries) =>
      CrashAtomic(d, g, lh, image, at);
      var e := CommitDisk(d, g, lh, image, at);
      AnyNumberOfCrashes(e, g, retries);
      RecoverHome(Retry(e, g, retries), g);
      SameHomeTrans(Recover(Retry(e, g, retries), g), Recover(e, g), Ideal(d, v), g);
  }

  /** A history is possible if each transaction's blocks fit the disk and the log. */
  ghost predicate History(d: Disk, g: Geo, vs: seq<Event>) {
    forall i :: 0 <= i < |vs| ==> Possible(d, g, vs[i])
  }

  ghost function RunDisk(d: Disk, g: Geo, vs: seq<Event>): Disk
    requires Fits(d, g) && Head(d[g.start]) == [] && History(d, g, vs)
    ensures |RunDisk(d, g, vs)| == |d| && Head(RunDisk(d, g, vs)[g.start]) == []
    decreases |vs|
  {
    if vs == [] then d
    else
      var e := RunDisk(d, g, vs[..|vs| - 1]);
      EventAtomic(e, g, vs[|vs| - 1]);
      After(e, g, vs[|vs| - 1])
  }

  ghost function IdealRun(d: Disk, g: Geo, vs: seq<Event>): Disk
    requires History(d, g, vs)
    ensures |IdealRun(d, g, vs)| == |d|
    decreases |vs|
  {
    if vs == [] then d else Ideal(IdealRun(d, g, vs[..|vs| - 1]), vs[|vs| - 1])
  }

  lemma IdealCongruent(d: Disk, e: Disk, g: Geo, v: Event)
    requires SameHome(d, e, g) && |v.image| == |v.lh| && forall i :: 0 <= i < |v.lh| ==> v.lh[i] < |d|
    ensures SameHome(Ideal(d, v), Ideal(e, v), g)
  {
    OverlayCongruent(d, e, g, v.lh, v.image);
  }

  lemma {:induction false} OverlayCongruent(d: Disk, e: Disk, g: Geo, lh: seq<nat>, image: seq<Block>)
    requires SameHome(d, e, g) && |image| == |lh| && forall i :: 0 <= i < |lh| ==> lh[i] < |d|
    ensures SameHome(Overlay(d, lh, image), Overlay(e, lh, image), g)
    decreases |lh|
  {
    if lh != [] { OverlayCongruent(d, e, g, lh[..|lh| - 1], image[..|lh| - 1]); }
  }

  /** Over any history of commits, crashes and crashed recoveries, the home blocks are those of
      the transactions whose header reached the disk, each applied whole and in order. */
  lemma {:induction false} HistoryAtomic(d: Disk, g: Geo, vs: seq<Event>)
    requires Fits(d, g) && Head(d[g.start]) == [] && History(d, g, vs)
    ensures SameHome(RunDisk(d, g, vs), IdealRun(d, g, vs), g)
    decreases |vs|
  {
    hide Head, Ideal, After;
    if vs != [] {
      var v := vs[|vs| - 1];
      HistoryAtomic(d, g, vs[..|vs| - 1]);
      var e, i := RunDisk(d, g, vs[..|vs| - 1]), IdealRun(d, g, vs[..|vs| - 1]);
      EventAtomic(e, g, v);
      IdealCongruent(e, i, g, v);
      SameHomeTrans(After(e, g, v), Ideal(e, v), Ideal(i, v), g);
    }
  }
}
