/** Files and log together: whatever write of filewrite's transactions a crash follows, and however
    often recovery crashes as well, the disk that comes back is consistent, and the file has some
    number of whole chunks of what was written. */
module FsCrash {
  import opened Sets
  import opened Params
  import opened FsBlocks
  import opened FsSpec
  import opened FsFile
  import opened FsWrite
  import opened FsHistory
  import L = LogDisk

  // ------------------------------------------------------------ bytes and words

  /** A block as the log has it, in words. */
  function Enc(b: Block): (w: L.Block) {
    WordsAt(b, 0, NWORD)
  }

  function Digit(w: nat, k: nat): (x: Byte) {
    if k == 0 then w % 0x100 else Digit(w / 0x100, k - 1)
  }

  function Dec(w: L.Block): (b: Block) {
    seq(BSIZE, k requires 0 <= k < BSIZE => Digit(w[k / 4], k % 4))
  }

  lemma DecEnc(b: Block)
    ensures Dec(Enc(b)) == b
  {
    hide WordsAt;
    forall k: nat | k < BSIZE ensures Dec(Enc(b))[k] == b[k] {
      var i := k / 4;
      assert Enc(b)[i] == Word(b, i) && 4 * i <= k < 4 * i + 4 && k % 4 == k - 4 * i;
      Digits(b[4 * i], b[4 * i + 1], b[4 * i + 2], b[4 * i + 3]);
    }
  }

  lemma Digits(a: Byte, b: Byte, c: Byte, d: Byte)
    ensures var w := a as int + 0x100 * (b as int) + 0x1_0000 * (c as int) + 0x100_0000 * (d as int);
            Digit(w, 0) == a && Digit(w, 1) == b && Digit(w, 2) == c && Digit(w, 3) == d
  {
    var z: nat := d;
    var y: nat := c + 0x100 * z;
    var x: nat := b + 0x100 * y;
    var w: nat := a + 0x100 * x;
    LowDigit(a, x);
    LowDigit(b, y);
    LowDigit(c, z);
    LowDigit(d, 0);
    assert Digit(w, 1) == Digit(x, 0) && Digit(w, 2) == Digit(x, 1) == Digit(y, 0) && Digit(w, 3) == Digit(x, 2) == Digit(y, 1) == Digit(z, 0);
  }

  lemma LowDigit(a: Byte, r: nat)
    ensures (a + 0x100 * r) % 0x100 == a && (a + 0x100 * r) / 0x100 == r
  {
  }

  function DecAll(d: L.Disk): (s: Store) {
    seq(|d|, i requires 0 <= i < |d| => Dec(d[i]))
  }

  /** Outside the log the disk holds the blocks of `s`. */
  ghost predicate Shows(d: L.Disk, s: Store, g: L.Geo) {
    |d| == |s| && forall b: nat :: b < |d| && !g.InLog(b) ==> d[b] == Enc(s[b])
  }

  // ------------------------------------------------------------ only what lies behind the log matters

  ghost predicate SameBehind(sb: Super, d: Store, e: Store) {
    |e| == |d| && forall b :: sb.inodestart <= b < |d| ==> e[b] == d[b]
  }

  lemma SameInodes(sb: Super, d: Store, e: Store)
    requires Layout(sb, d) && SameBehind(sb, d, e)
    ensures OnDisk(sb, e) == OnDisk(sb, d)
  {
    forall i: nat | i < sb.ninodes ensures Dinode(sb, e, i) == Dinode(sb, d, i) {
      IBlockIn(sb, d, i);
    }
  }

  lemma SameOwners(sb: Super, d: Store, e: Store, t: seq<Inode>)
    requires Own(sb, d, t, {}) && SameBehind(sb, d, e)
    ensures Own(sb, e, t, {})
    ensures forall i: nat :: i < |t| ==> SameSlots(d, t[i], e, t[i]) && Keeps(d, t[i], e, t[i])
    ensures forall i: nat, s: nat :: i < |t| && s < NSLOT && Addr(d, t[i], s) != 0 ==> Addr(d, t[i], s) < |d|
  {
    forall b: nat | b < sb.size ensures Used(sb, e, b) == Used(sb, d, b) { BBlockIn(sb, d, b); }
    forall i: nat | i < |t| && 0 < t[i].addrs[NDIRECT] < |d| ensures e[t[i].addrs[NDIRECT]] == d[t[i].addrs[NDIRECT]] {
      assert Addr(d, t[i], NDIRECT) != 0;
    }
    SameAddrs(d, e, t);
    hide Addr, Used;
    SameMapOwn(sb, d, e, t, {});
  }

  /** Consistency, and every file, depend only on the blocks behind the log. */
  lemma SameFilesBehind(sb: Super, d: Store, e: Store)
    requires Consistent(sb, d) && SameBehind(sb, d, e)
    ensures Consistent(sb, e) && forall i: nat :: i < sb.ninodes ==> FileAt(sb, e, i) == FileAt(sb, d, i)
  {
    SameInodes(sb, d, e);
    var t := OnDisk(sb, d);
    SameOwners(sb, d, e, t);
    hide Own, Addr, Keeps, SameSlots, Filled, OnDisk;
    forall i: nat | i < |t| ensures Filled(e, t[i], t[i].size) && Bytes(e, t[i], t[i].size) == Bytes(d, t[i], t[i].size) {
      FilledSize(d, t[i]);
      SameContent(sb, d, t[i], e, t[i], t[i].size);
    }
  }

  // ------------------------------------------------------------ transactions as the log sees them

  /** The log's block list: each block of the transaction once, in whatever order. */
  ghost predicate Lists(lh: seq<nat>, op: set<nat>) {
    && (forall b :: b in lh <==> b in op)
    && (forall i, j :: 0 <= i < j < |lh| ==> lh[i] != lh[j])
  }

  function ImageOf(e: Store, lh: seq<nat>): (image: seq<L.Block>)
    requires forall t :: 0 <= t < |lh| ==> lh[t] < |e|
    ensures |image| == |lh|
  {
    seq(|lh|, t requires 0 <= t < |lh| => Enc(e[lh[t]]))
  }

  /** A commit, of one operation or of several together. */
  ghost predicate Commit(sb: Super, g: L.Geo, d: Store, e: Store, op: set<nat>) {
    Consistent(sb, e) && Logs(sb, d, {}, e, op) && op != {} && |op| <= LOGSIZE && |op| < g.size
  }

  /** The log lies before the inodes. */
  predicate Behind(sb: Super, g: L.Geo) {
    g.start + g.size <= sb.inodestart
  }

  lemma CommitFits(sb: Super, g: L.Geo, d: Store, e: Store, op: set<nat>, lh: seq<nat>, disk: L.Disk)
    requires Commit(sb, g, d, e, op) && Lists(lh, op) && Behind(sb, g) && |disk| == |d|
    ensures |e| == |d| && lh != [] && L.Loggable(disk, g, lh)
  {
    hide Consistent;
    ListLength(lh, op);
    var b :| b in op;
    assert b in lh;
    forall i | 0 <= i < |lh| ensures lh[i] < |disk| && !g.InLog(lh[i]) { assert lh[i] in lh; }
  }

  /** All blocks of the commit in their homes: the next disk. */
  lemma OverlayShows(sb: Super, g: L.Geo, d: Store, e: Store, op: set<nat>, lh: seq<nat>, disk: L.Disk)
    requires Commit(sb, g, d, e, op) && Lists(lh, op) && Behind(sb, g) && Shows(disk, d, g)
    requires |e| == |d| && L.Loggable(disk, g, lh)
    ensures Shows(L.Overlay(disk, lh, ImageOf(e, lh)), e, g)
  {
    hide Consistent, Enc;
    var image := ImageOf(e, lh);
    forall b: nat | b < |d| && !g.InLog(b) ensures L.Overlay(disk, lh, image)[b] == Enc(e[b]) {
      if b in lh {
        var t :| 0 <= t < |lh| && lh[t] == b;
        L.OverlayAt(disk, lh, image, t);
      } else {
        L.OverlayElsewhere(disk, lh, image, b);
      }
    }
  }

  // ------------------------------------------------------------ a crash in a run of commits

  /** The disks between commits, the blocks of each commit, and the log's lists for the first of them. */
  datatype Job = Job(states: seq<Store>, ops: seq<set<nat>>, lhs: seq<seq<nat>>)

  ghost predicate Ready(sb: Super, g: L.Geo, w: Job, disk: L.Disk) {
    && |w.states| == |w.ops| + 1 && Consistent(sb, w.states[0]) && Behind(sb, g)
    && (forall k: nat :: k < |w.ops| ==> Commit(sb, g, w.states[k], w.states[k + 1], w.ops[k]))
    && |w.lhs| <= |w.ops| && (forall k: nat :: k < |w.lhs| ==> Lists(w.lhs[k], w.ops[k]))
    && L.Fits(disk, g) && L.Head(disk[g.start]) == [] && Shows(disk, w.states[0], g)
  }

  predicate InStore(lh: seq<nat>, e: Store) {
    forall t :: 0 <= t < |lh| ==> lh[t] < |e|
  }

  /** Every block list names blocks of the disk. */
  predicate Fitting(w: Job) {
    |w.states| == |w.ops| + 1 && |w.lhs| <= |w.ops| && forall k: nat :: k < |w.lhs| ==> InStore(w.lhs[k], w.states[k + 1])
  }

  lemma {:induction false} SizesSame(sb: Super, g: L.Geo, w: Job, disk: L.Disk, k: nat)
    requires Ready(sb, g, w, disk) && k <= |w.ops|
    ensures |w.states[k]| == |w.states[0]|
  {
    hide Consistent, Lists, Shows, L.Head;
    if k > 0 {
      SizesSame(sb, g, w, disk, k - 1);
      assert Commit(sb, g, w.states[k - 1], w.states[k], w.ops[k - 1]);
    }
  }

  lemma FitsAt(sb: Super, g: L.Geo, w: Job, disk: L.Disk, k: nat)
    requires Ready(sb, g, w, disk) && k < |w.lhs|
    ensures |w.states| == |w.ops| + 1 && k < |w.ops|
    ensures Commit(sb, g, w.states[k], w.states[k + 1], w.ops[k]) && Lists(w.lhs[k], w.ops[k])
    ensures |w.states[k]| == |w.states[k + 1]| == |disk| && w.lhs[k] != [] && L.Loggable(disk, g, w.lhs[k])
  {
    hide Commit, Lists, Shows, L.Head, L.Loggable;
    SizesSame(sb, g, w, disk, k);
    SizesSame(sb, g, w, disk, k + 1);
    ShowsSize(disk, w.states[0], g);
    CommitFits(sb, g, w.states[k], w.states[k + 1], w.ops[k], w.lhs[k], disk);
  }

  lemma ReadyFits(sb: Super, g: L.Geo, w: Job, disk: L.Disk)
    requires Ready(sb, g, w, disk)
    ensures Fitting(w) && forall k: nat :: k < |w.lhs| ==> w.lhs[k] != [] && L.Loggable(disk, g, w.lhs[k])
  {
    hide Ready, Commit, Lists;
    forall k: nat | k < |w.lhs| ensures w.lhs[k] != [] && L.Loggable(disk, g, w.lhs[k]) && |w.states| == |w.ops| + 1 && k < |w.ops| && InStore(w.lhs[k], w.states[k + 1]) {
      FitsAt(sb, g, w, disk, k);
    }
    ReadySizes(sb, g, w, disk);
  }

  lemma ReadySizes(sb: Super, g: L.Geo, w: Job, disk: L.Disk)
    requires Ready(sb, g, w, disk)
    ensures |w.states| == |w.ops| + 1 && |w.lhs| <= |w.ops|
  {
  }

  lemma ShowsSize(d: L.Disk, s: Store, g: L.Geo)
    requires Shows(d, s, g)
    ensures |d| == |s|
  {
  }

  /** The first `k` commits. */
  function Commits(w: Job, k: nat): (vs: seq<L.Event>)
    requires Fitting(w) && k <= |w.lhs|
    ensures |vs| == k
  {
    seq(k, j requires 0 <= j < k => L.Commit(w.lhs[j], ImageOf(w.states[j + 1], w.lhs[j])))
  }

  /** All commits of `lhs` but the last finish, and the last crashes after `at` of its writes and is
      recovered, after some recoveries that crash. */
  function CrashRun(w: Job, at: nat, retries: seq<nat>): (vs: seq<L.Event>)
    requires Fitting(w) && w.lhs != []
  {
    var k := |w.lhs| - 1;
    Commits(w, k) + [L.Crash(w.lhs[k], ImageOf(w.states[k + 1], w.lhs[k]), at, retries)]
  }

  lemma RunPossible(sb: Super, g: L.Geo, w: Job, disk: L.Disk, at: nat, retries: seq<nat>)
    requires Ready(sb, g, w, disk) && w.lhs != [] && at <= 2 * |w.lhs[|w.lhs| - 1]| + 2
    ensures Fitting(w) && L.History(disk, g, CrashRun(w, at, retries))
    ensures forall k: nat :: k <= |w.lhs| ==> L.History(disk, g, Commits(w, k))
  {
    hide Ready, L.Loggable;
    ReadyFits(sb, g, w, disk);
  }

  lemma IdealShows(sb: Super, g: L.Geo, d: Store, e: Store, op: set<nat>, v: L.Event, disk: L.Disk)
    requires Commit(sb, g, d, e, op) && Lists(v.lh, op) && Behind(sb, g) && Shows(disk, d, g)
    requires InStore(v.lh, e) && v.image == ImageOf(e, v.lh)
    ensures InStore(v.lh, d) && |disk| == |d|
    ensures Shows(L.Ideal(disk, v), if v.Crash? && v.at <= |v.lh| then d else e, g)
  {
    hide Consistent, Enc, L.Overlay;
    ShowsSize(disk, d, g);
    CommitFits(sb, g, d, e, op, v.lh, disk);
    OverlayShows(sb, g, d, e, op, v.lh, disk);
  }

  lemma {:induction false} CommitsShow(sb: Super, g: L.Geo, w: Job, disk: L.Disk, k: nat)
    requires Ready(sb, g, w, disk) && Fitting(w) && k <= |w.lhs|
    requires forall j: nat :: j <= |w.lhs| ==> L.History(disk, g, Commits(w, j))
    ensures Shows(L.IdealRun(disk, g, Commits(w, k)), w.states[k], g)
  {
    hide Commit, Lists, Shows, L.Head, L.Loggable, L.Overlay, ImageOf, L.Ideal, Consistent;
    if k > 0 {
      CommitsShow(sb, g, w, disk, k - 1);
      FitsAt(sb, g, w, disk, k - 1);
      var vs := Commits(w, k);
      assert vs[..k - 1] == Commits(w, k - 1);
      IdealShows(sb, g, w.states[k - 1], w.states[k], w.ops[k - 1], vs[k - 1], L.IdealRun(disk, g, vs[..k - 1]));
    }
  }

  /** How many commits the recovered disk has. */
  function Survivors(w: Job, at: nat): nat
    requires w.lhs != []
  {
    if at <= |w.lhs[|w.lhs| - 1]| then |w.lhs| - 1 else |w.lhs|
  }

  lemma CrashShows(sb: Super, g: L.Geo, w: Job, disk: L.Disk, at: nat, retries: seq<nat>)
    requires Ready(sb, g, w, disk) && w.lhs != [] && at <= 2 * |w.lhs[|w.lhs| - 1]| + 2
    ensures Fitting(w) && L.History(disk, g, CrashRun(w, at, retries))
    ensures Shows(L.RunDisk(disk, g, CrashRun(w, at, retries)), w.states[Survivors(w, at)], g)
  {
    hide Commit, Lists, Shows, L.Head, L.Loggable, L.Overlay, ImageOf, L.Ideal, Consistent, L.RunDisk;
    RunPossible(sb, g, w, disk, at, retries);
    var k, vs := |w.lhs| - 1, CrashRun(w, at, retries);
    FitsAt(sb, g, w, disk, k);
    CommitsShow(sb, g, w, disk, k);
    assert vs[..k] == Commits(w, k);
    IdealShows(sb, g, w.states[k], w.states[k + 1], w.ops[k], vs[k], L.IdealRun(disk, g, vs[..k]));
    L.HistoryAtomic(disk, g, vs);
    ShowsHome(L.IdealRun(disk, g, vs), L.RunDisk(disk, g, vs), w.states[Survivors(w, at)], g);
  }

  lemma ShowsHome(d: L.Disk, e: L.Disk, s: Store, g: L.Geo)
    requires Shows(d, s, g) && L.SameHome(e, d, g)
    ensures Shows(e, s, g)
  {
  }

  lemma DecShows(sb: Super, d: L.Disk, s: Store, g: L.Geo)
    requires Shows(d, s, g) && Behind(sb, g)
    ensures SameBehind(sb, s, DecAll(d))
  {
    hide Enc, Dec;
    forall b: nat | sb.inodestart <= b < |s| ensures DecAll(d)[b] == s[b] { DecEnc(s[b]); }
  }

  lemma ConsistentAt(sb: Super, g: L.Geo, w: Job, disk: L.Disk, k: nat)
    requires Ready(sb, g, w, disk) && k <= |w.ops|
    ensures Consistent(sb, w.states[k])
  {
    hide Consistent, Lists, Shows, L.Head;
    if k > 0 { assert Commit(sb, g, w.states[k - 1], w.states[k], w.ops[k - 1]); }
  }

  /** Both disks are consistent and have the same files. */
  ghost predicate SameFiles(sb: Super, d: Store, e: Store) {
    Consistent(sb, d) && Consistent(sb, e) && forall j: nat :: j < sb.ninodes ==> FileAt(sb, e, j) == FileAt(sb, d, j)
  }

  /** What the disk holds after the crash and the recoveries. */
  ghost function Remains(g: L.Geo, w: Job, disk: L.Disk, at: nat, retries: seq<nat>): Store
    requires Fitting(w) && w.lhs != [] && L.Fits(disk, g) && L.Head(disk[g.start]) == [] && L.History(disk, g, CrashRun(w, at, retries))
  {
    DecAll(L.RunDisk(disk, g, CrashRun(w, at, retries)))
  }

  /** A run of commits, each of one operation or of several, cut off by a crash after any write of the
      last and recovered after any number of recoveries that crash: the disk is consistent, and it has
      the files of the commits that had their header written. */
  lemma CrashedCommits(sb: Super, g: L.Geo, w: Job, disk: L.Disk, at: nat, retries: seq<nat>)
    requires Ready(sb, g, w, disk) && w.lhs != [] && at <= 2 * |w.lhs[|w.lhs| - 1]| + 2
    ensures Fitting(w) && L.History(disk, g, CrashRun(w, at, retries))
    ensures SameFiles(sb, w.states[Survivors(w, at)], Remains(g, w, disk, at, retries))
  {
    hide Consistent, FileAt, Shows, L.Head, L.Loggable, CrashRun, DecAll, Lists, L.RunDisk, Fitting, SameBehind, Commit;
    CrashShows(sb, g, w, disk, at, retries);
    var k := Survivors(w, at);
    DecShows(sb, L.RunDisk(disk, g, CrashRun(w, at, retries)), w.states[k], g);
    ConsistentAt(sb, g, w, disk, k);
    SameFilesBehind(sb, w.states[k], Remains(g, w, disk, at, retries));
  }

  // ------------------------------------------------------------ a crash in a write

  ghost predicate Fresh(disk: L.Disk, g: L.Geo, s: Store) {
    L.Fits(disk, g) && L.Head(disk[g.start]) == [] && Shows(disk, s, g)
  }

  lemma AloneReady(sb: Super, g: L.Geo, i: nat, off: nat, src: seq<Byte>, w: Job, disk: L.Disk)
    requires Chunked(sb, i, off, src, w.states, w.ops) && |w.lhs| <= |w.ops| && (forall k: nat :: k < |w.lhs| ==> Lists(w.lhs[k], w.ops[k]))
    requires Behind(sb, g) && MAXOPBLOCKS < g.size && Fresh(disk, g, w.states[0])
    ensures Ready(sb, g, w, disk)
  {
    hide Consistent, SplicedAt, Lists, Shows, L.Head, Logs;
    forall k: nat | k < |w.ops| ensures Commit(sb, g, w.states[k], w.states[k + 1], w.ops[k]) {
      assert Transaction(sb, w.states[k], w.states[k + 1], w.ops[k]);
    }
  }

  /** filewrite alone: the file has the first chunks, as many as had their header written, and every
      other file is as it was. */
  lemma CrashedWrite(sb: Super, g: L.Geo, i: nat, off: nat, src: seq<Byte>, w: Job, disk: L.Disk, at: nat, retries: seq<nat>)
    requires Chunked(sb, i, off, src, w.states, w.ops) && |w.lhs| <= |w.ops| && (forall k: nat :: k < |w.lhs| ==> Lists(w.lhs[k], w.ops[k]))
    requires Behind(sb, g) && MAXOPBLOCKS < g.size && Fresh(disk, g, w.states[0])
    requires w.lhs != [] && at <= 2 * |w.lhs[|w.lhs| - 1]| + 2
    ensures Fitting(w) && L.History(disk, g, CrashRun(w, at, retries))
    ensures var e, k := Remains(g, w, disk, at, retries), Survivors(w, at);
            if k == 0 then SameFiles(sb, w.states[0], e) else SplicedAt(sb, w.states[0], e, i, off, src[..Upto(k, |src|)])
  {
    hide Consistent, FileAt, Shows, L.Head, CrashRun, Remains, Lists, Fitting, Splice, Ready;
    AloneReady(sb, g, i, off, src, w, disk);
    CrashedCommits(sb, g, w, disk, at, retries);
    var k := Survivors(w, at);
    assert k > 0 ==> SplicedAt(sb, w.states[0], w.states[k], i, off, src[..Upto(k, |src|)]);
  }

  // ------------------------------------------------------------ a crash in a write, with others at work

  /** Where the operations were committed: after the first `cuts[1]` of them, and so on.  Each commit is
      of blocks that fit the log, as the reservation sees to. */
  ghost predicate Cut(g: L.Geo, w: Work, cuts: seq<nat>) {
    && |cuts| > 0 && cuts[0] == 0 && (forall k :: 0 <= k < |cuts| ==> cuts[k] <= |w.ops|)
    && (forall k :: 0 <= k < |cuts| - 1 ==>
          cuts[k] <= cuts[k + 1] && var op := UnionOf(w.ops, cuts[k], cuts[k + 1]); op != {} && |op| <= LOGSIZE && |op| < g.size)
  }

  ghost function Grouped(g: L.Geo, w: Work, cuts: seq<nat>, lhs: seq<seq<nat>>): Job
    requires |w.states| == |w.ops| + 1 && Cut(g, w, cuts)
  {
    Job(seq(|cuts|, k requires 0 <= k < |cuts| => w.states[cuts[k]]),
        seq(|cuts| - 1, k requires 0 <= k < |cuts| - 1 => UnionOf(w.ops, cuts[k], cuts[k + 1])), lhs)
  }

  lemma MixedReady(sb: Super, g: L.Geo, i: nat, off: nat, src: seq<Byte>, w: Work, cuts: seq<nat>, lhs: seq<seq<nat>>, disk: L.Disk)
    requires Mixed(sb, i, off, src, w) && Cut(g, w, cuts) && |lhs| < |cuts| && Behind(sb, g) && Fresh(disk, g, w.states[0])
    requires forall k: nat :: k < |lhs| ==> Lists(lhs[k], Grouped(g, w, cuts, lhs).ops[k])
    ensures Ready(sb, g, Grouped(g, w, cuts, lhs), disk)
  {
    hide Consistent, Lists, Shows, L.Head, Logs, Turn, UnionOf;
    var j := Grouped(g, w, cuts, lhs);
    forall k: nat | k < |j.ops| ensures Commit(sb, g, j.states[k], j.states[k + 1], j.ops[k]) {
      UnionLogs(sb, i, off, src, w, cuts[k], cuts[k + 1]);
      MixedFile(sb, i, off, src, w, cuts[k + 1]);
    }
    MixedFile(sb, i, off, src, w, 0);
  }

  /** filewrite among other operations that leave its file alone, committed in groups as they come: the
      recovered disk is consistent, has all files as they were at a commit, and the file has the chunks
      written by then. */
  lemma CrashedTogether(sb: Super, g: L.Geo, i: nat, off: nat, src: seq<Byte>, w: Work, cuts: seq<nat>, lhs: seq<seq<nat>>,
                        disk: L.Disk, at: nat, retries: seq<nat>)
    requires Mixed(sb, i, off, src, w) && Cut(g, w, cuts) && 0 < |lhs| < |cuts| && Behind(sb, g) && Fresh(disk, g, w.states[0])
    requires forall k: nat :: k < |lhs| ==> Lists(lhs[k], Grouped(g, w, cuts, lhs).ops[k])
    requires at <= 2 * |lhs[|lhs| - 1]| + 2
    ensures var j := Grouped(g, w, cuts, lhs);
            && Fitting(j) && L.History(disk, g, CrashRun(j, at, retries))
            && var e, k := Remains(g, j, disk, at, retries), cuts[Survivors(j, at)];
            SameFiles(sb, w.states[k], e) && FileHas(sb, w.states[0], e, i, off, src, Chunks(w.mine, k))
  {
    hide Consistent, FileAt, Shows, L.Head, CrashRun, Remains, Lists, Fitting, Splice, Ready, Turn, UnionOf, Chunks;
    MixedReady(sb, g, i, off, src, w, cuts, lhs, disk);
    var j := Grouped(g, w, cuts, lhs);
    CrashedCommits(sb, g, j, disk, at, retries);
    MixedFile(sb, i, off, src, w, cuts[Survivors(j, at)]);
  }
}
