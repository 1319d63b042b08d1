/** Copying blocks through the buffer cache: what one copy, and a run of copies, does to the disk,
    to what readers see, and to what is pinned. */
module LogCopy {
  import opened Sets
  import opened Options
  import opened LogDisk
  import opened BufferCache

  ghost predicate Dirty(c: Cache, x: nat) {
    exists i :: 0 <= i < |c.bufs| && c.bufs[i].tag == x && c.bufs[i].dirty
  }

  /** Copying block `src` to block `dst` through the cache, down to the disk. */
  ghost predicate Copied(c: Cache, d: Cache, src: nat, dst: nat) {
    && src < |c.disk| && dst < |c.disk|
    && d.disk == c.disk[dst := Content(c, src)]
    && (forall x: nat :: x < |c.disk| ==> Content(d, x) == if x == dst then Content(c, src) else Content(c, x))
    && (forall x: nat :: Dirty(d, x) <==> Dirty(c, x) && x != dst)
    && (forall x: nat :: Unlocked(c, x) ==> Unlocked(d, x))
    && IdleSet(c) <= IdleSet(d)
  }

  /** Both buffers in hand, and what they hold. */
  ghost predicate Pair(c: Cache, d: Cache, a: nat, i: nat, b: nat, j: nat) {
    && a < |c.disk| && b < |c.disk| && i != j && i < |c.bufs| && j < |c.bufs|
    && Inv(d) && SameContent(c, d) && d.disk == c.disk
    && |d.bufs| == |c.bufs| && d.bufs == c.bufs[i := d.bufs[i]][j := d.bufs[j]]
    && Held(c, d, a, i) && Held(c, d, b, j)
  }

  ghost predicate Held(c: Cache, d: Cache, b: nat, i: nat) {
    && b < |c.disk| && i < |c.bufs| == |d.bufs|
    && d.bufs[i].tag == b && d.bufs[i].valid && d.bufs[i].locked && d.bufs[i].data == Content(c, b)
    && d.bufs[i].dirty == (c.bufs[i].dirty && c.bufs[i].tag == b) && (c.bufs[i].dirty ==> c.bufs[i].tag == b)
    && (!d.bufs[i].dirty ==> d.bufs[i].data == c.disk[b])
    && (forall k :: 0 <= k < |d.bufs| && k != i ==> d.bufs[k].tag != b)
    && d.bufs[i].refcnt == c.bufs[i].refcnt + 1
  }

  lemma CleanContent(c: Cache, b: nat)
    requires Inv(c) && b < |c.disk| && Unlocked(c, b) && !Dirty(c, b)
    ensures Content(c, b) == c.disk[b]
  {
    if i: nat :| i < |c.bufs| && c.bufs[i].tag == b && c.bufs[i].valid {
      ContentIs(c, i);
      assert BufOk(c, i);
    }
  }

  lemma ReadHeld(c: Cache, b: nat)
    requires Inv(c) && b < |c.disk| && Unlocked(c, b) && Bread(c, b).1.Some?
    ensures Held(c, Bread(c, b).0, b, Bread(c, b).1.value)
  {
    BreadGood(c, b);
    BreadOnly(c, b);
    var (d, r) := Bread(c, b);
    if !d.bufs[r.value].dirty {
      assert !Dirty(c, b);
      CleanContent(c, b);
    }
  }

  lemma ReadPair(c: Cache, a: nat, b: nat)
    requires Inv(c) && a < |c.disk| && b < |c.disk| && a != b && Unlocked(c, a) && Unlocked(c, b)
    requires Bread(c, a).1.Some?
    ensures Inv(Bread(c, a).0) && Unlocked(Bread(c, a).0, b) && Bread(c, a).0.disk == c.disk
    ensures Bread(Bread(c, a).0, b).1.Some? ==>
              Pair(c, Bread(Bread(c, a).0, b).0, a, Bread(c, a).1.value, b, Bread(Bread(c, a).0, b).1.value)
  {
    hide Bread, Inv, Content;
    BreadGood(c, a);
    ReadHeld(c, a);
    var (d, r) := Bread(c, a);
    if Bread(d, b).1.Some? {
      BreadGood(d, b);
      ReadHeld(d, b);
      assert Content(c, b) == Content(d, b);
      var (e, q) := Bread(d, b);
      assert d.bufs[r.value].locked && q.value != r.value;
      assert Held(c, e, a, r.value);
      assert Held(c, e, b, q.value);
    }
  }

  /** Two reads in a row find buffers if two are free, or one if the second block is pinned. */
  lemma ReadTwice(c: Cache, a: nat, b: nat)
    requires Inv(c) && a < |c.disk| && b < |c.disk| && a != b && Unlocked(c, a) && Unlocked(c, b)
    requires |IdleSet(c)| >= 2 || (IdleSet(c) != {} && Dirty(c, b))
    ensures Bread(c, a).1.Some?
    ensures Inv(Bread(c, a).0) && Bread(c, a).0.disk == c.disk && Bread(Bread(c, a).0, b).1.Some?
  {
    hide Bread, Inv, Content, SameContent;
    BreadGood(c, a);
    var (d, r) := Bread(c, a);
    ReadIdle(c, d, a, r.value);
    ReadPair(c, a, b);
    BreadGood(d, b);
    if |IdleSet(c)| >= 2 {
      assert |IdleSet(c) - {r.value}| >= 1;
      assert IdleSet(d) != {};
    } else {
      var k :| 0 <= k < |c.bufs| && c.bufs[k].tag == b && c.bufs[k].dirty;
      assert d.bufs[k].tag == b;
    }
  }

  function Tag(c: Cache, i: nat): int
    requires i < |c.bufs|
  {
    c.bufs[i].tag
  }

  /** memmove and bwrite: buffer `t` gets the data of buffer `s`, and so does the disk. */
  lemma WriteAcross(c: Cache, d: Cache, a: nat, i: nat, b: nat, j: nat, s: nat, t: nat)
    requires Pair(c, d, a, i, b, j) && ((s == i && t == j) || (s == j && t == i))
    ensures var e := SetData(d, t, d.bufs[s].data);
            && Inv(e) && e.bufs[t].locked && e.bufs[t].valid && 0 <= e.bufs[t].tag < |e.disk|
            && Inv(Bwrite(e, t)) && Bwrite(e, t).bufs[s] == d.bufs[s]
            && Bwrite(e, t).disk == c.disk[d.bufs[t].tag := d.bufs[s].data]
            && (forall x: nat :: x < |c.disk| ==> Content(Bwrite(e, t), x) == if x == d.bufs[t].tag then d.bufs[s].data else Content(c, x))
  {
    hide Inv, Content;
    var e := SetData(d, t, d.bufs[s].data);
    SetDataGood(d, t, d.bufs[s].data);
    BwriteGood(e, t);
    forall x: nat | x < |c.disk| ensures Content(Bwrite(e, t), x) == if x == d.bufs[t].tag then d.bufs[s].data else Content(c, x) {
      assert Content(e, x) == Content(Bwrite(e, t), x) && Content(c, x) == Content(d, x);
    }
  }

  /** Releasing both buffers, in either order. */
  lemma ReleaseBoth(f: Cache, i: nat, j: nat)
    requires Inv(f) && i < |f.bufs| && j < |f.bufs| && i != j
    requires forall k :: k in {i, j} ==> f.bufs[k].locked && 0 <= Tag(f, k) < |f.disk| && (!f.bufs[k].dirty ==> f.bufs[k].data == f.disk[f.bufs[k].tag])
    ensures f.bufs[i].refcnt > 0 && f.bufs[j].refcnt > 0
    ensures var h := Brelse(f, i);
            && Inv(h) && h.bufs[j] == f.bufs[j] && h.disk == f.disk
            && Inv(Brelse(h, j)) && SameContent(f, Brelse(h, j)) && Brelse(h, j).disk == f.disk
            && Brelse(h, j).bufs == f.bufs[i := Released(f.bufs[i])][j := Released(f.bufs[j])]
  {
    hide Inv, Content;
    assert i in {i, j} && j in {i, j} && Tag(f, i) >= 0 && Tag(f, j) >= 0;
    BrelseGood(f, i);
    BrelseGood(Brelse(f, i), j);
  }

  function Released(b: Buf): Buf
    requires b.refcnt > 0
  {
    b.(locked := false, refcnt := b.refcnt - 1)
  }

  lemma CopyDone(c: Cache, d: Cache, a: nat, i: nat, b: nat, j: nat, s: nat, t: nat, h: Cache)
    requires Pair(c, d, a, i, b, j) && a != b && ((s == i && t == j) || (s == j && t == i))
    requires d.bufs[i].refcnt > 0 && d.bufs[j].refcnt > 0
    requires h.disk == c.disk[d.bufs[t].tag := d.bufs[s].data]
    requires forall x: nat :: x < |c.disk| ==> Content(h, x) == if x == d.bufs[t].tag then d.bufs[s].data else Content(c, x)
    requires h.bufs == d.bufs[s := Released(d.bufs[s])][t := Released(d.bufs[t]).(data := d.bufs[s].data, dirty := false)]
    ensures Copied(c, h, d.bufs[s].tag, d.bufs[t].tag)
  {
    hide Content, Inv;
    forall x: nat ensures Dirty(h, x) <==> Dirty(c, x) && x != d.bufs[t].tag {
      if k :| 0 <= k < |c.bufs| && c.bufs[k].tag == x && c.bufs[k].dirty && x != d.bufs[t].tag {
        assert h.bufs[k].tag == x && h.bufs[k].dirty;
      }
      if k :| 0 <= k < |h.bufs| && h.bufs[k].tag == x && h.bufs[k].dirty {
        assert c.bufs[k].tag == x && c.bufs[k].dirty;
      }
    }
  }

  /** Both releases after the write. */
  ghost predicate Releasable(f: Cache, k: nat) {
    && k < |f.bufs| && f.bufs[k].locked && f.bufs[k].refcnt > 0 && 0 <= f.bufs[k].tag < |f.disk|
    && (!f.bufs[k].dirty ==> f.bufs[k].data == f.disk[f.bufs[k].tag])
  }

  lemma TransferGood(c: Cache, d: Cache, a: nat, i: nat, b: nat, j: nat, s: nat, t: nat)
    requires Pair(c, d, a, i, b, j) && a != b && ((s == i && t == j) || (s == j && t == i))
    ensures var f := Bwrite(SetData(d, t, d.bufs[s].data), t);
            && Releasable(f, s) && Releasable(Brelse(f, s), t)
            && Copied(c, Brelse(Brelse(f, s), t), d.bufs[s].tag, d.bufs[t].tag)
  {
    hide Inv, Content, Copied;
    var f := Bwrite(SetData(d, t, d.bufs[s].data), t);
    WriteAcross(c, d, a, i, b, j, s, t);
    ReleaseBoth(f, s, t);
    var h := Brelse(Brelse(f, s), t);
    CopyDone(c, d, a, i, b, j, s, t, h);
  }

  // ------------------------------------------------------------ runs of copies

  /** The blocks a transaction will leave in their homes. */
  ghost function Image(c: Cache, lh: seq<nat>): seq<Block>
    requires forall t :: 0 <= t < |lh| ==> lh[t] < |c.disk|
  {
    seq(|lh|, t requires 0 <= t < |lh| => Content(c, lh[t]))
  }

  /** Nobody holds a block the log code will read, and no log block is waiting to be written. */
  ghost predicate Ready(c: Cache, g: Geo, lh: seq<nat>) {
    && Inv(c) && Fits(c.disk, g) && Loggable(c.disk, g, lh)
    && (forall x: nat :: g.InLog(x) ==> Unlocked(c, x) && !Dirty(c, x))
    && (forall t :: 0 <= t < |lh| ==> Unlocked(c, lh[t]))
  }

  /** What readers of home blocks see, and what is pinned, is the same. */
  ghost predicate SameFiles(c: Cache, d: Cache, g: Geo) {
    && |c.disk| == |d.disk|
    && (forall x: nat :: x < |c.disk| && !g.InLog(x) ==> Content(d, x) == Content(c, x))
    && (forall x: nat :: Dirty(d, x) <==> Dirty(c, x))
    && IdleSet(c) <= IdleSet(d)
  }

  /** install_trans after `k` blocks. */
  ghost predicate Installed(c: Cache, d: Cache, g: Geo, lh: seq<nat>, k: nat)
    requires Fits(c.disk, g) && Loggable(c.disk, g, lh) && k <= |lh|
  {
    && d.disk == InstallTo(c.disk, g, lh, k)
    && (forall t :: 0 <= t < k ==> Content(d, lh[t]) == c.disk[g.start + 1 + t])
    && (forall x: nat :: x < |c.disk| && x !in lh[..k] ==> Content(d, x) == Content(c, x))
    && (forall x: nat :: Dirty(d, x) <==> Dirty(c, x) && x !in lh[..k])
    && IdleSet(c) <= IdleSet(d)
  }

  /** Buffers enough to copy the blocks of `lh`: two, or one if they are all pinned. */
  ghost predicate Room(c: Cache, lh: seq<nat>) {
    |IdleSet(c)| >= 2 || (IdleSet(c) != {} && forall t :: 0 <= t < |lh| ==> Dirty(c, lh[t]))
  }

  /** The buffers that somebody holds. */
  function HeldSet(c: Cache): set<nat> {
    set i | 0 <= i < |c.bufs| && c.bufs[i].refcnt > 0
  }

  function DirtySet(c: Cache): set<nat> {
    set i | 0 <= i < |c.bufs| && c.bufs[i].dirty
  }

  /** A block has one buffer, so no more buffers are pinned than blocks are listed. */
  lemma {:induction false} PinnedAtMost(c: Cache, pinned: set<nat>, lh: seq<nat>)
    requires Inv(c) && pinned <= DirtySet(c) && forall i :: i in pinned ==> c.bufs[i].tag in lh
    ensures |pinned| <= |lh|
    decreases |lh|
  {
    if lh == [] {
      assert pinned == {};
    } else {
      var rest := set i | i in pinned && c.bufs[i].tag != lh[0];
      assert forall i :: i in rest ==> c.bufs[i].tag in lh[1..];
      PinnedAtMost(c, rest, lh[1..]);
      assert forall i, j :: i in pinned - rest && j in pinned - rest ==> i == j;
      AtMostOne(pinned - rest);
      assert pinned == rest + (pinned - rest);
    }
  }

  lemma AtMostOne(xs: set<nat>)
    requires forall i, j :: i in xs && j in xs ==> i == j
    ensures |xs| <= 1
  {
    if x :| x in xs { assert xs == {x}; }
  }

  /** With more buffers than listed blocks and held buffers there is one to recycle. */
  lemma IdleLeft(c: Cache, lh: seq<nat>)
    requires Inv(c) && forall x: nat :: Dirty(c, x) ==> x in lh
    ensures |c.bufs| > |lh| + |HeldSet(c)| ==> IdleSet(c) != {}
  {
    forall i | i in DirtySet(c) ensures c.bufs[i].tag in lh {
      assert BufOk(c, i) && Dirty(c, c.bufs[i].tag);
    }
    PinnedAtMost(c, DirtySet(c), lh);
    if IdleSet(c) == {} {
      var all := Span(0, |c.bufs|);
      forall i | i in all ensures i in DirtySet(c) + HeldSet(c) { assert i !in IdleSet(c); }
      Subset(all, DirtySet(c) + HeldSet(c));
      UnionSize(DirtySet(c), HeldSet(c));
      SpanSize(0, |c.bufs|);
    }
  }

  lemma RoomLeft(c: Cache, d: Cache, lh: seq<nat>, k: nat)
    requires Room(c, lh) && IdleSet(c) <= IdleSet(d) && k < |lh| && (Dirty(c, lh[k]) ==> Dirty(d, lh[k]))
    ensures |IdleSet(d)| >= 2 || (IdleSet(d) != {} && Dirty(d, lh[k]))
  {
    Subset(IdleSet(c), IdleSet(d));
  }

  lemma LogStep(c: Cache, d: Cache, e: Cache, g: Geo, lh: seq<nat>, k: nat)
    requires Ready(c, g, lh) && Ready(d, g, lh) && k < |lh| && Inv(e)
    requires SameFiles(c, d, g) && d.disk == LogTo(c.disk, g, Image(c, lh), k)
    requires Copied(d, e, lh[k], g.start + k + 1)
    ensures Ready(e, g, lh) && SameFiles(c, e, g) && e.disk == LogTo(c.disk, g, Image(c, lh), k + 1)
  {
    hide Inv, Content, Dirty, Unlocked;
    assert g.InLog(g.start + k + 1);
  }

  lemma InstallStep(c: Cache, d: Cache, e: Cache, g: Geo, lh: seq<nat>, k: nat)
    requires Ready(c, g, lh) && Ready(d, g, lh) && k < |lh| && Inv(e)
    requires Installed(c, d, g, lh, k)
    requires Copied(d, e, g.start + k + 1, lh[k])
    ensures Ready(e, g, lh) && Installed(c, e, g, lh, k + 1)
  {
    hide Inv, Dirty, Unlocked, Content;
    assert g.InLog(g.start + k + 1);
    CleanContent(d, g.start + k + 1);
    InstallKeepsLog(c.disk, g, lh, k, g.start + k + 1);
    assert lh[..k + 1] == lh[..k] + [lh[k]];
  }

  /** bread, memmove and bwrite of the header block: up to the release. */
  lemma HeadWrite(c: Cache, g: Geo, lh: seq<nat>, data: Block)
    requires Ready(c, g, lh) && Bread(c, g.start).1.Some?
    ensures Unlocked(c, g.start)
    ensures var (d, r) := Bread(c, g.start);
            && r.value < |d.bufs| == |c.bufs| && Inv(d) && Held(c, d, g.start, r.value)
            && d.bufs[r.value].data == c.disk[g.start] && d.disk == c.disk && d.bufs == c.bufs[r.value := d.bufs[r.value]]
            && var e := SetData(d, r.value, data);
            && Inv(e) && e.bufs == d.bufs[r.value := d.bufs[r.value].(data := data)] && e.disk == c.disk
            && Inv(Bwrite(e, r.value)) && Bwrite(e, r.value).bufs == e.bufs[r.value := e.bufs[r.value].(dirty := false)]
            && Bwrite(e, r.value).disk == c.disk[g.start := data]
            && (forall x: nat :: x < |c.disk| && x != g.start ==> Content(Bwrite(e, r.value), x) == Content(c, x))
  {
    hide Inv, Content, Dirty, Unlocked, Loggable, Bread;
    assert g.InLog(g.start);
    BreadGood(c, g.start);
    ReadHeld(c, g.start);
    CleanContent(c, g.start);
    var (d, r) := Bread(c, g.start);
    SetDataGood(d, r.value, data);
    BwriteGood(SetData(d, r.value, data), r.value);
  }

  lemma HeadDone(c: Cache, g: Geo, lh: seq<nat>, d: Cache, i: nat, data: Block, h: Cache)
    requires Ready(c, g, lh) && Held(c, d, g.start, i) && Inv(h) && d.bufs[i].refcnt > 0
    requires d.bufs == c.bufs[i := d.bufs[i]]
    requires h.bufs == d.bufs[i := Released(d.bufs[i]).(data := data, dirty := false)]
    requires h.disk == c.disk[g.start := data]
    requires forall x: nat :: x < |c.disk| && x != g.start ==> Content(h, x) == Content(c, x)
    ensures Ready(h, g, lh) && SameFiles(c, h, g)
  {
    hide Inv, Content;
    assert g.InLog(g.start);
    forall x: nat ensures Dirty(h, x) <==> Dirty(c, x) {
      if k :| 0 <= k < |c.bufs| && c.bufs[k].tag == x && c.bufs[k].dirty {
        assert Dirty(c, g.start) <==> false;
        assert h.bufs[k].tag == x && h.bufs[k].dirty;
      }
      if k :| 0 <= k < |h.bufs| && h.bufs[k].tag == x && h.bufs[k].dirty {
        assert c.bufs[k].tag == x && c.bufs[k].dirty;
      }
    }
  }

  lemma HeadGood(c: Cache, g: Geo, lh: seq<nat>, data: Block)
    requires Ready(c, g, lh) && Bread(c, g.start).1.Some?
    ensures var (d, r) := Bread(c, g.start);
            && Held(c, d, g.start, r.value) && d.bufs[r.value].data == c.disk[g.start]
            && var f := Bwrite(SetData(d, r.value, data), r.value);
            && Releasable(f, r.value)
            && var h := Brelse(f, r.value);
            && Ready(h, g, lh) && SameFiles(c, h, g) && h.disk == c.disk[g.start := data]
  {
    hide Inv, Content, Bread, SameFiles, Dirty, Unlocked, Loggable;
    HeadWrite(c, g, lh, data);
    var (d, r) := Bread(c, g.start);
    var f := Bwrite(SetData(d, r.value, data), r.value);
    BrelseGood(f, r.value);
    HeadDone(c, g, lh, d, r.value, data, Brelse(f, r.value));
  }

  /** The cache at boot: nothing pinned, nothing held. */
  ghost predicate Quiet(c: Cache) {
    forall i :: 0 <= i < |c.bufs| ==> !c.bufs[i].dirty && !c.bufs[i].locked
  }

  lemma QuietReady(c: Cache, g: Geo, lh: seq<nat>)
    requires Inv(c) && Quiet(c) && Fits(c.disk, g) && Loggable(c.disk, g, lh)
    ensures Ready(c, g, lh)
  {
  }

  /** Reading a block and letting go of it. */
  lemma PeekGood(c: Cache, b: nat)
    requires Inv(c) && Quiet(c) && b < |c.disk| && Bread(c, b).1.Some?
    ensures var (d, r) := Bread(c, b);
            && r.value < |d.bufs| && d.bufs[r.value].data == c.disk[b] && d.bufs[r.value].valid && Releasable(d, r.value)
            && Quiet(Brelse(d, r.value)) && Inv(Brelse(d, r.value)) && Brelse(d, r.value).disk == c.disk
            && IdleSet(c) <= IdleSet(Brelse(d, r.value))
  {
    hide Inv, Content, Bread;
    BreadGood(c, b);
    ReadHeld(c, b);
    CleanContent(c, b);
    var (d, r) := Bread(c, b);
    BrelseGood(d, r.value);
  }

  /** log_write pins its buffer: it reads the same and is dirty from now on. */
  lemma PinGood(c: Cache, i: nat)
    requires Inv(c) && i < |c.bufs| && c.bufs[i].locked && c.bufs[i].valid && c.bufs[i].tag >= 0
    ensures Inv(Pin(c, i)) && SameContent(c, Pin(c, i))
    ensures forall x: nat :: Dirty(Pin(c, i), x) <==> Dirty(c, x) || x == c.bufs[i].tag
  {
    var d := Pin(c, i);
    assert BufOk(c, i);
    TagOnce(c, i);
    SetInv(c, i, d.bufs[i]);
    forall x: nat | x < |c.disk| ensures Content(d, x) == Content(c, x) {
      if x == c.bufs[i].tag { ContentIs(d, i); } else { SetOther(c, d, i, x); }
    }
    forall x: nat ensures Dirty(d, x) <==> Dirty(c, x) || x == c.bufs[i].tag {
      if k :| 0 <= k < |c.bufs| && c.bufs[k].tag == x && c.bufs[k].dirty {
        assert d.bufs[k].tag == x && d.bufs[k].dirty;
      }
      if k :| 0 <= k < |d.bufs| && d.bufs[k].tag == x && d.bufs[k].dirty {
        assert k != i ==> c.bufs[k].tag == x && c.bufs[k].dirty;
      }
      assert d.bufs[i].tag == c.bufs[i].tag && d.bufs[i].dirty;
    }
  }
}
