/** bio.c: the buffer cache as a value, and what each operation keeps.  The model has the one
    device that holds the file system; `tag` is the block a buffer is for, or -1 before its
    first use. */
module BufferCache {
  import opened Options
  import opened LogDisk

  datatype Buf = Buf(tag: int, valid: bool, dirty: bool, locked: bool, refcnt: nat, data: Block)

  /** `ring` is the list from most to least recently used. */
  datatype Cache = Cache(bufs: seq<Buf>, ring: seq<nat>, disk: Disk)

  ghost predicate Ring(ring: seq<nat>, n: nat) {
    && |ring| == n
    && (forall i :: 0 <= i < n ==> ring[i] < n)
    && (forall i, j :: 0 <= i < j < n ==> ring[i] != ring[j])
    && (forall b: nat :: b < n ==> b in ring)
  }

  /** No two buffers for one block; only a referenced buffer is locked; a dirty buffer has been
      read; a valid buffer that is neither dirty nor locked agrees with the disk. */
  predicate BufOk(c: Cache, i: nat)
    requires i < |c.bufs|
  {
    var b := c.bufs[i];
    && -1 <= b.tag < |c.disk|
    && (b.tag == -1 ==> !b.valid && b.refcnt == 0)
    && (b.locked ==> b.refcnt > 0)
    && (b.dirty ==> b.valid)
    && (b.valid && !b.dirty && !b.locked ==> b.data == c.disk[b.tag])
  }

  ghost predicate Inv(c: Cache) {
    && Ring(c.ring, |c.bufs|)
    && (forall i :: 0 <= i < |c.bufs| ==> BufOk(c, i))
    && (forall i, j :: 0 <= i < j < |c.bufs| && c.bufs[i].tag >= 0 ==> c.bufs[i].tag != c.bufs[j].tag)
  }

  // ------------------------------------------------------------ bget

  predicate Idle(b: Buf) {
    b.refcnt == 0 && !b.dirty
  }

  /** The buffers that bget may recycle: neither held nor pinned. */
  function IdleSet(c: Cache): set<nat> {
    set i | 0 <= i < |c.bufs| && Idle(c.bufs[i])
  }

  /** The forward search, from position `k` of the list. */
  function FindFrom(c: Cache, b: nat, k: nat): Option<nat>
    requires forall i :: 0 <= i < |c.ring| ==> c.ring[i] < |c.bufs|
    decreases |c.ring| - k
  {
    if k >= |c.ring| then None
    else if c.bufs[c.ring[k]].tag == b then Some(c.ring[k])
    else FindFrom(c, b, k + 1)
  }

  /** The backward search for a buffer to recycle, over the first `k` of the list. */
  function IdleBefore(c: Cache, k: nat): Option<nat>
    requires k <= |c.ring| && forall i :: 0 <= i < |c.ring| ==> c.ring[i] < |c.bufs|
  {
    if k == 0 then None
    else if Idle(c.bufs[c.ring[k - 1]]) then Some(c.ring[k - 1])
    else IdleBefore(c, k - 1)
  }

  function SetBuf(c: Cache, i: nat, b: Buf): Cache
    requires i < |c.bufs|
  {
    c.(bufs := c.bufs[i := b])
  }

  /** The buffer is locked for the caller; None is the "no buffers" panic. */
  ghost function Bget(c: Cache, b: nat): (Cache, Option<nat>)
    requires Inv(c)
  {
    var hit := FindFrom(c, b, 0);
    if hit.Some? then
      FindFromGood(c, b, 0);
      var i := hit.value;
      (SetBuf(c, i, c.bufs[i].(refcnt := c.bufs[i].refcnt + 1, locked := true)), hit)
    else
      var i := IdleBefore(c, |c.ring|);
      if i.None? then (c, None)
      else
        IdleBeforeGood(c, |c.ring|);
        (SetBuf(c, i.value, Buf(b, false, false, true, 1, c.bufs[i.value].data)), i)
  }

  ghost function Bread(c: Cache, b: nat): (Cache, Option<nat>)
    requires Inv(c) && b < |c.disk|
  {
    var (d, r) := Bget(c, b);
    if r.Some? && r.value < |d.bufs| && !d.bufs[r.value].valid then
      (SetBuf(d, r.value, d.bufs[r.value].(valid := true, data := d.disk[b])), r)
    else (d, r)
  }

  /** The owner of a locked buffer changes its contents. */
  function SetData(c: Cache, i: nat, data: Block): Cache
    requires i < |c.bufs|
  {
    SetBuf(c, i, c.bufs[i].(data := data))
  }

  function Bwrite(c: Cache, i: nat): Cache
    requires i < |c.bufs| && 0 <= c.bufs[i].tag < |c.disk|
  {
    SetBuf(c, i, c.bufs[i].(valid := true, dirty := false)).(disk := c.disk[c.bufs[i].tag := c.bufs[i].data])
  }

  /** log_write's part: pin the buffer. */
  function Pin(c: Cache, i: nat): Cache
    requires i < |c.bufs|
  {
    SetBuf(c, i, c.bufs[i].(dirty := true))
  }

  function Without(ring: seq<nat>, i: nat): seq<nat> {
    if ring == [] then [] else if ring[0] == i then ring[1..] else [ring[0]] + Without(ring[1..], i)
  }

  /** The last reference moves the buffer to the front of the list. */
  function Brelse(c: Cache, i: nat): Cache
    requires i < |c.bufs| && c.bufs[i].refcnt > 0
  {
    var d := SetBuf(c, i, c.bufs[i].(locked := false, refcnt := c.bufs[i].refcnt - 1));
    if d.bufs[i].refcnt == 0 then d.(ring := [i] + Without(c.ring, i)) else d
  }

  lemma {:induction false} FindFromGood(c: Cache, b: nat, k: nat)
    requires forall i :: 0 <= i < |c.ring| ==> c.ring[i] < |c.bufs|
    ensures FindFrom(c, b, k).Some? ==> FindFrom(c, b, k).value < |c.bufs| && c.bufs[FindFrom(c, b, k).value].tag == b
    ensures FindFrom(c, b, k).None? ==> forall i :: k <= i < |c.ring| ==> c.bufs[c.ring[i]].tag != b
    decreases |c.ring| - k
  {
    if k < |c.ring| { FindFromGood(c, b, k + 1); }
  }

  lemma {:induction false} IdleBeforeGood(c: Cache, k: nat)
    requires k <= |c.ring| && forall i :: 0 <= i < |c.ring| ==> c.ring[i] < |c.bufs|
    ensures IdleBefore(c, k).Some? ==> IdleBefore(c, k).value < |c.bufs| && Idle(c.bufs[IdleBefore(c, k).value])
    ensures IdleBefore(c, k).None? ==> forall i :: 0 <= i < k ==> !Idle(c.bufs[c.ring[i]])
  {
    if k > 0 { IdleBeforeGood(c, k - 1); }
  }

  // ------------------------------------------------------------ what the operations keep

  /** What the file system reads at block `b`. */
  ghost function Content(c: Cache, b: nat): Block
    requires b < |c.disk|
  {
    if i :| 0 <= i < |c.bufs| && c.bufs[i].tag == b && c.bufs[i].valid then c.bufs[i].data else c.disk[b]
  }

  ghost predicate SameContent(c: Cache, d: Cache) {
    |c.disk| == |d.disk| && forall b: nat :: b < |c.disk| ==> Content(c, b) == Content(d, b)
  }

  /** The buffer for `b`, if there is one, is not locked. */
  ghost predicate Unlocked(c: Cache, b: nat) {
    forall i :: 0 <= i < |c.bufs| && c.bufs[i].tag == b ==> !c.bufs[i].locked
  }

  /** A valid buffer's data is what the file system reads. */
  lemma ContentIs(c: Cache, i: nat)
    requires Inv(c) && i < |c.bufs| && c.bufs[i].tag >= 0 && c.bufs[i].valid
    ensures c.bufs[i].tag < |c.disk| && Content(c, c.bufs[i].tag) == c.bufs[i].data
  {
    assert BufOk(c, i);
  }

  /** One buffer replaced: the invariant, if the new buffer is in order and its block was free. */
  lemma SetInv(c: Cache, i: nat, b: Buf)
    requires Inv(c) && i < |c.bufs| && BufOk(SetBuf(c, i, b), i)
    requires b.tag >= 0 ==> forall j :: 0 <= j < |c.bufs| && j != i ==> c.bufs[j].tag != b.tag
    ensures Inv(SetBuf(c, i, b))
  {
    var d := SetBuf(c, i, b);
    forall j | 0 <= j < |d.bufs| ensures BufOk(d, j) {
      if j != i { assert BufOk(c, j); }
    }
  }

  lemma TagOnce(c: Cache, i: nat)
    requires Inv(c) && i < |c.bufs| && c.bufs[i].tag >= 0
    ensures forall j :: 0 <= j < |c.bufs| && j != i ==> c.bufs[j].tag != c.bufs[i].tag
  {
  }

  /** A miss: no buffer is for the block. */
  lemma Missing(c: Cache, b: nat)
    requires Inv(c) && FindFrom(c, b, 0).None?
    ensures forall i :: 0 <= i < |c.bufs| ==> c.bufs[i].tag != b
  {
    FindFromGood(c, b, 0);
    forall i: nat | i < |c.bufs| ensures c.bufs[i].tag != b {
      assert i in c.ring;
      var k :| 0 <= k < |c.ring| && c.ring[k] == i;
    }
  }

  /** bread: a locked, valid buffer with what the block holds; the disk, every other buffer and
      the content of every block are as they were; a dirty buffer is not recycled. */
  ghost predicate ReadBy(c: Cache, d: Cache, b: nat, i: nat) {
    && b < |c.disk| && i < |c.bufs| == |d.bufs| && d.disk == c.disk && d.ring == c.ring
    && d.bufs == c.bufs[i := d.bufs[i]]
    && d.bufs[i].tag == b && d.bufs[i].valid && d.bufs[i].locked && d.bufs[i].data == Content(c, b)
    && (c.bufs[i].dirty ==> c.bufs[i].tag == b) && d.bufs[i].dirty == (c.bufs[i].dirty && c.bufs[i].tag == b)
    && d.bufs[i].refcnt == c.bufs[i].refcnt + 1
    && !c.bufs[i].locked
    && (c.bufs[i].tag != b ==> Idle(c.bufs[i]))
  }

  lemma BreadReads(c: Cache, b: nat)
    requires Inv(c) && b < |c.disk| && Unlocked(c, b) && Bread(c, b).1.Some?
    ensures ReadBy(c, Bread(c, b).0, b, Bread(c, b).1.value)
  {
    FindFromGood(c, b, 0);
    IdleBeforeGood(c, |c.ring|);
    if FindFrom(c, b, 0).Some? {
      var i := FindFrom(c, b, 0).value;
      assert BufOk(c, i);
      TagOnce(c, i);
    } else {
      Missing(c, b);
      assert BufOk(c, IdleBefore(c, |c.ring|).value);
    }
  }

  lemma ReadByInv(c: Cache, d: Cache, b: nat, i: nat)
    requires Inv(c) && ReadBy(c, d, b, i)
    requires forall j :: 0 <= j < |c.bufs| && j != i ==> c.bufs[j].tag != b
    ensures Inv(d) && SameContent(c, d)
  {
    assert d == SetBuf(c, i, d.bufs[i]);
    SetInv(c, i, d.bufs[i]);
    forall x: nat | x < |c.disk| ensures Content(c, x) == Content(d, x) {
      if x == b { ContentIs(d, i); } else { ReadOther(c, d, b, i, x); }
    }
  }

  /** Recycling a buffer loses nothing: it was clean and unlocked, so the disk has its data. */
  lemma ReadOther(c: Cache, d: Cache, b: nat, i: nat, x: nat)
    requires Inv(c) && Inv(d) && ReadBy(c, d, b, i) && x < |c.disk| && x != b
    ensures Content(c, x) == Content(d, x)
  {
    if j: nat :| j < |c.bufs| && c.bufs[j].tag == x && c.bufs[j].valid {
      ContentIs(c, j);
      if j == i {
        assert BufOk(c, i);
        TagOnce(c, i);
      } else {
        ContentIs(d, j);
      }
    }
  }

  /** bread as a whole. */
  lemma BreadGood(c: Cache, b: nat)
    requires Inv(c) && b < |c.disk| && Unlocked(c, b)
    ensures Bread(c, b).1.None? ==> Bread(c, b).0 == c && IdleSet(c) == {} && forall i :: 0 <= i < |c.bufs| ==> c.bufs[i].tag != b
    ensures Bread(c, b).1.Some? ==> ReadBy(c, Bread(c, b).0, b, Bread(c, b).1.value)
    ensures Inv(Bread(c, b).0) && SameContent(c, Bread(c, b).0)
  {
    if Bread(c, b).1.Some? {
      BreadReads(c, b);
      var (d, r) := Bread(c, b);
      BreadOnly(c, b);
      ReadByInv(c, d, b, r.value);
    } else {
      NoIdle(c);
      Missing(c, b);
    }
  }

  /** Reading takes at most one buffer out of those that are free. */
  lemma ReadIdle(c: Cache, d: Cache, b: nat, i: nat)
    requires ReadBy(c, d, b, i)
    ensures IdleSet(c) - {i} <= IdleSet(d)
  {
  }

  lemma NoIdle(c: Cache)
    requires Inv(c) && IdleBefore(c, |c.ring|).None?
    ensures IdleSet(c) == {}
  {
    IdleBeforeGood(c, |c.ring|);
    forall i: nat | i < |c.bufs| ensures !Idle(c.bufs[i]) {
      assert i in c.ring;
      var k :| 0 <= k < |c.ring| && c.ring[k] == i;
    }
  }

  lemma BreadOnly(c: Cache, b: nat)
    requires Inv(c) && b < |c.disk| && Bread(c, b).1.Some?
    ensures forall j :: 0 <= j < |c.bufs| && j != Bread(c, b).1.value ==> c.bufs[j].tag != b
  {
    FindFromGood(c, b, 0);
    if FindFrom(c, b, 0).Some? { TagOnce(c, FindFrom(c, b, 0).value); } else { Missing(c, b); }
  }

  /** New contents in a locked buffer. */
  lemma SetDataGood(c: Cache, i: nat, data: Block)
    requires Inv(c) && i < |c.bufs| && c.bufs[i].locked && c.bufs[i].valid && c.bufs[i].tag >= 0
    ensures Inv(SetData(c, i, data))
    ensures forall x: nat :: x < |c.disk| ==> Content(SetData(c, i, data), x) == if x == c.bufs[i].tag then data else Content(c, x)
  {
    assert BufOk(c, i);
    TagOnce(c, i);
    var d := SetData(c, i, data);
    SetInv(c, i, d.bufs[i]);
    forall x: nat | x < |c.disk| ensures Content(d, x) == if x == c.bufs[i].tag then data else Content(c, x) {
      if x == c.bufs[i].tag { ContentIs(d, i); } else { SetOther(c, d, i, x); }
    }
  }

  /** A block that neither the old nor the new buffer `i` is for. */
  lemma SetOther(c: Cache, d: Cache, i: nat, x: nat)
    requires Inv(c) && Inv(d) && i < |c.bufs| == |d.bufs| && x < |c.disk| == |d.disk| && c.disk[x] == d.disk[x]
    requires d.bufs == c.bufs[i := d.bufs[i]] && c.bufs[i].tag != x && d.bufs[i].tag != x
    ensures Content(d, x) == Content(c, x)
  {
    if j: nat :| j < |c.bufs| && c.bufs[j].tag == x && c.bufs[j].valid {
      ContentIs(c, j);
      ContentIs(d, j);
    }
  }

  /** bwrite: the disk gets the buffer's data, and the buffer is clean. */
  lemma BwriteGood(c: Cache, i: nat)
    requires Inv(c) && i < |c.bufs| && c.bufs[i].locked && c.bufs[i].valid && c.bufs[i].tag >= 0
    ensures c.bufs[i].tag < |c.disk|
    ensures Inv(Bwrite(c, i)) && SameContent(c, Bwrite(c, i))
  {
    assert BufOk(c, i);
    TagOnce(c, i);
    var d := Bwrite(c, i);
    forall j | 0 <= j < |d.bufs| ensures BufOk(d, j) {
      if j != i { assert BufOk(c, j); }
    }
    assert Inv(d);
    forall x: nat | x < |c.disk| ensures Content(c, x) == Content(d, x) {
      if x == c.bufs[i].tag { ContentIs(c, i); ContentIs(d, i); } else { SetOther(c, d, i, x); }
    }
  }

  lemma {:induction false} WithoutRing(ring: seq<nat>, i: nat)
    requires i in ring && forall a, b :: 0 <= a < b < |ring| ==> ring[a] != ring[b]
    ensures |Without(ring, i)| == |ring| - 1
    ensures forall x :: x in Without(ring, i) <==> x in ring && x != i
    ensures forall a, b :: 0 <= a < b < |ring| - 1 ==> Without(ring, i)[a] != Without(ring, i)[b]
  {
    if ring[0] != i {
      assert i in ring[1..];
      WithoutRing(ring[1..], i);
      assert ring[0] !in ring[1..];
    } else {
      assert i !in ring[1..];
      assert ring == [i] + ring[1..];
    }
  }

  /** brelse: a clean buffer must agree with the disk again; the list stays a permutation. */
  lemma BrelseGood(c: Cache, i: nat)
    requires Inv(c) && i < |c.bufs| && c.bufs[i].locked && c.bufs[i].tag >= 0
    requires c.bufs[i].valid && !c.bufs[i].dirty ==> c.bufs[i].tag < |c.disk| && c.bufs[i].data == c.disk[c.bufs[i].tag]
    ensures c.bufs[i].refcnt > 0
    ensures Inv(Brelse(c, i)) && SameContent(c, Brelse(c, i))
  {
    assert BufOk(c, i);
    TagOnce(c, i);
    var b := c.bufs[i].(locked := false, refcnt := c.bufs[i].refcnt - 1);
    SetInv(c, i, b);
    var d, e := SetBuf(c, i, b), Brelse(c, i);
    MoveFront(c.ring, |c.bufs|, i);
    forall j | 0 <= j < |e.bufs| ensures BufOk(e, j) { assert BufOk(d, j); }
    forall x: nat | x < |c.disk| ensures Content(c, x) == Content(e, x) {
      if x == b.tag {
        if b.valid { ContentIs(c, i); ContentIs(e, i); }
      } else {
        SetOther(c, e, i, x);
      }
    }
  }

  lemma {:induction false} WithoutAt(ring: seq<nat>, p: nat)
    requires p < |ring| && (forall i, j :: 0 <= i < j < |ring| ==> ring[i] != ring[j])
    ensures Without(ring, ring[p]) == ring[..p] + ring[p + 1..]
  {
    if p > 0 {
      WithoutAt(ring[1..], p - 1);
      assert ring[1..][..p - 1] == ring[1..p];
    }
  }

  lemma MoveFront(ring: seq<nat>, n: nat, i: nat)
    requires Ring(ring, n) && i < n
    ensures Ring([i] + Without(ring, i), n)
  {
    WithoutRing(ring, i);
    var r := [i] + Without(ring, i);
    forall k | 0 <= k < n ensures r[k] < n { assert r[k] in r; }
  }
}
