/** Which buffer bget recycles: the idle one whose last release is the longest ago. */
module BufferLru {
  import opened Options
  import opened LogDisk
  import opened BufferCache
  import opened LogCopy

  /** A cache with the time of each buffer's last release, 0 before the first. */
  datatype Stamped = Stamped(c: Cache, last: seq<nat>, now: nat)

  datatype Step = Read(b: nat) | Change(i: nat, data: Block) | Write(i: nat) | Dirty(i: nat) | Release(i: nat)

  predicate Holds(c: Cache, i: nat) {
    i < |c.bufs| && c.bufs[i].locked && c.bufs[i].tag >= 0
  }

  /** bread of a block that is not locked, and what the holder of a buffer may do to it. */
  ghost predicate Enabled(s: Stamped, v: Step) {
    match v
    case Read(b) => b < |s.c.disk| && Unlocked(s.c, b)
    case Change(i, _) => Holds(s.c, i) && s.c.bufs[i].valid
    case Write(i) => Holds(s.c, i) && s.c.bufs[i].valid
    case Dirty(i) => Holds(s.c, i) && s.c.bufs[i].valid
    case Release(i) =>
      Holds(s.c, i) && (s.c.bufs[i].valid && !s.c.bufs[i].dirty ==> s.c.bufs[i].tag < |s.c.disk| && s.c.bufs[i].data == s.c.disk[s.c.bufs[i].tag])
  }

  ghost predicate Sound(s: Stamped) {
    Inv(s.c) && |s.last| == |s.c.bufs|
  }

  /** A release of the last reference is noted. */
  ghost function Apply(s: Stamped, v: Step): Stamped
    requires Sound(s) && Enabled(s, v)
  {
    match v
    case Read(b) => s.(c := Bread(s.c, b).0)
    case Change(i, data) => s.(c := SetData(s.c, i, data))
    case Write(i) => BwriteGood(s.c, i); s.(c := Bwrite(s.c, i))
    case Dirty(i) => s.(c := Pin(s.c, i))
    case Release(i) =>
      BrelseGood(s.c, i);
      if s.c.bufs[i].refcnt == 1 then Stamped(Brelse(s.c, i), s.last[i := s.now], s.now + 1) else s.(c := Brelse(s.c, i))
  }

  /** The list goes from the last released to the first. */
  ghost predicate Sorted(s: Stamped) {
    && Sound(s)
    && (forall i :: 0 <= i < |s.last| ==> s.last[i] < s.now)
    && (forall k, l :: 0 <= k < l < |s.c.ring| ==> s.last[s.c.ring[l]] <= s.last[s.c.ring[k]])
  }

  lemma StepKeeps(s: Stamped, v: Step)
    requires Sorted(s) && Enabled(s, v)
    ensures Sorted(Apply(s, v))
  {
    match v
    case Read(b) => ReadKeeps(s, b);
    case Change(i, data) => SetDataGood(s.c, i, data); SameRing(s, Apply(s, v));
    case Write(i) => BwriteGood(s.c, i); SameRing(s, Apply(s, v));
    case Dirty(i) => PinGood(s.c, i); SameRing(s, Apply(s, v));
    case Release(i) => ReleaseKeeps(s, i);
  }

  lemma SameRing(s: Stamped, t: Stamped)
    requires Sorted(s) && Inv(t.c) && t.c.ring == s.c.ring && t.last == s.last && t.now == s.now && |t.c.bufs| == |s.c.bufs|
    ensures Sorted(t)
  {
    hide Inv;
  }

  lemma ReadKeeps(s: Stamped, b: nat)
    requires Sorted(s) && Enabled(s, Read(b))
    ensures Sorted(Apply(s, Read(b)))
  {
    BreadGood(s.c, b);
    hide Inv, FindFrom, IdleBefore, SameContent, ReadBy;
    SameRing(s, Apply(s, Read(b)));
  }

  lemma ReleaseKeeps(s: Stamped, i: nat)
    requires Sorted(s) && Enabled(s, Release(i))
    ensures Sorted(Apply(s, Release(i)))
  {
    BrelseGood(s.c, i);
    var t, ring := Apply(s, Release(i)), s.c.ring;
    if s.c.bufs[i].refcnt == 1 {
      assert i in ring;
      var m :| 0 <= m < |ring| && ring[m] == i;
      WithoutAt(ring, m);
      assert t.c.ring == [i] + (ring[..m] + ring[m + 1..]);
      hide Inv, Without, Brelse;
      MovedSorted(ring, s.last, m, s.now);
    } else {
      SameRing(s, t);
    }
  }

  predicate Falls(ring: seq<nat>, last: seq<nat>) {
    && (forall k :: 0 <= k < |ring| ==> ring[k] < |last|)
    && (forall k, l :: 0 <= k < l < |ring| ==> last[ring[l]] <= last[ring[k]])
  }

  /** The one that is released comes first. */
  lemma MovedSorted(ring: seq<nat>, last: seq<nat>, m: nat, now: nat)
    requires Falls(ring, last) && m < |ring| && (forall k :: 0 <= k < |last| ==> last[k] < now)
    requires forall k, l :: 0 <= k < l < |ring| ==> ring[k] != ring[l]
    ensures Falls([ring[m]] + (ring[..m] + ring[m + 1..]), last[ring[m] := now])
  {
    var r, p := [ring[m]] + (ring[..m] + ring[m + 1..]), last[ring[m] := now];
    forall k | 0 < k < |r| ensures r[k] == ring[if k <= m then k - 1 else k] && p[r[k]] == last[r[k]] { }
  }

  // ------------------------------------------------------------ every run

  ghost predicate Possible(s: Stamped, vs: seq<Step>)
    decreases |vs|
  {
    Sound(s) && (vs == [] || (Enabled(s, vs[0]) && Possible(Apply(s, vs[0]), vs[1..])))
  }

  ghost function Run(s: Stamped, vs: seq<Step>): Stamped
    requires Possible(s, vs)
    decreases |vs|
  {
    if vs == [] then s else Run(Apply(s, vs[0]), vs[1..])
  }

  lemma {:induction false} RunKeeps(s: Stamped, vs: seq<Step>)
    requires Sorted(s) && Possible(s, vs)
    ensures Sorted(Run(s, vs))
    decreases |vs|
  {
    hide Sorted, Apply, Enabled;
    if vs != [] {
      StepKeeps(s, vs[0]);
      RunKeeps(Apply(s, vs[0]), vs[1..]);
    }
  }

  /** After any operations on the cache, a block that is not in it gets a buffer that nobody refers to
      and that is not pinned, of those the one whose last release is the longest ago; there is none
      only if all are referred to or pinned.  A block that is in the cache keeps its buffer. */
  lemma LeastRecentlyUsed(c: Cache, vs: seq<Step>, b: nat)
    requires Inv(c) && Possible(Fresh(c), vs)
    ensures var s := Run(Fresh(c), vs);
            && Inv(s.c) && |s.last| == |s.c.bufs|
            && var r := Bget(s.c, b).1;
            && (forall i: nat :: i < |s.c.bufs| && s.c.bufs[i].tag == b ==> r == Some(i))
            && ((forall i: nat :: i < |s.c.bufs| ==> s.c.bufs[i].tag != b) ==>
                  match r
                  case None => forall j: nat :: j < |s.c.bufs| ==> s.c.bufs[j].refcnt > 0 || s.c.bufs[j].dirty
                  case Some(i) =>
                    && i < |s.c.bufs| && s.c.bufs[i].refcnt == 0 && !s.c.bufs[i].dirty
                    && forall j: nat :: j < |s.c.bufs| && s.c.bufs[j].refcnt == 0 && !s.c.bufs[j].dirty ==> s.last[i] <= s.last[j])
  {
    StartSorted(c);
    RunKeeps(Fresh(c), vs);
    hide Possible, Run, Fresh;
    var s := Run(Fresh(c), vs);
    FindFromGood(s.c, b, 0);
    var hit := FindFrom(s.c, b, 0);
    if hit.Some? {
      TagOnce(s.c, hit.value);
    } else {
      Missing(s.c, b);
      OldestIdle(s);
    }
  }

  lemma StartSorted(c: Cache)
    requires Inv(c)
    ensures Sorted(Fresh(c))
  {
  }

  lemma OldestIdle(s: Stamped)
    requires Sorted(s)
    ensures match IdleBefore(s.c, |s.c.ring|)
            case None => forall j: nat :: j < |s.c.bufs| ==> !Idle(s.c.bufs[j])
            case Some(i) => i < |s.c.bufs| && Idle(s.c.bufs[i]) && forall j: nat :: j < |s.c.bufs| && Idle(s.c.bufs[j]) ==> s.last[i] <= s.last[j]
  {
    var n := |s.c.ring|;
    IdleBeforeGood(s.c, n);
    var r := IdleBefore(s.c, n);
    var m := LastIdle(s.c, n);
    hide IdleBefore;
    forall j: nat | j < |s.c.bufs| && Idle(s.c.bufs[j]) ensures r.Some? && s.last[r.value] <= s.last[j] {
      assert j in s.c.ring;
      var l :| 0 <= l < n && s.c.ring[l] == j;
      assert r.Some? && l <= m;
    }
  }

  /** The backward search stops at the last idle buffer of the list. */
  lemma {:induction false} LastIdle(c: Cache, k: nat) returns (m: nat)
    requires k <= |c.ring| && forall i :: 0 <= i < |c.ring| ==> c.ring[i] < |c.bufs|
    ensures IdleBefore(c, k).Some? ==> m < k && c.ring[m] == IdleBefore(c, k).value && forall l :: m < l < k ==> !Idle(c.bufs[c.ring[l]])
  {
    if k == 0 || Idle(c.bufs[c.ring[k - 1]]) {
      m := if k == 0 then 0 else k - 1;
    } else {
      m := LastIdle(c, k - 1);
    }
  }

  /** Nothing has been released yet. */
  function Fresh(c: Cache): Stamped {
    Stamped(c, seq(|c.bufs|, _ => 0), 1)
  }
}
