/** bio.c in its own form: buffers in an array, linked into a ring through next and prev with
    the list head as node `n`; the disk of memide.c, whose writes are recorded in `hist`. */
module Bio {
  import opened Options
  import opened LogDisk
  import opened BufferCache

  // ------------------------------------------------------------ the doubly linked ring

  /** The k-th node of the ring that starts and ends at `head`. */
  function Node(ring: seq<nat>, head: nat, k: int): nat {
    if 1 <= k <= |ring| then ring[k - 1] else head
  }

  /** Nodes k and k + 1 point at each other. */
  predicate Joined(ring: seq<nat>, head: nat, nx: seq<nat>, pv: seq<nat>, k: int) {
    var a, b := Node(ring, head, k), Node(ring, head, k + 1);
    a < |nx| && b < |pv| && nx[a] == b && pv[b] == a
  }

  /** next and prev spell out `ring`. */
  ghost predicate Chain(ring: seq<nat>, head: nat, nx: seq<nat>, pv: seq<nat>) {
    && (forall k :: 0 <= k <= |ring| ==> Joined(ring, head, nx, pv, k))
    && head !in ring
    && (forall i, j :: 0 <= i < j < |ring| ==> ring[i] != ring[j])
  }

  /** Taking the p-th buffer out, as brelse's first two assignments do. */
  lemma Unlink(ring: seq<nat>, head: nat, nx: seq<nat>, pv: seq<nat>, p: nat)
    requires Chain(ring, head, nx, pv) && p < |ring| && |nx| == |pv|
    ensures var b := ring[p];
            && b < |nx| && nx[b] < |pv| && pv[b] < |nx|
            && Chain(ring[..p] + ring[p + 1..], head, nx[pv[b] := nx[b]], pv[nx[b] := pv[b]])
  {
    var b, r := ring[p], ring[..p] + ring[p + 1..];
    assert Joined(ring, head, nx, pv, p) && Joined(ring, head, nx, pv, p + 1);
    assert nx[b] == Node(ring, head, p + 2) && pv[b] == Node(ring, head, p);
    var nx', pv' := nx[pv[b] := nx[b]], pv[nx[b] := pv[b]];
    forall k | 0 <= k <= |r| ensures Joined(r, head, nx', pv', k) {
      NodeDistinct(ring, head, p);
      var j := if k <= p then k else k + 1;
      assert Joined(ring, head, nx, pv, j);
      assert Node(r, head, k) == Node(ring, head, j);
      assert Node(r, head, k + 1) == Node(ring, head, if k < p then k + 1 else k + 2);
    }
  }

  lemma NodeDistinct(ring: seq<nat>, head: nat, p: nat)
    requires head !in ring && (forall i, j :: 0 <= i < j < |ring| ==> ring[i] != ring[j])
    ensures forall i, j :: 0 <= i < j <= |ring| ==> Node(ring, head, i) != Node(ring, head, j)
    ensures forall i, j :: 0 < i < j <= |ring| + 1 ==> Node(ring, head, i) != Node(ring, head, j)
  {
  }

  /** Putting a buffer at the front, as binit and the rest of brelse do. */
  lemma PushFront(ring: seq<nat>, head: nat, nx: seq<nat>, pv: seq<nat>, b: nat)
    requires Chain(ring, head, nx, pv) && b !in ring && b != head && b < |nx| == |pv|
    ensures head < |nx| && nx[head] < |pv|
    ensures Chain([b] + ring, head, nx[b := nx[head]][head := b], pv[b := head][nx[head] := b])
  {
    assert Joined(ring, head, nx, pv, 0);
    assert nx[head] == Node(ring, head, 1);
    var r, nx', pv' := [b] + ring, nx[b := nx[head]][head := b], pv[b := head][nx[head] := b];
    forall k | 0 <= k <= |r| ensures Joined(r, head, nx', pv', k) {
      NodeDistinct(ring, head, 0);
      assert k >= 1 ==> Joined(ring, head, nx, pv, k - 1);
      assert k >= 1 ==> Node(r, head, k + 1) == Node(ring, head, k);
      assert k >= 2 ==> Node(r, head, k) == Node(ring, head, k - 1);
    }
  }

  class Bcache {
    const n: nat
    const bufs: array<Buf>
    const next: array<nat>
    const prev: array<nat>
    const disk: array<Block>
    ghost var ring: seq<nat>
    ghost var hist: seq<Disk>

    ghost function Snap(): Cache
      reads this, bufs, disk
    {
      Cache(bufs[..], ring, disk[..])
    }

    ghost predicate Linked()
      reads this, next, prev
    {
      bufs.Length == n && next != prev && next.Length == prev.Length == n + 1 && Ring(ring, n) && Chain(ring, n, next[..], prev[..])
    }

    ghost predicate Valid()
      reads this, bufs, next, prev, disk
    {
      bufs.Length == n && Linked() && Inv(Snap())
    }

    /** binit: every buffer is put at the front in turn. */
    constructor (n: nat, image: Disk)
      ensures Valid() && disk[..] == image && hist == [] && this.n == n
      ensures fresh(bufs) && fresh(next) && fresh(prev) && fresh(disk)
      ensures forall i :: 0 <= i < n ==> !bufs[i].dirty && !bufs[i].locked && bufs[i].refcnt == 0
    {
      this.n := n;
      var zero: Block := seq(NWORDS, _ => 0);
      bufs := new Buf[n](_ => Buf(-1, false, false, false, 0, zero));
      next := new nat[n + 1](_ => n);
      prev := new nat[n + 1](_ => n);
      disk := new Block[|image|]((i: nat) requires i < |image| => image[i]);
      ring, hist := [], [];
      new;
      LinkAll();
      assert forall i :: 0 <= i < |bufs[..]| ==> BufOk(Snap(), i);
      assert disk[..] == image;
    }

    method LinkAll()
      requires next != prev && next.Length == prev.Length == n + 1 && bufs.Length == n && ring == []
      requires forall i :: 0 <= i <= n ==> next[i] == n && prev[i] == n
      modifies this`ring, next, prev
      ensures Linked()
    {
      var b := 0;
      assert Joined(ring, n, next[..], prev[..], 0);
      while b < n
        invariant 0 <= b <= n && |ring| == b && (forall i :: 0 <= i < b ==> ring[i] == b - 1 - i)
        invariant Chain(ring, n, next[..], prev[..])
      {
        Insert(b);
        b := b + 1;
      }
      forall i: nat | i < n ensures i in ring {
        assert ring[n - 1 - i] == i;
      }
    }

    method Insert(b: nat)
      requires next != prev && next.Length == prev.Length == n + 1 && b < n && b !in ring
      requires Chain(ring, n, next[..], prev[..])
      modifies this`ring, next, prev
      ensures ring == [b] + old(ring) && Chain(ring, n, next[..], prev[..])
    {
      PushFront(ring, n, next[..], prev[..], b);
      next[b] := next[n];
      prev[b] := n;
      prev[next[n]] := b;
      next[n] := b;
      assert next[..] == old(next[..])[b := old(next[n])][n := b];
      assert prev[..] == old(prev[..])[b := n][old(next[n]) := b];
      ring := [b] + ring;
    }

    method Remove(b: nat)
      requires next != prev && next.Length == prev.Length == n + 1 && b in ring
      requires Chain(ring, n, next[..], prev[..])
      modifies this`ring, next, prev
      ensures ring == Without(old(ring), b) && Chain(ring, n, next[..], prev[..])
    {
      ghost var p :| 0 <= p < |ring| && ring[p] == b;
      Unlink(ring, n, next[..], prev[..], p);
      WithoutAt(ring, p);
      prev[next[b]] := prev[b];
      next[prev[b]] := next[b];
      assert next[..] == old(next[..])[old(prev[b]) := old(next[b])];
      assert prev[..] == old(prev[..])[old(next[b]) := old(prev[b])];
      ring := Without(ring, b);
    }

    /** The forward search of bget. */
    method Find(blockno: nat) returns (r: Option<nat>)
      requires Valid()
      ensures r == FindFrom(Snap(), blockno, 0)
    {
      var b := next[n];
      ghost var k := 0;
      assert Joined(ring, n, next[..], prev[..], 0);
      while b != n
        invariant 0 <= k <= n && b == Node(ring, n, k + 1)
        invariant FindFrom(Snap(), blockno, k) == FindFrom(Snap(), blockno, 0)
        decreases n - k
      {
        if bufs[b].tag == blockno {
          return Some(b);
        }
        assert Joined(ring, n, next[..], prev[..], k + 1);
        b := next[b];
        k := k + 1;
      }
      assert k == n;
      return None;
    }

    /** The backward search of bget. */
    method FindIdle() returns (r: Option<nat>)
      requires Valid()
      ensures r == IdleBefore(Snap(), n)
    {
      var b := prev[n];
      ghost var k := n;
      assert Joined(ring, n, next[..], prev[..], n);
      while b != n
        invariant 0 <= k <= n && b == Node(ring, n, k)
        invariant IdleBefore(Snap(), k) == IdleBefore(Snap(), n)
        decreases k
      {
        if Idle(bufs[b]) {
          return Some(b);
        }
        assert Joined(ring, n, next[..], prev[..], k - 1);
        b := prev[b];
        k := k - 1;
      }
      assert k == 0;
      return None;
    }

    method Bget(blockno: nat) returns (r: Option<nat>)
      requires Valid()
      modifies bufs
      ensures Linked() && (Snap(), r) == BufferCache.Bget(old(Snap()), blockno)
    {
      FindFromGood(Snap(), blockno, 0);
      IdleBeforeGood(Snap(), n);
      r := Find(blockno);
      if r.Some? {
        bufs[r.value] := bufs[r.value].(refcnt := bufs[r.value].refcnt + 1, locked := true);
        return;
      }
      r := FindIdle();
      if r.Some? {
        bufs[r.value] := Buf(blockno, false, false, true, 1, bufs[r.value].data);
      }
    }

    /** The buffer for a block that nobody else has locked. */
    method Bread(blockno: nat) returns (r: Option<nat>)
      requires Valid() && blockno < disk.Length && Unlocked(Snap(), blockno)
      modifies bufs
      ensures Valid() && (Snap(), r) == BufferCache.Bread(old(Snap()), blockno)
      ensures r.Some? ==> ReadBy(old(Snap()), Snap(), blockno, r.value)
      ensures r.None? ==> Snap() == old(Snap()) && IdleSet(Snap()) == {}
      ensures SameContent(old(Snap()), Snap())
    {
      hide Inv, Ring, Chain, SameContent, ReadBy, FindFrom, IdleBefore;
      ghost var c := Snap();
      BreadGood(c, blockno);
      r := Bget(blockno);
      BgetIn(c, blockno);
      if r.Some? && !bufs[r.value].valid {
        bufs[r.value] := bufs[r.value].(valid := true, data := disk[blockno]);
      }
    }

    method SetData(i: nat, data: Block)
      requires Valid() && i < n && bufs[i].locked && bufs[i].valid && bufs[i].tag >= 0
      modifies bufs
      ensures Valid() && Snap() == BufferCache.SetData(old(Snap()), i, data)
    {
      hide Ring, Chain;
      SetDataGood(Snap(), i, data);
      bufs[i] := bufs[i].(data := data);
    }

    /** The flag that keeps a buffer from being recycled. */
    method SetDirty(i: nat)
      requires Valid() && i < n && Inv(Pin(Snap(), i))
      modifies bufs
      ensures Valid() && Snap() == Pin(old(Snap()), i) && bufs[i].tag == old(bufs[i].tag)
    {
      hide Ring, Chain, Inv;
      ghost var c := Snap();
      bufs[i] := bufs[i].(dirty := true);
      assert Snap() == Pin(c, i);
    }

    /** One atomic block write; it is the only thing that changes the disk. */
    method Bwrite(i: nat)
      requires Valid() && i < n && bufs[i].locked && bufs[i].valid && bufs[i].tag >= 0
      modifies this`hist, bufs, disk
      ensures bufs[i].tag == old(bufs[i].tag) && bufs[i].tag < disk.Length
      ensures Valid() && Snap() == BufferCache.Bwrite(old(Snap()), i)
      ensures SameContent(old(Snap()), Snap()) && hist == old(hist) + [disk[..]]
    {
      hide Ring, Chain, SameContent;
      ghost var c := Snap();
      BwriteGood(c, i);
      disk[bufs[i].tag] := bufs[i].data;
      bufs[i] := bufs[i].(valid := true, dirty := false);
      hist := hist + [disk[..]];
      assert Snap() == BufferCache.Bwrite(c, i);
    }

    method Brelse(i: nat)
      requires Valid() && i < n && bufs[i].locked && bufs[i].tag >= 0
      requires bufs[i].valid && !bufs[i].dirty ==> bufs[i].tag < disk.Length && bufs[i].data == disk[bufs[i].tag]
      modifies this`ring, bufs, next, prev
      ensures old(Snap()).bufs[i].refcnt > 0
      ensures Valid() && Snap() == BufferCache.Brelse(old(Snap()), i)
      ensures SameContent(old(Snap()), Snap())
    {
      hide SameContent, Ring;
      ghost var c := Snap();
      BrelseGood(c, i);
      bufs[i] := bufs[i].(locked := false, refcnt := bufs[i].refcnt - 1);
      if bufs[i].refcnt == 0 {
        InRing(ring, n, i);
        WithoutRing(ring, i);
        Remove(i);
        Insert(i);
      }
    }
  }

  lemma InRing(ring: seq<nat>, n: nat, i: nat)
    requires Ring(ring, n) && i < n
    ensures i in ring && forall a, b :: 0 <= a < b < |ring| ==> ring[a] != ring[b]
  {
  }

  lemma BgetIn(c: Cache, b: nat)
    requires Inv(c)
    ensures BufferCache.Bget(c, b).1.Some? ==> BufferCache.Bget(c, b).1.value < |c.bufs|
  {
    FindFromGood(c, b, 0);
    IdleBeforeGood(c, |c.ring|);
  }
}
