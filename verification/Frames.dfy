/** Physical page frames and their allocator: kalloc.c.

    A frame is named by its number.  `Phys` is the allocator's state as a value; the
    functions on it say what each operation does, and the class `Kmem` implements them on
    the reference-count array and the linked free list. */
module Frames {

  import opened Options

  const PGSIZE: nat := 4096
  const USHORT: nat := 65536

  type Byte = b: int | 0 <= b < 256
  type Page = p: seq<Byte> | |p| == PGSIZE witness seq(PGSIZE, _ => 0)

  function ZeroPage(): Page { seq(PGSIZE, _ => 0) }
  function JunkPage(): Page { seq(PGSIZE, _ => 1) }

  /** `lo` is the first frame past the kernel image; only frames from `lo` on are managed. */
  datatype Phys = Phys(lo: nat, ref: seq<nat>, free: seq<nat>, mem: seq<Page>) {

    predicate Managed(f: nat) {
      lo <= f < |ref|
    }

    /** The free list is duplicate-free and holds exactly the managed frames without references. */
    ghost predicate Valid() {
      && |mem| == |ref|
      && (forall f: nat :: f in free <==> Managed(f) && ref[f] == 0)
      && (forall i, j :: 0 <= i < j < |free| ==> free[i] != free[j])
    }

    /** kalloc takes the head of the list; an empty list is the caller's to test. */
    function Alloc(): Phys {
      if free == [] || free[0] >= |ref| then this
      else this.(ref := ref[free[0] := 1], free := free[1..])
    }

    /** The counts are 16 bits wide. */
    function Incref(f: nat): Phys {
      if f >= |ref| then this
      else this.(ref := ref[f := (ref[f] + 1) % USHORT])
    }

    /** kfree; a frame without references is a panic. */
    function Free(f: nat): Phys {
      if f >= |ref| || f >= |mem| || ref[f] == 0 then this
      else if ref[f] > 1 then this.(ref := ref[f := ref[f] - 1])
      else Phys(lo, ref[f := 0], [f] + free, mem[f := JunkPage()])
    }

    function Fill(f: nat, p: Page): Phys {
      if f >= |mem| then this else this.(mem := mem[f := p])
    }

    lemma AllocValid()
      requires Valid() && free != []
      ensures Managed(free[0]) && ref[free[0]] == 0
      ensures Alloc().Valid()
    {
      assert free[0] in free;
      var p := Alloc();
      forall f: nat ensures f in p.free <==> p.Managed(f) && p.ref[f] == 0 {
        if f in p.free {
          var i :| 0 <= i < |p.free| && p.free[i] == f;
          assert free[i + 1] == f;
        }
        if f in free && f != free[0] {
          var i :| 0 <= i < |free| && free[i] == f;
          assert p.free[i - 1] == f;
        }
      }
    }

    /** One more reference keeps the allocator sound exactly if the 16-bit count does not wrap: a
        wrapped count says that the frame is free, and it is not on the list. */
    lemma IncrefValid(f: nat)
      requires Valid() && Managed(f) && 0 < ref[f] < USHORT
      ensures Incref(f).Valid() <==> ref[f] < USHORT - 1
    {
      var p := Incref(f);
      assert f !in p.free && p.Managed(f);
    }

    lemma FreeValid(f: nat)
      requires Valid() && Managed(f) && ref[f] > 0
      ensures Free(f).Valid()
    {
      assert f !in free;
    }
  }

  /** The frames from `b` - 1 down to `a`. */
  function Down(a: nat, b: nat): seq<nat>
    requires a <= b
  {
    seq(b - a, i => b - 1 - i)
  }

  /** The frames from `b` - 1 down to `a`, before those of `rest`. */
  function Pushed(a: nat, b: nat, rest: seq<nat>): seq<nat>
    requires a <= b
  {
    Down(a, b) + rest
  }

  lemma PushNone(a: nat, rest: seq<nat>)
    ensures Pushed(a, a, rest) == rest
  {
  }

  lemma PushNext(a: nat, p: nat, rest: seq<nat>)
    requires a <= p
    ensures p !in rest ==> p !in Pushed(a, p, rest)
    ensures Pushed(a, p + 1, rest) == [p] + Pushed(a, p, rest)
  {
  }

  lemma BelowTop(a: nat, b: nat, f: nat)
    requires a <= b <= f
    ensures f !in Pushed(a, b, [])
  {
  }

  lemma AllFree(p: Phys, mid: nat)
    requires p.lo <= mid <= |p.ref| == |p.mem| && (forall f :: 0 <= f < |p.ref| ==> p.ref[f] == 0)
    requires p.free == Pushed(mid, |p.ref|, Pushed(p.lo, mid, []))
    ensures p.Valid()
  {
    forall f: nat ensures f in p.free <==> p.Managed(f) {
      if mid <= f < |p.ref| { assert p.free[|p.ref| - 1 - f] == f; }
      if p.lo <= f < mid { assert p.free[|p.ref| - mid + (mid - 1 - f)] == f; }
    }
  }

  function Elems(s: seq<nat>): set<nat> {
    set f | f in s
  }

  lemma {:induction false} DistinctLength(s: seq<nat>)
    requires forall i, j :: 0 <= i < j < |s| ==> s[i] != s[j]
    ensures |Elems(s)| == |s|
  {
    if s != [] {
      var t, x := s[..|s| - 1], s[|s| - 1];
      DistinctLength(t);
      assert x !in Elems(t);
      assert Elems(s) == Elems(t) + {x};
    }
  }

  /** The free list of two valid states with the same counts has the same length. */
  lemma SameCountsSameFree(p: Phys, q: Phys)
    requires p.Valid() && q.Valid() && p.lo == q.lo && p.ref == q.ref
    ensures |p.free| == |q.free|
  {
    DistinctLength(p.free);
    DistinctLength(q.free);
    assert Elems(p.free) == Elems(q.free);
  }

  /** The allocator.  `next[f]` is the link kept inside the free page `f`; -1 ends the list. */
  class Kmem {
    const lo: nat
    const ref: array<nat>
    const next: array<int>
    const mem: array<Page>
    var freelist: int
    ghost var free: seq<nat>

    ghost function Snap(): Phys
      reads this, ref, mem
    {
      Phys(lo, ref[..], free, mem[..])
    }

    ghost function After(i: nat): int
      reads this
    {
      if i + 1 < |free| then free[i + 1] else -1
    }

    /** The links spell out the ghost sequence `free`. */
    ghost predicate Linked()
      reads this, next
    {
      && next.Length == ref.Length == mem.Length
      && (forall i :: 0 <= i < |free| ==> free[i] < ref.Length)
      && (forall i, j :: 0 <= i < j < |free| ==> free[i] != free[j])
      && freelist == (if free == [] then -1 else free[0])
      && (forall i :: 0 <= i < |free| ==> next[free[i]] == After(i))
    }

    /** kinit1 frees the frames that the boot page table maps, kinit2 the others. */
    constructor (lo: nat, mid: nat, nframes: nat)
      requires lo <= mid <= nframes
      ensures Linked() && Snap().Valid()
      ensures fresh(ref) && fresh(next) && fresh(mem)
      ensures this.lo == lo && ref.Length == nframes
      ensures forall f :: 0 <= f < nframes ==> ref[f] == 0
      ensures free == Pushed(mid, nframes, Pushed(lo, mid, []))
    {
      this.lo := lo;
      ref := new nat[nframes](_ => 0);
      next := new int[nframes](_ => -1);
      mem := new Page[nframes](_ => ZeroPage());
      freelist := -1;
      free := [];
      new;
      ghost var counts := ref[..];
      assert Linked();
      hide Linked, Pushed;
      Freerange(lo, mid);
      forall f | mid <= f < nframes ensures ref[f] == 0 && f !in free {
        assert ref[f] == counts[f];
        BelowTop(lo, mid, f);
      }
      Freerange(mid, nframes);
      assert forall f :: 0 <= f < nframes ==> ref[f] == counts[f];
      LinkedSizes();
      AllFree(Snap(), mid);
    }

    lemma LinkedSizes()
      requires Linked()
      ensures next.Length == ref.Length == mem.Length
    {
    }

    /** Each frame of the range is pushed once, and has no references. */
    method Freerange(start: nat, end: nat)
      requires Linked() && lo <= start <= end <= ref.Length
      requires forall f :: start <= f < end ==> ref[f] == 0 && f !in free
      modifies this, ref, next, mem
      ensures Linked() && ref[..] == old(ref[..]) && free == Pushed(start, end, old(free))
    {
      hide Linked, Pushed;
      PushNone(start, free);
      ghost var counts, list := ref[..], free;
      assert forall f :: start <= f < end ==> counts[f] == 0;
      var p := start;
      while p < end
        invariant start <= p <= end && Linked() && ref[..] == counts && free == Pushed(start, p, list)
      {
        assert ref[p] == counts[p];
        PushNext(start, p, list);
        FreeFirst(p);
        p := p + 1;
      }
    }

    /** The first time a frame is freed. */
    method FreeFirst(f: nat)
      requires Linked() && lo <= f < ref.Length && ref[f] == 0 && f !in free
      modifies this, ref, next, mem
      ensures Linked() && ref[..] == old(ref[..]) && free == [f] + old(free)
    {
      LinkedSizes();
      hide Linked, JunkPage;
      ref[f] := 1;
      Kfree(f);
    }

    /** A frame out of range, or without references, is a panic in the source. */
    method Incref(f: nat)
      requires Linked() && f < ref.Length && ref[f] > 0
      modifies ref
      ensures Linked() && Snap() == old(Snap()).Incref(f)
      ensures old(ref[f]) < USHORT - 1 ==> ref[f] == old(ref[f]) + 1
    {
      ref[f] := (ref[f] + 1) % USHORT;
    }

    /** Zero says that a managed frame is on the free list. */
    method Getref(f: nat) returns (n: nat)
      requires f < ref.Length
      ensures n == Snap().ref[f]
      ensures Snap().Valid() && lo <= f ==> (n == 0 <==> f in free)
    {
      n := ref[f];
      assert Snap().Valid() && lo <= f ==> (f in Snap().free <==> Snap().Managed(f) && Snap().ref[f] == 0);
    }

    /** A frame without references is a panic in the source, hence the precondition. */
    method Kfree(f: nat)
      requires Linked() && lo <= f < ref.Length && ref[f] > 0 && f !in free
      modifies this, ref, next, mem
      ensures Linked() && Snap() == old(Snap()).Free(f)
      ensures ref[f] == old(ref[f]) - 1 && (forall g :: 0 <= g < ref.Length && g != f ==> ref[g] == old(ref[g]))
      ensures old(ref[f]) == 1 ==> free == [f] + old(free) && forall i :: 0 <= i < PGSIZE ==> mem[f][i] == 1
      ensures old(ref[f]) > 1 ==> free == old(free) && mem[f] == old(mem[f])
    {
      ref[f] := ref[f] - 1;
      if ref[f] != 0 {
        return;
      }
      mem[f] := JunkPage();
      next[f] := freelist;
      freelist := f;
      free := [f] + free;
    }

    method Kalloc() returns (r: Option<nat>)
      requires Linked()
      modifies this, ref
      ensures Linked()
      ensures old(free) == [] ==> r == None && Snap() == old(Snap())
      ensures old(free) != [] ==> r == Some(old(free)[0]) && Snap() == old(Snap()).Alloc()
    {
      if freelist == -1 {
        return None;
      }
      var f := freelist;
      r := Some(f);
      freelist := next[f];
      ref[f] := 1;
      free := free[1..];
      assert forall i :: 0 <= i < |free| ==> free[i] == old(free)[i + 1];
      assert forall i :: 0 <= i < |free| ==> After(i) == old(After(i + 1));
    }

    /** freemem counts the list by walking its links. */
    method Freemem() returns (n: nat)
      requires Linked()
      ensures n == |free|
    {
      n := 0;
      var r := freelist;
      while r != -1
        invariant 0 <= n <= |free|
        invariant r == if n < |free| then free[n] else -1
        decreases |free| - n
      {
        assert next[free[n]] == After(n);
        r := next[r];
        n := n + 1;
      }
    }

    /** memset or memmove of a whole page. */
    method Fill(f: nat, p: Page)
      requires Linked() && f < mem.Length
      modifies mem
      ensures Linked() && Snap() == old(Snap()).Fill(f, p)
    {
      mem[f] := p;
    }
  }
}
