/** sbrk, and giving up an address space. */
module VmRun {
  import opened Params
  import opened Frames
  import opened AddressSpaces
  import opened VmSpec
  import opened VmOps
  import opened VmFaults
  import Eager

  // ------------------------------------------------------------ sbrk

  /** sys_sbrk and growproc, with the unsigned arithmetic of the source; -1 is failure.  A
      shrink to exactly zero takes growproc's error return after the pages have been freed, and
      an empty address space cannot be told from that. */
  function Sbrk(s: State, d: nat, n: int): (State, int)
    requires d in s.sizes
  {
    var size := s.sizes[d];
    if n >= 0 then
      if size + n >= Eager.KERNBASE then (s, -1) else (s.(sizes := s.sizes[d := size + n]), size)
    else
      var newsz := (size + n) % UINT;
      if newsz >= size then (s, if size == 0 then -1 else size)
      else
        var t := Shrunk(s, d, newsz);
        if newsz == 0 then (t, -1) else (t.(sizes := t.sizes[d := newsz]), size)
  }

  lemma SbrkGrow(s: State, held: multiset<nat>, nproc: nat, d: nat, size: nat)
    requires Quiet(s, held, nproc) && d in s.sizes && s.sizes[d] <= size < Eager.KERNBASE
    ensures Quiet(s.(sizes := s.sizes[d := size]), held, nproc)
    ensures View(s.(sizes := s.sizes[d := size])) == Eager.Sbrk(View(s), d, size)
  {
    hide Exact, Shape, Aligned, View, Eager.Sbrk;
    var t := s.(sizes := s.sizes[d := size]);
    SameExact(s, t, held);
    ResizeView(s, t, d, size);
  }

  /** The pages of `d` below its new size are as before, and those above the old size are blank. */
  lemma ResizeView(s: State, t: State, d: nat, size: nat)
    requires d in s.sizes && t.sizes == s.sizes[d := size]
    requires forall k :: k in s.ptes && k.0 in s.sizes ==> k.1 * PGSIZE < s.sizes[k.0]
    requires forall c: nat, v: nat :: !(c == d && Eager.NPages(size) <= v < Eager.NPages(s.sizes[d])) ==> PageAt(s, c, v) == PageAt(t, c, v)
    ensures View(t) == Eager.Sbrk(View(s), d, size)
  {
    var m, n := Eager.NPages(s.sizes[d]), Eager.NPages(size);
    forall c | c in s.sizes && c != d ensures SpaceAt(t, c) == SpaceAt(s, c) {
      assert SpaceAt(t, c).pages == SpaceAt(s, c).pages;
    }
    var want := Eager.Resize(SpaceAt(s, d), size);
    forall v: nat | v < n ensures SpaceAt(t, d).pages[v] == want.pages[v] {
      if v >= m { assert (d, v) !in s.ptes; }
    }
    assert SpaceAt(t, d).pages == want.pages;
  }

  function Shrunk(s: State, d: nat, size: nat): State
    requires d in s.sizes
  {
    DeallocTo(s, d, Eager.NPages(size), Eager.NPages(s.sizes[d]))
  }

  lemma ShrunkQuiet(s: State, held: multiset<nat>, nproc: nat, d: nat, size: nat)
    requires Quiet(s, held, nproc) && d in s.sizes && size < s.sizes[d]
    ensures Quiet(Shrunk(s, d, size), held, nproc)
    ensures Cleared(s, Shrunk(s, d, size), d, Eager.NPages(size), Eager.NPages(s.sizes[d]))
  {
    hide Good, PageAt, DeallocTo;
    DeallocGood(s, held, d, Eager.NPages(size), Eager.NPages(s.sizes[d]));
  }

  lemma SbrkShrink(s: State, held: multiset<nat>, nproc: nat, d: nat, size: nat)
    requires Quiet(s, held, nproc) && d in s.sizes && size < s.sizes[d]
    ensures var t := Shrunk(s, d, size);
            && Quiet(t.(sizes := t.sizes[d := size]), held, nproc)
            && View(t.(sizes := t.sizes[d := size])) == Eager.Sbrk(View(s), d, size)
  {
    hide Exact, Shape, Aligned, PageAt, View, Shrunk, Private;
    ShrunkQuiet(s, held, nproc, d, size);
    var t := Shrunk(s, d, size);
    var u := t.(sizes := t.sizes[d := size]);
    SameExact(t, u, held);
    ShrunkSized(s, t, d, size);
    ShrunkView(s, t, d, size);
  }

  lemma ShrunkView(s: State, t: State, d: nat, size: nat)
    requires Sized(s.dirs, s.ptes, s.sizes) && d in s.sizes && size < s.sizes[d]
    requires Cleared(s, t, d, Eager.NPages(size), Eager.NPages(s.sizes[d]))
    ensures View(t.(sizes := t.sizes[d := size])) == Eager.Sbrk(View(s), d, size)
  {
    hide View;
    ResizeView(s, t.(sizes := t.sizes[d := size]), d, size);
  }

  lemma ShrunkSized(s: State, t: State, d: nat, size: nat)
    requires Sized(s.dirs, s.ptes, s.sizes) && d in s.sizes && size < s.sizes[d]
    requires Cleared(s, t, d, Eager.NPages(size), Eager.NPages(s.sizes[d]))
    ensures Sized(t.dirs, t.ptes, t.sizes[d := size])
  {
    hide PageAt;
    forall k | k in t.ptes && k.0 == d ensures k.1 * PGSIZE < size {
      assert k.1 < Eager.NPages(s.sizes[d]);
    }
  }

  /** Every sbrk keeps the invariant. */
  lemma SbrkQuiet(s: State, held: multiset<nat>, nproc: nat, d: nat, n: int)
    requires Quiet(s, held, nproc) && d in s.sizes
    ensures Quiet(Sbrk(s, d, n).0, held, nproc)
  {
    hide Good, Private, View, Shrunk;
    var size := s.sizes[d];
    if n >= 0 {
      if size + n < Eager.KERNBASE { SbrkGrow(s, held, nproc, d, size + n); }
    } else if (size + n) % UINT < size {
      ShrunkQuiet(s, held, nproc, d, (size + n) % UINT);
      SbrkShrink(s, held, nproc, d, (size + n) % UINT);
    }
  }

  /** The reference machine's view of a shrink to exactly zero: the call fails, the size stays,
      and every page has become blank. */
  function Wiped(sp: Eager.Space): Eager.Space {
    sp.(pages := seq(|sp.pages|, _ => Eager.Blank()))
  }

  /** sbrk moves the break as the reference machine does, for every argument an int can hold,
      except a shrink to exactly zero; a request below zero or past KERNBASE changes nothing. */
  lemma SbrkRefines(s: State, held: multiset<nat>, nproc: nat, d: nat, n: int)
    requires Quiet(s, held, nproc) && d in s.sizes && -0x8000_0000 <= n < 0x8000_0000
    ensures var (t, r) := Sbrk(s, d, n);
            var size := s.sizes[d] + n;
            && (size < 0 ==> r == (if s.sizes[d] == 0 then -1 else s.sizes[d]) && View(t) == View(s))
            && (size >= Eager.KERNBASE ==> r == -1 && View(t) == View(s))
            && (0 < size < Eager.KERNBASE || n == 0 ==> r == s.sizes[d] && View(t) == Eager.Sbrk(View(s), d, size))
            && (size == 0 && n < 0 ==> r == -1 && View(t) == View(s)[d := Wiped(View(s)[d])])
  {
    hide Exact, Shape, Aligned, PageAt, Shrunk, View;
    var size := s.sizes[d] + n;
    if n >= 0 {
      if size < Eager.KERNBASE { SbrkGrow(s, held, nproc, d, size); }
    } else if size < 0 {
      assert size % UINT == size + UINT;
    } else {
      ShrunkQuiet(s, held, nproc, d, size);
      SbrkShrink(s, held, nproc, d, size);
      if size == 0 { WipedView(s, Shrunk(s, d, 0), d); }
    }
  }

  lemma WipedView(s: State, t: State, d: nat)
    requires d in s.sizes && Cleared(s, t, d, 0, Eager.NPages(s.sizes[d]))
    ensures View(t) == View(s)[d := Wiped(View(s)[d])]
  {
    forall c | c in s.sizes && c != d ensures SpaceAt(t, c) == SpaceAt(s, c) {
      assert SpaceAt(t, c).pages == SpaceAt(s, c).pages;
    }
    assert SpaceAt(t, d).pages == Wiped(SpaceAt(s, d)).pages;
  }

  // ------------------------------------------------------------ exit

  function Exit(s: State, d: nat): State {
    FreeVm(s.(sizes := s.sizes - {d}), d)
  }

  lemma ExitQuiet(s: State, held: multiset<nat>, nproc: nat, d: nat)
    requires Quiet(s, held, nproc) && d in s.sizes
    ensures Quiet(Exit(s, d), held, nproc)
    ensures Dropped(s.(sizes := s.sizes - {d}), Exit(s, d), d)
  {
    hide Exact, Shape, Aligned, PageAt, FreeVm;
    var t := s.(sizes := s.sizes - {d});
    SameExact(s, t, held);
    FreeVmGood(t, held, d);
    assert |s.dirs - {d}| <= |s.dirs|;
  }

  /** exit removes one address space and disturbs no other. */
  lemma ExitRefines(s: State, held: multiset<nat>, nproc: nat, d: nat)
    requires Quiet(s, held, nproc) && d in s.sizes
    ensures View(Exit(s, d)) == Eager.Exit(View(s), d)
  {
    hide Good, PageAt, FreeVm;
    ExitQuiet(s, held, nproc, d);
    var t := Exit(s, d);
    forall c | c in t.sizes ensures SpaceAt(t, c) == SpaceAt(s, c) {
      ExitPages(s, t, d, c);
    }
  }

  lemma ExitPages(s: State, t: State, d: nat, c: nat)
    requires Dropped(s.(sizes := s.sizes - {d}), t, d) && c in t.sizes && c != d
    ensures c in s.sizes && SpaceAt(t, c) == SpaceAt(s, c)
  {
    forall v: nat ensures PageAt(t, c, v) == PageAt(s, c, v) {
      assert PageAt(s.(sizes := s.sizes - {d}), c, v) == PageAt(t, c, v);
    }
    assert SpaceAt(t, c).pages == SpaceAt(s, c).pages;
  }
}
