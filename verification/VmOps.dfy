/** The operations on address spaces that programs and the kernel perform, as functions on the
    memory state, each shown to do to `View` what the reference machine does. */
module VmOps {
  import opened Options
  import opened Frames
  import opened AddressSpaces
  import opened VmSpec
  import Eager

  /** Holds whenever no operation is under way: every directory belongs to an address space. */
  ghost predicate Quiet(s: State, held: multiset<nat>, nproc: nat) {
    Good(s, held) && Private(s.ptes, held) && s.sizes.Keys == s.dirs && |s.dirs| <= nproc < USHORT - 2
  }

  // ------------------------------------------------------------ fork

  /** The first line of setupkvm: a zeroed page directory. */
  function NewDir(s: State): State
    requires s.phys.free != []
  {
    var c := s.phys.free[0];
    s.(phys := s.phys.Alloc().Fill(c, ZeroPage()), dirs := s.dirs + {c})
  }

  function Setup(s: State): (State, Option<nat>) {
    if s.phys.free == [] then (s, None)
    else
      var c := s.phys.free[0];
      var (t, ok) := SetupTo(NewDir(s), c, NKMAP);
      if ok then (t, Some(c)) else (FreeVm(t, c), None)
  }

  /** fork's memory part: allocproc's limit, then cowuvm. */
  function Fork(s: State, nproc: nat, d: nat): (State, Option<nat>)
    requires d in s.sizes
  {
    if |s.sizes| >= nproc then (s, None)
    else
      var (t, r) := Setup(s);
      if r.None? then (t, None)
      else
        var c := r.value;
        var (u, ok) := CowTo(t, d, c, Eager.NPages(s.sizes[d]));
        if ok then (u.(sizes := u.sizes[c := s.sizes[d]]), Some(c)) else (FreeVm(u, c), None)
  }

  lemma NewDirGood(s: State, held: multiset<nat>)
    requires Good(s, held) && s.phys.free != []
    ensures var c := s.phys.free[0];
            && c !in s.dirs && Good(NewDir(s), held) && SamePages(s, NewDir(s))
            && c !in held && |NewDir(s).phys.free| == |s.phys.free| - 1
  {
    hide Exact, Shape, Sized, Aligned, PageAt, Count, SamePages;
    var c := s.phys.free[0];
    AllocStep(s, held);
    var t := s.(phys := s.phys.Alloc());
    FillStep(t, held + multiset{c}, c, ZeroPage());
    var u := t.(phys := t.phys.Fill(c, ZeroPage()));
    DirStep(u, held + multiset{c}, c);
    assert held + multiset{c} - multiset{c} == held;
    SamePagesTrans(s, t, u);
    SameEntries(u, NewDir(s));
    SamePagesTrans(s, u, NewDir(s));
    SizedMore(s.dirs, s.ptes, s.sizes, c);
  }

  lemma SizedMore(dirs: set<nat>, ptes: map<Slot, Pte>, sizes: map<nat, nat>, c: nat)
    requires Sized(dirs, ptes, sizes)
    ensures Sized(dirs + {c}, ptes, sizes)
  {
  }

  /** A directory that is not live owns no table and no entry. */
  lemma DeadDir(s: State, c: nat)
    requires Shape(s) && c !in s.dirs
    ensures forall v :: (c, v) !in s.ptes
    ensures forall k :: k in s.tabs ==> k.0 != c
  {
    assert forall k :: k in s.ptes ==> EntryOk(s, k);
    assert forall k :: k in s.tabs ==> TableOk(s, k);
  }

  /** Counts are a function of what is mapped: the same structures mean the same counts. */
  lemma SameStructureSameCounts(s: State, t: State, held: multiset<nat>)
    requires Exact(s, held) && Exact(t, held)
    requires s.dirs == t.dirs && s.tabs == t.tabs && s.phys.lo == t.phys.lo && |s.phys.ref| == |t.phys.ref|
    requires s.ptes.Keys == t.ptes.Keys && forall k :: k in s.ptes ==> s.ptes[k].frame == t.ptes[k].frame
    ensures s.phys.ref == t.phys.ref && |s.phys.free| == |t.phys.free|
  {
    forall f: nat | f < |s.phys.ref| ensures s.phys.ref[f] == t.phys.ref[f] {
      assert Leaves(s.ptes, f) == Leaves(t.ptes, f);
    }
    SameCountsSameFree(s.phys, t.phys);
  }

  /** Nothing is mapped differently, apart from write permissions. */
  ghost predicate SameStructure(s: State, t: State) {
    && s.dirs == t.dirs && s.tabs == t.tabs && s.sizes == t.sizes
    && s.ptes.Keys == t.ptes.Keys
    && (forall k :: k in s.ptes ==> s.ptes[k].frame == t.ptes[k].frame)
  }

  /** `t` is `s` with one new, empty directory `c`. */
  ghost predicate Built(s: State, t: State, c: nat) {
    && c !in s.dirs && SamePages(s, t)
    && t.ptes == s.ptes && t.sizes == s.sizes && t.dirs == s.dirs + {c}
    && (forall k :: k in t.tabs && k.0 != c <==> k in s.tabs)
    && (forall k :: k in s.tabs ==> t.tabs[k] == s.tabs[k])
  }

  /** setupkvm's loop, on success and on failure. */
  lemma SetupBuilt(s: State, held: multiset<nat>)
    requires Good(s, held) && s.phys.free != []
    ensures var c := s.phys.free[0];
            Good(SetupTo(NewDir(s), c, NKMAP).0, held) && Built(s, SetupTo(NewDir(s), c, NKMAP).0, c)
  {
    hide Exact, Sized, Aligned, PageAt, Count, SamePages, SetupTo, KeptFrames;
    var c := s.phys.free[0];
    NewDirGood(s, held);
    DeadDir(s, c);
    var t := NewDir(s);
    SetupGood(t, held, c, NKMAP);
    SamePagesTrans(s, t, SetupTo(t, c, NKMAP).0);
  }

  /** Dropping what was built gives back the structure there was. */
  lemma BuiltDropped(s: State, t: State, u: State, c: nat)
    requires Shape(s) && Built(s, t, c) && Dropped(t, u, c)
    ensures SameStructure(s, u) && u.ptes == s.ptes
    ensures forall a: nat, v: nat :: a in s.dirs ==> PageAt(s, a, v) == PageAt(u, a, v)
  {
    hide PageAt;
    DeadDir(s, c);
    assert forall k :: k in s.ptes ==> EntryOk(s, k);
    assert u.tabs == s.tabs;
  }

  /** setupkvm, when it succeeds, adds one directory; when it fails it puts everything back. */
  lemma SetupSome(s: State, held: multiset<nat>)
    requires Good(s, held) && Setup(s).1.Some?
    ensures Good(Setup(s).0, held) && Built(s, Setup(s).0, Setup(s).1.value)
  {
    hide Good, Built;
    SetupBuilt(s, held);
  }

  lemma SetupNone(s: State, held: multiset<nat>)
    requires Good(s, held) && Setup(s).1.None?
    ensures Good(Setup(s).0, held) && SameStructure(s, Setup(s).0) && Setup(s).0.ptes == s.ptes
    ensures forall a: nat, v: nat :: a in s.dirs ==> PageAt(s, a, v) == PageAt(Setup(s).0, a, v)
  {
    hide Exact, Shape, Aligned, PageAt, SamePages, Dropped, FreeVm, SetupTo;
    if s.phys.free != [] {
      var c := s.phys.free[0];
      SetupBuilt(s, held);
      var t := SetupTo(NewDir(s), c, NKMAP).0;
      FreeVmGood(t, held, c);
      BuiltDropped(s, t, FreeVm(t, c), c);
    }
  }

  lemma SamePage(s: State, t: State, d: nat, v: nat)
    requires SamePages(s, t)
    ensures PageAt(s, d, v) == PageAt(t, d, v)
  {
  }

  /** After cowuvm's loop, whether it finished or not. */
  lemma ForkShared(s: State, held: multiset<nat>, nproc: nat, d: nat)
    requires Quiet(s, held, nproc) && d in s.sizes && Setup(s).1.Some?
    ensures var (t, r) := Setup(s);
            var (u, ok) := CowTo(t, d, r.value, Eager.NPages(s.sizes[d]));
            && Good(t, held) && Built(s, t, r.value)
            && Good(u, held) && Kin(t, u, d, r.value)
            && (ok ==> ChildHas(u, d, r.value, Eager.NPages(s.sizes[d])))
  {
    hide Exact, Aligned, PageAt, SamePages, Kin, ChildHas, Setup, CowTo;
    SetupSome(s, held);
    var (t, r) := Setup(s);
    DeadDir(s, r.value);
    CowGood(t, held, d, r.value, Eager.NPages(s.sizes[d]));
  }

  /** A successful fork: the child's address space is the parent's, and no other changes. */
  lemma ForkView(s: State, t: State, u: State, d: nat, c: nat)
    requires d in s.sizes && s.sizes.Keys == s.dirs
    requires Built(s, t, c) && Kin(t, u, d, c) && ChildHas(u, d, c, Eager.NPages(s.sizes[d]))
    ensures View(u.(sizes := u.sizes[c := s.sizes[d]])) == Eager.Fork(View(s), d, c)
  {
    var n := Eager.NPages(s.sizes[d]);
    var w := u.(sizes := u.sizes[c := s.sizes[d]]);
    forall a | a in s.sizes ensures SpaceAt(w, a) == SpaceAt(s, a) {
      forall v: nat ensures PageAt(w, a, v) == PageAt(s, a, v) {
        SamePage(s, t, a, v);
        assert PageAt(t, a, v) == PageAt(u, a, v);
      }
    }
    forall v: nat | v < n ensures PageAt(w, c, v) == PageAt(w, d, v) {
      assert (c, v) in u.ptes <==> (d, v) in u.ptes;
    }
    assert SpaceAt(w, c).pages == SpaceAt(w, d).pages;
  }

  lemma ForkSized(s: State, t: State, u: State, held: multiset<nat>, d: nat, c: nat)
    requires d in s.sizes && c !in s.dirs && s.sizes.Keys == s.dirs && Sized(s.dirs, s.ptes, s.sizes)
    requires Built(s, t, c) && Good(u, held) && Kin(t, u, d, c) && ChildHas(u, d, c, Eager.NPages(s.sizes[d]))
    ensures Good(u.(sizes := u.sizes[c := s.sizes[d]]), held)
  {
    hide Exact, Shape, PageAt, Aligned, SamePages;
    var w := u.(sizes := u.sizes[c := s.sizes[d]]);
    SameExact(u, w, held);
    ChildSized(u, s.sizes[d], d, c);
  }

  lemma ChildSized(u: State, size: nat, d: nat, c: nat)
    requires Sized(u.dirs, u.ptes, u.sizes) && c in u.dirs && size < Eager.KERNBASE
    requires ChildHas(u, d, c, Eager.NPages(size))
    ensures Sized(u.dirs, u.ptes, u.sizes[c := size])
  {
    forall k | k in u.ptes && k.0 == c ensures k.1 * PGSIZE < size {
      assert k == (c, k.1);
    }
  }

  lemma SameExact(s: State, t: State, held: multiset<nat>)
    requires Exact(s, held) && t == s.(sizes := t.sizes)
    ensures Exact(t, held)
    ensures Shape(s) ==> Shape(t)
  {
    hide Shape;
    assert forall f :: Count(t, f) == Count(s, f);
    if Shape(s) { SameShape(s, t); }
  }

  lemma SameShape(s: State, t: State)
    requires Shape(s) && t == s.(sizes := t.sizes)
    ensures Shape(t)
  {
    assert forall k :: k in t.ptes ==> EntryOk(s, k);
    assert forall k :: k in t.tabs ==> TableOk(s, k);
  }

  /** A fork that ran out of memory half way. */
  lemma ForkUndone(s: State, t: State, u: State, w: State, d: nat, c: nat)
    requires Shape(s) && Built(s, t, c) && Kin(t, u, d, c) && Dropped(u, w, c)
    ensures SameStructure(s, w)
    ensures forall k :: k in s.ptes ==> w.ptes[k] == s.ptes[k] || (k.0 == d && w.ptes[k] == ReadOnly(s.ptes[k]))
    ensures forall a: nat, v: nat :: a in s.dirs ==> PageAt(s, a, v) == PageAt(w, a, v)
  {
    hide PageAt;
    DeadDir(s, c);
    assert forall k :: k in s.ptes ==> EntryOk(s, k);
    assert w.tabs == s.tabs;
    assert w.ptes.Keys == s.ptes.Keys;
    forall a: nat, v: nat | a in s.dirs ensures PageAt(s, a, v) == PageAt(w, a, v) {
      SamePage(s, t, a, v);
      assert PageAt(t, a, v) == PageAt(u, a, v);
    }
  }

  /** fork keeps the invariant. */
  lemma ForkQuiet(s: State, held: multiset<nat>, nproc: nat, d: nat)
    requires Quiet(s, held, nproc) && d in s.sizes
    ensures Quiet(Fork(s, nproc, d).0, held, nproc)
  {
    hide Exact, Shape, Aligned, PageAt, SamePages, Dropped, FreeVm, CowTo, SetupTo, ChildHas;
    if |s.sizes| < nproc {
      var (t, r) := Setup(s);
      if r.None? {
        SetupNone(s, held);
      } else {
        var c := r.value;
        ForkShared(s, held, nproc, d);
        var (u, ok) := CowTo(t, d, c, Eager.NPages(s.sizes[d]));
        if ok {
          ForkSized(s, t, u, held, d, c);
          PrivateKin(t, u, held, d, c, Eager.NPages(s.sizes[d]));
          assert |s.sizes| == |s.dirs|;
        } else {
          FreeVmGood(u, held, c);
          ForkUndone(s, t, u, FreeVm(u, c), d, c);
        }
      }
    }
  }

  lemma Restored(s: State, w: State, held: multiset<nat>)
    requires Exact(s, held) && Exact(w, held) && SameBank(s.phys, w.phys) && SameStructure(s, w)
    requires s.sizes.Keys <= s.dirs
    requires forall a: nat, v: nat :: a in s.dirs ==> PageAt(s, a, v) == PageAt(w, a, v)
    ensures View(w) == View(s) && w.phys.ref == s.phys.ref && |w.phys.free| == |s.phys.free|
  {
    hide Exact, PageAt, View;
    SameStructureSameCounts(s, w, held);
    SameView(s, w);
  }

  /** fork is a copy of the parent's address space: nobody can tell that pages are shared.  A
      fork that fails changes no address space and restores every reference count. */
  lemma ForkRefines(s: State, held: multiset<nat>, nproc: nat, d: nat)
    requires Quiet(s, held, nproc) && d in s.sizes
    ensures var (w, r) := Fork(s, nproc, d);
            && (r.Some? ==> r.value !in View(s) && View(w) == Eager.Fork(View(s), d, r.value))
            && (r.None? ==> View(w) == View(s) && w.phys.ref == s.phys.ref && |w.phys.free| == |s.phys.free|)
  {
    hide Exact, Shape, Sized, Aligned, PageAt, SamePages, FreeVm, CowTo, SetupTo, Kin, Dropped, SpaceAt, SameStructure;
    if |s.sizes| < nproc {
      if Setup(s).1.None? {
        SetupNone(s, held);
        SetupBankAll(s);
        Restored(s, Setup(s).0, held);
      } else if Fork(s, nproc, d).1.Some? {
        ForkShared(s, held, nproc, d);
        var t, c := Setup(s).0, Setup(s).1.value;
        ForkView(s, t, CowTo(t, d, c, Eager.NPages(s.sizes[d])).0, d, c);
      } else {
        ForkFailed(s, held, nproc, d);
      }
    }
  }

  lemma ForkFailed(s: State, held: multiset<nat>, nproc: nat, d: nat)
    requires Quiet(s, held, nproc) && d in s.sizes && |s.sizes| < nproc
    requires Setup(s).1.Some? && Fork(s, nproc, d).1.None?
    ensures var w := Fork(s, nproc, d).0;
            View(w) == View(s) && w.phys.ref == s.phys.ref && |w.phys.free| == |s.phys.free|
  {
    hide Exact, Shape, Sized, Aligned, PageAt, SamePages, FreeVm, CowTo, Setup, Kin, Dropped, View, SameStructure;
    var n := Eager.NPages(s.sizes[d]);
    var t, c := Setup(s).0, Setup(s).1.value;
    ForkShared(s, held, nproc, d);
    var u := CowTo(t, d, c, n).0;
    KinKeeps(t, u, d, c);
    FreeVmGood(u, held, c);
    ForkUndone(s, t, u, FreeVm(u, c), d, c);
    SetupBankAll(s);
    CowBank(t, d, c, n);
    FreeVmBank(u, c);
    Restored(s, FreeVm(u, c), held);
  }

  lemma KinKeeps(s: State, t: State, d: nat, c: nat)
    requires Kin(s, t, d, c)
    ensures t.dirs == s.dirs && t.sizes == s.sizes
  {
  }

  lemma SetupBankAll(s: State)
    ensures SameBank(s.phys, Setup(s).0.phys)
  {
    if s.phys.free != [] {
      var c := s.phys.free[0];
      SetupBank(NewDir(s), c, NKMAP);
      FreeVmBank(SetupTo(NewDir(s), c, NKMAP).0, c);
    }
  }
}
