/** Building a fresh address space from an image, as exec and userinit do. */
module VmExec {
  import opened Options
  import opened Frames
  import opened AddressSpaces
  import opened VmSpec
  import opened VmOps
  import opened VmFaults
  import Eager

  function AllocTo(s: State, c: nat, image: seq<Page>, n: nat): (State, bool)
    requires n <= |image|
  {
    if n == 0 then (s, true)
    else
      var (t, ok) := AllocTo(s, c, image, n - 1);
      if ok then AllocOne(t, (c, n - 1), image[n - 1]) else (t, false)
  }

  /** clearpteu on the page below the stack. */
  function ClearUser(s: State, k: Slot): State {
    if k in s.ptes then SetPte(s, k, s.ptes[k].(u := false)) else s
  }

  /** exec up to the point where the new page directory is complete; `guard` is the page made
      inaccessible.  On failure everything built so far is freed. */
  function Spawn(s: State, nproc: nat, image: seq<Page>, guard: nat): (State, Option<nat>) {
    if |s.sizes| >= nproc || |image| * PGSIZE >= Eager.KERNBASE then (s, None)
    else
      var (t, r) := Setup(s);
      if r.None? then (t, None)
      else
        var c := r.value;
        var (u, ok) := AllocTo(t, c, image, |image|);
        if ok then
          var w := ClearUser(u, (c, guard));
          (w.(sizes := w.sizes[c := |image| * PGSIZE]), Some(c))
        else (FreeVm(u, c), None)
  }

  /** Outside directory `c` nothing has changed. */
  ghost predicate Apart(s: State, t: State, c: nat) {
    && t.dirs == s.dirs && t.sizes == s.sizes
    && (forall k: Slot :: k.0 != c ==> (k in t.ptes <==> k in s.ptes))
    && (forall k: Slot :: k.0 != c && k in s.ptes ==> t.ptes[k] == s.ptes[k])
    && (forall k: Slot :: k.0 != c ==> (k in t.tabs <==> k in s.tabs))
    && (forall k: Slot :: k.0 != c && k in s.tabs ==> t.tabs[k] == s.tabs[k])
    && (forall a: nat, v: nat :: a != c ==> PageAt(s, a, v) == PageAt(t, a, v))
  }

  lemma ApartTrans(s: State, t: State, u: State, c: nat)
    requires Apart(s, t, c) && Apart(t, u, c)
    ensures Apart(s, u, c)
  {
    hide PageAt;
    forall a: nat, v: nat | a != c ensures PageAt(s, a, v) == PageAt(u, a, v) {
      assert PageAt(s, a, v) == PageAt(t, a, v);
    }
  }

  /** The entries of `c` are the first `n` pages of the image, none in a kernel-held frame. */
  ghost predicate Loaded(t: State, c: nat, image: seq<Page>, n: nat, held: multiset<nat>)
    requires n <= |image|
  {
    && (forall v: nat :: (c, v) in t.ptes <==> v < n)
    && (forall v: nat :: v < n ==> PageAt(t, c, v) == Eager.EPage(image[v], true))
    && (forall v :: (c, v) in t.ptes ==> t.ptes[(c, v)].frame !in held)
  }

  lemma AllocOneGood(s: State, held: multiset<nat>, k: Slot, p: Page)
    requires Good(s, held) && k !in s.ptes && k.0 in s.dirs && k.0 !in s.sizes && k.1 < USERTABLES * NPTENTRIES
    ensures Good(AllocOne(s, k, p).0, held)
    ensures Apart(s, AllocOne(s, k, p).0, k.0)
  {
    hide Exact, Shape, Aligned, PageAt, Count, SamePages, SamePagesBut, WalkAlloc, KeptFrames;
    ApartSelf(s, k.0);
    if s.phys.free != [] {
      var f := s.phys.free[0];
      var e := Pte(f, true, false, true);
      TakeGood(s, held, p);
      var t := Take(s, p);
      assert f in held + multiset{f};
      MapPageGood(t, held + multiset{f}, k, e);
      assert held + multiset{f} - multiset{f} == held;
      if MapPage(t, k, e).1 {
        MapPageEffect(t, held + multiset{f}, k, e);
        SameThenBut(s, t, MapPage(t, k, e).0, k);
        ApartIfBut(s, MapPage(t, k, e).0, k);
      } else {
        FreeBack(t, held, f);
        SamePagesTrans(s, t, AllocOne(s, k, p).0);
        ApartIfSame(s, AllocOne(s, k, p).0, k.0);
      }
    }
  }

  lemma ApartSelf(s: State, c: nat)
    ensures Apart(s, s, c)
  {
  }

  lemma ApartIfSame(s: State, t: State, c: nat)
    requires t.dirs == s.dirs && t.sizes == s.sizes && t.ptes == s.ptes && t.tabs == s.tabs && SamePages(s, t)
    ensures Apart(s, t, c)
  {
    hide PageAt;
  }

  lemma ApartIfBut(s: State, t: State, k: Slot)
    requires t.dirs == s.dirs && t.sizes == s.sizes && SamePagesBut(s, t, k)
    requires k in t.ptes && t.ptes == s.ptes[k := t.ptes[k]]
    requires t.tabs.Keys == s.tabs.Keys + {(k.0, k.1 / NPTENTRIES)} && forall l :: l in s.tabs ==> t.tabs[l] == s.tabs[l]
    ensures Apart(s, t, k.0)
  {
    hide PageAt;
    forall a: nat, v: nat | a != k.0 ensures PageAt(s, a, v) == PageAt(t, a, v) {
      assert (a, v) != k;
    }
  }

  ghost predicate OneMore(s: State, t: State, k: Slot, p: Page, held: multiset<nat>) {
    && k in t.ptes && t.ptes == s.ptes[k := t.ptes[k]] && t.ptes[k].frame !in held
    && SamePagesBut(s, t, k) && PageAt(t, k.0, k.1) == Eager.EPage(p, true)
  }

  lemma AllocOneLoads(s: State, held: multiset<nat>, k: Slot, p: Page)
    requires Good(s, held) && k !in s.ptes && k.0 in s.dirs && k.1 < USERTABLES * NPTENTRIES
    requires AllocOne(s, k, p).1
    ensures OneMore(s, AllocOne(s, k, p).0, k, p, held)
  {
    hide Exact, Shape, Aligned, PageAt, Count, SamePages, SamePagesBut, WalkAlloc, KeptFrames;
    var f := s.phys.free[0];
    var e := Pte(f, true, false, true);
    TakeGood(s, held, p);
    var t := Take(s, p);
    MapPageEffect(t, held + multiset{f}, k, e);
    SameThenBut(s, t, MapPage(t, k, e).0, k);
    PageIs(t, MapPage(t, k, e).0, k, f);
  }

  lemma PageIs(t: State, u: State, k: Slot, f: nat)
    requires KeptFrames(t.phys, u.phys) && f < |t.phys.ref| == |t.phys.mem| && t.phys.ref[f] > 0
    requires k in u.ptes && u.ptes[k].frame == f && u.ptes[k].u
    ensures PageAt(u, k.0, k.1) == Eager.EPage(t.phys.mem[f], true)
  {
  }

  lemma {:induction false} AllocGood(s: State, held: multiset<nat>, c: nat, image: seq<Page>, n: nat)
    requires Good(s, held) && c in s.dirs && c !in s.sizes && (forall v :: (c, v) !in s.ptes)
    requires n <= |image| <= USERTABLES * NPTENTRIES
    ensures Good(AllocTo(s, c, image, n).0, held)
    ensures Apart(s, AllocTo(s, c, image, n).0, c)
    ensures AllocTo(s, c, image, n).1 ==> Loaded(AllocTo(s, c, image, n).0, c, image, n, held)
  {
    hide Good, PageAt, AllocOne;
    if n > 0 {
      AllocGood(s, held, c, image, n - 1);
      var (t, ok) := AllocTo(s, c, image, n - 1);
      if ok {
        var u := AllocOne(t, (c, n - 1), image[n - 1]).0;
        AllocOneGood(t, held, (c, n - 1), image[n - 1]);
        ApartTrans(s, t, u, c);
        if AllocOne(t, (c, n - 1), image[n - 1]).1 {
          AllocOneLoads(t, held, (c, n - 1), image[n - 1]);
          LoadedNext(t, u, c, image, n, held);
        }
      }
    }
  }

  lemma LoadedNext(s: State, t: State, c: nat, image: seq<Page>, n: nat, held: multiset<nat>)
    requires 0 < n <= |image| && Loaded(s, c, image, n - 1, held)
    requires OneMore(s, t, (c, n - 1), image[n - 1], held)
    ensures Loaded(t, c, image, n, held)
  {
    hide PageAt;
    forall v: nat | v < n ensures PageAt(t, c, v) == Eager.EPage(image[v], true) {
      assert v < n - 1 ==> (c, v) != (c, n - 1);
    }
  }

  /** The new address space, as the reference machine sees it. */
  function ImageSpace(image: seq<Page>, guard: nat): Eager.Space {
    Eager.Space(|image| * PGSIZE, seq(|image|, (v: nat) requires v < |image| => Eager.EPage(image[v], v != guard)))
  }

  lemma ClearUserGood(s: State, held: multiset<nat>, k: Slot)
    requires Good(s, held)
    ensures Good(ClearUser(s, k), held) && Apart(s, ClearUser(s, k), k.0)
  {
    hide Exact, Sized, Aligned, PageAt, SamePages;
    ApartSelf(s, k.0);
    if k in s.ptes {
      assert EntryOk(s, k);
      FlagStep(s, held, k, s.ptes[k].(u := false));
      ApartFlag(s, ClearUser(s, k), k);
    }
  }

  lemma ApartFlag(s: State, t: State, k: Slot)
    requires t.dirs == s.dirs && t.sizes == s.sizes && t.tabs == s.tabs && SamePagesBut(s, t, k)
    requires k in t.ptes && k in s.ptes && t.ptes == s.ptes[k := t.ptes[k]]
    ensures Apart(s, t, k.0)
  {
    hide PageAt;
    forall a: nat, v: nat | a != k.0 ensures PageAt(s, a, v) == PageAt(t, a, v) {
      assert (a, v) != k;
    }
  }

  lemma SpawnView(s: State, t: State, u: State, c: nat, image: seq<Page>, guard: nat, held: multiset<nat>)
    requires s.sizes.Keys == s.dirs && Built(s, t, c) && Apart(t, u, c) && Loaded(u, c, image, |image|, held)
    requires Apart(u, ClearUser(u, (c, guard)), c) && Named(u)
    ensures var w := ClearUser(u, (c, guard));
            View(w.(sizes := w.sizes[c := |image| * PGSIZE])) == View(s)[c := ImageSpace(image, guard)]
  {
    var w := ClearUser(u, (c, guard));
    SpawnPages(u, c, image, guard, held);
    hide Loaded, ClearUser, PageAt;
    forall a: nat, v: nat | a in s.sizes ensures PageAt(w, a, v) == PageAt(s, a, v) {
      SamePage(s, t, a, v);
      assert PageAt(t, a, v) == PageAt(u, a, v) == PageAt(w, a, v);
    }
    NewView(s, w, c, image, guard);
  }

  lemma NewView(s: State, w: State, c: nat, image: seq<Page>, guard: nat)
    requires c !in s.sizes && w.sizes == s.sizes
    requires forall a: nat, v: nat :: a in s.sizes ==> PageAt(w, a, v) == PageAt(s, a, v)
    requires forall v: nat :: v < |image| ==> PageAt(w, c, v) == Eager.EPage(image[v], v != guard)
    ensures View(w.(sizes := w.sizes[c := |image| * PGSIZE])) == View(s)[c := ImageSpace(image, guard)]
  {
    var x := w.(sizes := w.sizes[c := |image| * PGSIZE]);
    forall a: nat, v: nat ensures PageAt(x, a, v) == PageAt(w, a, v) {
    }
    hide PageAt;
    forall a | a in s.sizes ensures SpaceAt(x, a) == SpaceAt(s, a) {
      assert SpaceAt(x, a).pages == SpaceAt(s, a).pages;
    }
    assert SpaceAt(x, c).pages == ImageSpace(image, guard).pages;
  }

  lemma SpawnPages(u: State, c: nat, image: seq<Page>, guard: nat, held: multiset<nat>)
    requires Loaded(u, c, image, |image|, held) && Named(u)
    ensures forall v: nat :: v < |image| ==> PageAt(ClearUser(u, (c, guard)), c, v) == Eager.EPage(image[v], v != guard)
  {
    forall v: nat | v < |image| ensures PageAt(ClearUser(u, (c, guard)), c, v) == Eager.EPage(image[v], v != guard) {
      assert PageAt(u, c, v) == Eager.EPage(image[v], true);
      assert (c, v) in u.ptes;
    }
  }

  lemma SpawnBuilt(s: State, held: multiset<nat>, image: seq<Page>)
    requires Good(s, held) && Setup(s).1.Some? && |image| * PGSIZE < Eager.KERNBASE
    requires s.sizes.Keys == s.dirs
    ensures var t, c := Setup(s).0, Setup(s).1.value;
            var (u, ok) := AllocTo(t, c, image, |image|);
            && Good(t, held) && Built(s, t, c) && Good(u, held) && Apart(t, u, c)
            && (ok ==> Loaded(u, c, image, |image|, held))
  {
    hide Exact, Sized, Aligned, PageAt, SamePages, Loaded, Setup, AllocTo, Apart;
    SetupSome(s, held);
    var t, c := Setup(s).0, Setup(s).1.value;
    DeadDir(s, c);
    AllocGood(t, held, c, image, |image|);
  }

  lemma ApartKin(s: State, t: State, d: nat, c: nat)
    requires Apart(s, t, c)
    ensures Kin(s, t, d, c)
  {
    hide PageAt;
  }

  lemma SpawnQuiet(s: State, held: multiset<nat>, nproc: nat, image: seq<Page>, guard: nat)
    requires Quiet(s, held, nproc)
    ensures Quiet(Spawn(s, nproc, image, guard).0, held, nproc)
  {
    hide Exact, Shape, Aligned, PageAt, SamePages, AllocTo, FreeVm, SetupTo, ClearUser, Loaded, Dropped, Apart;
    if |s.sizes| < nproc && |image| * PGSIZE < Eager.KERNBASE {
      if Setup(s).1.None? {
        SetupNone(s, held);
      } else {
        SpawnBuilt(s, held, image);
        var t, c := Setup(s).0, Setup(s).1.value;
        var (u, ok) := AllocTo(t, c, image, |image|);
        ApartKeeps(t, u, c);
        if ok {
          ClearUserGood(u, held, (c, guard));
          SpawnSized(s, t, u, held, c, image, guard);
        } else {
          FreeVmGood(u, held, c);
          ApartKin(t, u, c, c);
          ForkUndone(s, t, u, FreeVm(u, c), c, c);
        }
      }
    }
  }

  lemma ApartKeeps(s: State, t: State, c: nat)
    requires Apart(s, t, c)
    ensures t.dirs == s.dirs && t.sizes == s.sizes
  {
  }

  lemma SpawnSized(s: State, t: State, u: State, held: multiset<nat>, c: nat, image: seq<Page>, guard: nat)
    requires s.sizes.Keys == s.dirs && Sized(s.dirs, s.ptes, s.sizes) && Private(s.ptes, held)
    requires Built(s, t, c) && Apart(t, u, c) && Loaded(u, c, image, |image|, held) && |image| * PGSIZE < Eager.KERNBASE
    requires Good(ClearUser(u, (c, guard)), held)
    ensures var w := ClearUser(u, (c, guard));
            && Good(w.(sizes := w.sizes[c := |image| * PGSIZE]), held) && Private(w.ptes, held)
            && w.dirs == s.dirs + {c} && w.sizes == s.sizes
  {
    hide Exact, Shape, Sized, Aligned, PageAt, SamePages, Loaded, Private;
    var w := ClearUser(u, (c, guard));
    SameExact(w, w.(sizes := w.sizes[c := |image| * PGSIZE]), held);
    SpawnPrivate(t, u, held, c, image, guard);
    LoadedSized(w.dirs, u, w, c, image, held);
  }

  lemma LoadedSized(dirs: set<nat>, u: State, w: State, c: nat, image: seq<Page>, held: multiset<nat>)
    requires Sized(dirs, w.ptes, w.sizes) && c in dirs && |image| * PGSIZE < Eager.KERNBASE
    requires Loaded(u, c, image, |image|, held) && w.ptes.Keys == u.ptes.Keys
    ensures Sized(dirs, w.ptes, w.sizes[c := |image| * PGSIZE])
  {
    hide PageAt;
    forall k | k in w.ptes && k.0 == c ensures k.1 < |image| { assert k == (c, k.1) && k in u.ptes; }
  }

  lemma SpawnPrivate(t: State, u: State, held: multiset<nat>, c: nat, image: seq<Page>, guard: nat)
    requires Private(t.ptes, held) && Apart(t, u, c) && Loaded(u, c, image, |image|, held)
    ensures Private(ClearUser(u, (c, guard)).ptes, held)
    ensures ClearUser(u, (c, guard)).ptes.Keys == u.ptes.Keys
  {
    hide PageAt;
    var w := ClearUser(u, (c, guard));
    forall k | k in w.ptes ensures w.ptes[k].frame !in held {
      assert k == (k.0, k.1) && k in u.ptes;
    }
  }

  /** exec builds exactly its image, in an address space nobody else can see; when it fails,
      nothing has changed and every count is restored. */
  lemma SpawnRefines(s: State, held: multiset<nat>, nproc: nat, image: seq<Page>, guard: nat)
    requires Quiet(s, held, nproc)
    ensures var (w, r) := Spawn(s, nproc, image, guard);
            && (r.Some? ==> r.value !in View(s) && View(w) == View(s)[r.value := ImageSpace(image, guard)])
            && (r.None? ==> View(w) == View(s) && w.phys.ref == s.phys.ref && |w.phys.free| == |s.phys.free|)
  {
    hide Exact, Shape, Sized, Aligned, PageAt, SamePages, FreeVm, AllocTo, SetupTo, Kin, Dropped, SpaceAt, SameStructure, ClearUser, Loaded, Apart, ImageSpace;
    if |s.sizes| < nproc && |image| * PGSIZE < Eager.KERNBASE {
      if Setup(s).1.None? {
        SetupNone(s, held);
        SetupBankAll(s);
        Restored(s, Setup(s).0, held);
      } else {
        SpawnBuilt(s, held, image);
        var t, c := Setup(s).0, Setup(s).1.value;
        var (u, ok) := AllocTo(t, c, image, |image|);
        if ok {
          ClearUserGood(u, held, (c, guard));
          BankSizes(u, held);
          SpawnView(s, t, u, c, image, guard, held);
        } else {
          SpawnFailed(s, held, image);
        }
      }
    }
  }

  lemma {:induction false} AllocBank(s: State, c: nat, image: seq<Page>, n: nat)
    requires n <= |image|
    ensures SameBank(s.phys, AllocTo(s, c, image, n).0.phys)
  {
    hide AllocOne;
    if n > 0 {
      AllocBank(s, c, image, n - 1);
      AllocOneBank(AllocTo(s, c, image, n - 1).0, (c, n - 1), image[n - 1]);
    }
  }

  lemma AllocOneBank(s: State, k: Slot, p: Page)
    ensures SameBank(s.phys, AllocOne(s, k, p).0.phys)
  {
  }

  lemma SpawnFailed(s: State, held: multiset<nat>, image: seq<Page>)
    requires Good(s, held) && s.sizes.Keys == s.dirs && Setup(s).1.Some? && |image| * PGSIZE < Eager.KERNBASE
    ensures var t, c := Setup(s).0, Setup(s).1.value;
            var w := FreeVm(AllocTo(t, c, image, |image|).0, c);
            View(w) == View(s) && w.phys.ref == s.phys.ref && |w.phys.free| == |s.phys.free|
  {
    hide Exact, Shape, Sized, Aligned, PageAt, SamePages, FreeVm, AllocTo, Setup, Kin, Dropped, View, SameStructure, Apart, Loaded;
    var t, c := Setup(s).0, Setup(s).1.value;
    SpawnBuilt(s, held, image);
    var u := AllocTo(t, c, image, |image|).0;
    ApartKeeps(t, u, c);
    ApartKin(t, u, c, c);
    FreeVmGood(u, held, c);
    ForkUndone(s, t, u, FreeVm(u, c), c, c);
    SetupBankAll(s);
    AllocBank(t, c, image, |image|);
    FreeVmBank(u, c);
    Restored(s, FreeVm(u, c), held);
  }
}
