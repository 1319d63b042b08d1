/** How many free frames fork, exec and a memory access take, and that each of them fails for
    want of memory exactly when there are fewer. */
module VmCost {
  import opened Options
  import opened Frames
  import opened AddressSpaces
  import opened VmSpec
  import opened VmOps
  import opened VmFaults
  import opened VmExec
  import Eager

  // ------------------------------------------------------------ setupkvm

  /** Directory `c` has page-table pages for kernel addresses only. */
  predicate NoUserTables(s: State, c: nat) {
    forall k :: k in s.tabs && k.0 == c ==> k.1 >= USERTABLES
  }

  lemma {:induction false} SetupOk(s: State, held: multiset<nat>, d: nat, n: nat)
    requires Good(s, held) && d in s.dirs && n <= NKMAP && (forall k :: k in s.tabs ==> k.0 != d)
    ensures SetupTo(s, d, n).1 <==> |s.phys.free| >= n
    ensures SetupTo(s, d, n).1 ==> |SetupTo(s, d, n).0.phys.free| == |s.phys.free| - n
  {
    hide Good, Grown, WalkAlloc, Kmap, KmapTables;
    if n > 0 {
      SetupOk(s, held, d, n - 1);
      if SetupTo(s, d, n - 1).1 {
        var t := SetupTo(s, d, n - 1).0;
        SetupGood(s, held, d, n - 1);
        SetupTables(s, held, d, n - 1);
        KmapNew(d, n - 1);
        KmapBound(n - 1);
        WalkOk(t, held, d, Kmap(n - 1));
      }
    }
  }

  lemma KmapNew(d: nat, n: nat)
    requires n < NKMAP
    ensures (d, Kmap(n)) !in KmapTables(d, n)
  {
  }

  lemma WalkOk(s: State, held: multiset<nat>, d: nat, i: nat)
    requires Good(s, held) && (d, i) !in s.tabs
    ensures WalkAlloc(s, d, i).1 <==> |s.phys.free| >= 1
    ensures WalkAlloc(s, d, i).1 ==> |WalkAlloc(s, d, i).0.phys.free| == |s.phys.free| - 1
  {
    hide Exact, Shape, Sized, Aligned;
    if s.phys.free != [] { NewTableKept(s, held, (d, i)); }
  }

  /** setupkvm takes a directory and the kernel's page-table pages, or puts everything back. */
  lemma SetupExact(s: State, held: multiset<nat>)
    requires Good(s, held)
    ensures Setup(s).1.Some? <==> |s.phys.free| >= 1 + NKMAP
    ensures Setup(s).1.Some? ==> |Setup(s).0.phys.free| == |s.phys.free| - 1 - NKMAP && NoUserTables(Setup(s).0, Setup(s).1.value)
  {
    hide Exact, Sized, Aligned, PageAt, SamePages, SetupTo, KmapTables, FreeVm;
    if s.phys.free != [] {
      var c := s.phys.free[0];
      NewDirGood(s, held);
      DeadDir(s, c);
      SetupOk(NewDir(s), held, c, NKMAP);
      if Setup(s).1.Some? {
        SetupTables(NewDir(s), held, c, NKMAP);
        KmapHigh(c);
      }
    }
  }

  lemma KmapHigh(c: nat)
    ensures forall k :: k in KmapTables(c, NKMAP) ==> k.1 >= USERTABLES
  {
  }

  // ------------------------------------------------------------ fork

  /** The 4 MB regions in which `d` has a page below page `n`. */
  function Regions(ptes: map<Slot, Pte>, d: nat, n: nat): set<nat> {
    set v | 0 <= v < n && (d, v) in ptes :: v / NPTENTRIES
  }

  lemma RegionsNext(ptes: map<Slot, Pte>, d: nat, n: nat)
    requires n > 0
    ensures Regions(ptes, d, n) == Regions(ptes, d, n - 1) + if (d, n - 1) in ptes then {(n - 1) / NPTENTRIES} else {}
  {
  }

  /** The user page-table pages of `c` are those of `regions`. */
  predicate UserTables(s: State, c: nat, regions: set<nat>) {
    forall i :: 0 <= i < USERTABLES ==> ((c, i) in s.tabs <==> i in regions)
  }

  lemma CowOneOk(s: State, held: multiset<nat>, d: nat, c: nat, v: nat)
    requires Good(s, held) && |s.dirs| < USHORT - 1 && Private(s.ptes, held)
    requires d in s.dirs && c in s.dirs && c != d && (c, v) !in s.ptes && v < USERTABLES * NPTENTRIES
    ensures var (t, ok) := CowOne(s, d, c, v);
            var more := if (d, v) in s.ptes && (c, v / NPTENTRIES) !in s.tabs then 1 else 0;
            && (ok <==> |s.phys.free| >= more)
            && (ok ==> |t.phys.free| == |s.phys.free| - more)
            && (ok ==> t.tabs.Keys == s.tabs.Keys + if (d, v) in s.ptes then {(c, v / NPTENTRIES)} else {})
  {
    hide Exact, Shape, Sized, Aligned, PageAt, Count, SamePages, WalkAlloc, MapPage;
    if (d, v) in s.ptes {
      ShareGood(s, held, d, v);
      var e := ReadOnly(s.ptes[(d, v)]);
      var t := SetPte(s, (d, v), e);
      var u := t.(phys := t.phys.Incref(e.frame));
      MapPageOk(u, (c, v), e);
      if MapPage(u, (c, v), e).1 {
        MapPageEffect(u, held + multiset{e.frame}, (c, v), e);
        OneMoreKey(s.tabs, MapPage(u, (c, v), e).0.tabs, (c, v / NPTENTRIES));
      }
    } else {
      assert s.tabs.Keys == s.tabs.Keys + {};
    }
  }

  lemma OneMoreKey(a: map<Slot, nat>, b: map<Slot, nat>, k: Slot)
    requires b.Keys == a.Keys + {k}
    ensures |b| == |a| + if k in a then 0 else 1
  {
    assert |b| == |b.Keys| && |a| == |a.Keys|;
    if k in a { assert b.Keys == a.Keys; }
  }

  lemma {:induction false} CowOk(s: State, held: multiset<nat>, d: nat, c: nat, n: nat)
    requires Good(s, held) && |s.dirs| < USHORT - 1 && Private(s.ptes, held) && NoUserTables(s, c)
    requires d in s.dirs && c in s.dirs && c != d && c !in s.sizes && (forall v :: (c, v) !in s.ptes)
    requires n <= USERTABLES * NPTENTRIES
    ensures CowTo(s, d, c, n).1 <==> |s.phys.free| >= |Regions(s.ptes, d, n)|
    ensures CowTo(s, d, c, n).1 ==>
              && |CowTo(s, d, c, n).0.phys.free| == |s.phys.free| - |Regions(s.ptes, d, n)|
              && UserTables(CowTo(s, d, c, n).0, c, Regions(s.ptes, d, n))
  {
    hide Good, Private, CowOne, Kin, ChildHas, Regions, UserTables;
    if n == 0 {
      NoRegions(s, d, c);
    } else {
      CowOk(s, held, d, c, n - 1);
      RegionsNext(s.ptes, d, n);
      MoreRegions(Regions(s.ptes, d, n - 1), (n - 1) / NPTENTRIES);
      if CowTo(s, d, c, n - 1).1 {
        var t := CowTo(s, d, c, n - 1).0;
        CowGood(s, held, d, c, n - 1);
        PrivateKin(s, t, held, d, c, n - 1);
        CowOneOk(t, held, d, c, n - 1);
        KinEntry(s, t, d, c, n - 1);
        TableKnown(t, c, Regions(s.ptes, d, n - 1), n - 1);
        if CowOne(t, d, c, n - 1).1 {
          UserTablesNext(t, CowOne(t, d, c, n - 1).0, c, Regions(s.ptes, d, n - 1), if (d, n - 1) in s.ptes then {(n - 1) / NPTENTRIES} else {});
        }
      }
    }
  }

  lemma NoRegions(s: State, d: nat, c: nat)
    requires NoUserTables(s, c)
    ensures Regions(s.ptes, d, 0) == {} && UserTables(s, c, {})
  {
  }

  lemma MoreRegions(a: set<nat>, x: nat)
    ensures |a| <= |a + {x}| == |a| + (if x in a then 0 else 1)
    ensures a + {} == a
  {
    if x in a { assert a + {x} == a; }
  }

  lemma TableKnown(s: State, c: nat, regions: set<nat>, v: nat)
    requires UserTables(s, c, regions) && v < USERTABLES * NPTENTRIES
    ensures (c, v / NPTENTRIES) in s.tabs <==> v / NPTENTRIES in regions
  {
  }

  lemma UserTablesNext(s: State, t: State, c: nat, regions: set<nat>, more: set<nat>)
    requires UserTables(s, c, regions) && |more| <= 1
    requires forall k :: k in t.tabs <==> k in s.tabs || (k.0 == c && k.1 in more)
    ensures UserTables(t, c, regions + more)
  {
  }

  lemma KinEntry(s: State, t: State, d: nat, c: nat, v: nat)
    requires Kin(s, t, d, c) && c != d
    ensures (d, v) in t.ptes <==> (d, v) in s.ptes
  {
  }

  /** A child costs a page directory, the kernel's tables and one page-table page for each region
      in which the parent has a page.  No frame is taken for a user page. */
  function ForkNeeds(s: State, d: nat): nat
    requires d in s.sizes
  {
    1 + NKMAP + |Regions(s.ptes, d, Eager.NPages(s.sizes[d]))|
  }

  /** fork succeeds exactly when there is a slot and that many frames are free, and takes them. */
  lemma ForkExact(s: State, held: multiset<nat>, nproc: nat, d: nat)
    requires Quiet(s, held, nproc) && d in s.sizes
    ensures VmOps.Fork(s, nproc, d).1.Some? <==> |s.sizes| < nproc && |s.phys.free| >= ForkNeeds(s, d)
    ensures VmOps.Fork(s, nproc, d).1.Some? ==> |VmOps.Fork(s, nproc, d).0.phys.free| == |s.phys.free| - ForkNeeds(s, d)
  {
    hide Exact, Aligned, PageAt, SamePages, CowTo, Setup, Regions, NoUserTables, FreeVm;
    if |s.sizes| < nproc {
      SetupExact(s, held);
      if Setup(s).1.Some? {
        SetupSome(s, held);
        var t, c := Setup(s).0, Setup(s).1.value;
        DeadDir(s, c);
        CowOk(t, held, d, c, Eager.NPages(s.sizes[d]));
      }
    }
  }

  // ------------------------------------------------------------ exec

  /** The page-table pages of `n` pages from address 0. */
  function TablesFor(n: nat): nat {
    (n + NPTENTRIES - 1) / NPTENTRIES
  }

  /** The user page-table pages of `c` are the first `n`. */
  predicate FirstTables(s: State, c: nat, n: nat) {
    forall i :: 0 <= i < USERTABLES ==> ((c, i) in s.tabs <==> i < n)
  }

  lemma AllocOneCost(s: State, held: multiset<nat>, k: Slot, p: Page)
    requires Good(s, held) && k !in s.ptes && k.0 in s.dirs && k.1 < USERTABLES * NPTENTRIES && AllocOne(s, k, p).1
    ensures AllocOne(s, k, p).0.tabs.Keys == s.tabs.Keys + {(k.0, k.1 / NPTENTRIES)}
    ensures |AllocOne(s, k, p).0.phys.free| == |s.phys.free| - 1 - if (k.0, k.1 / NPTENTRIES) in s.tabs then 0 else 1
  {
    hide Exact, Shape, Sized, Aligned, PageAt, Count, SamePages, SamePagesBut, WalkAlloc, MapPage, KeptFrames;
    var e := Pte(s.phys.free[0], true, false, true);
    TakeGood(s, held, p);
    assert Take(s, p).phys.free == s.phys.free[1..];
    MapPageEffect(Take(s, p), held + multiset{e.frame}, k, e);
    OneMoreKey(s.tabs, MapPage(Take(s, p), k, e).0.tabs, (k.0, k.1 / NPTENTRIES));
  }

  lemma {:induction false} AllocOk(s: State, held: multiset<nat>, c: nat, image: seq<Page>, n: nat)
    requires Good(s, held) && c in s.dirs && c !in s.sizes && (forall v :: (c, v) !in s.ptes) && NoUserTables(s, c)
    requires n <= |image| <= USERTABLES * NPTENTRIES
    ensures AllocTo(s, c, image, n).1 <==> |s.phys.free| >= n + TablesFor(n)
    ensures AllocTo(s, c, image, n).1 ==>
              && |AllocTo(s, c, image, n).0.phys.free| == |s.phys.free| - n - TablesFor(n)
              && FirstTables(AllocTo(s, c, image, n).0, c, TablesFor(n))
  {
    hide Good, AllocOne, Loaded, VmExec.Apart, FirstTables, TablesFor;
    if n == 0 {
      NoTables(s, c);
    } else {
      AllocOk(s, held, c, image, n - 1);
      TablesNext(n);
      if AllocTo(s, c, image, n - 1).1 {
        var t, k := AllocTo(s, c, image, n - 1).0, (c, n - 1);
        AllocGood(s, held, c, image, n - 1);
        ApartKeeps(s, t, c);
        LoadedTo(t, c, image, n - 1, held);
        AllocOneOk(t, held, k, image[n - 1]);
        FirstKnown(t, c, TablesFor(n - 1), n - 1);
        if AllocOne(t, k, image[n - 1]).1 {
          AllocOneCost(t, held, k, image[n - 1]);
          FirstNext(t, AllocOne(t, k, image[n - 1]).0, c, n);
        }
      }
    }
  }

  lemma NoTables(s: State, c: nat)
    requires NoUserTables(s, c)
    ensures TablesFor(0) == 0 && FirstTables(s, c, 0)
  {
  }

  /** The next page is in the last table, unless it is the first of its region. */
  lemma TablesNext(n: nat)
    requires n > 0
    ensures TablesFor(n) == TablesFor(n - 1) + if (n - 1) / NPTENTRIES < TablesFor(n - 1) then 0 else 1
    ensures (n - 1) / NPTENTRIES + 1 == TablesFor(n)
  {
  }

  lemma LoadedTo(t: State, c: nat, image: seq<Page>, n: nat, held: multiset<nat>)
    requires n <= |image| && Loaded(t, c, image, n, held)
    ensures (c, n) !in t.ptes
  {
  }

  lemma FirstKnown(s: State, c: nat, n: nat, v: nat)
    requires FirstTables(s, c, n) && v < USERTABLES * NPTENTRIES
    ensures (c, v / NPTENTRIES) in s.tabs <==> v / NPTENTRIES < n
  {
  }

  lemma FirstNext(s: State, t: State, c: nat, n: nat)
    requires n > 0 && FirstTables(s, c, TablesFor(n - 1)) && t.tabs.Keys == s.tabs.Keys + {(c, (n - 1) / NPTENTRIES)}
    ensures FirstTables(t, c, TablesFor(n))
  {
    TablesNext(n);
    hide TablesFor;
  }

  function SpawnNeeds(image: seq<Page>): nat {
    1 + NKMAP + |image| + TablesFor(|image|)
  }

  /** An image can be built exactly when there is a slot, it ends below the kernel, and there are
      frames for its pages, its page tables and the kernel's. */
  lemma SpawnExact(s: State, held: multiset<nat>, nproc: nat, image: seq<Page>, guard: nat)
    requires Quiet(s, held, nproc)
    ensures Spawn(s, nproc, image, guard).1.Some? <==>
              |s.sizes| < nproc && |image| * PGSIZE < Eager.KERNBASE && |s.phys.free| >= SpawnNeeds(image)
  {
    hide Exact, Sized, Aligned, PageAt, SamePages, AllocTo, Setup, NoUserTables, FreeVm, TablesFor, ClearUser;
    if |s.sizes| < nproc && |image| * PGSIZE < Eager.KERNBASE {
      SetupExact(s, held);
      if Setup(s).1.Some? {
        SetupSome(s, held);
        var t, c := Setup(s).0, Setup(s).1.value;
        DeadDir(s, c);
        AllocOk(t, held, c, image, |image|);
      }
    }
  }

  // ------------------------------------------------------------ loads and stores

  /** The frames that an access to a page takes: for a page that is not there and its page table,
      or for a copy of one that others have. */
  function AccessNeeds(s: State, k: Slot, wr: bool): nat {
    if k !in s.ptes then if (k.0, k.1 / NPTENTRIES) in s.tabs then 1 else 2
    else if wr && !s.ptes[k].w && s.ptes[k].frame < |s.phys.ref| && s.phys.ref[s.ptes[k].frame] != 1 then 1
    else 0
  }

  /** What a program may touch: its pages on the reference machine, but of the page with the break
      in it, if it has not been touched, only the part below the break. */
  predicate Reachable(e: Eager.Spaces, s: State, d: nat, va: nat) {
    Eager.Mapped(e, d, va) && (va < e[d].size || (d, va / PGSIZE) in s.ptes)
  }

  predicate Guarded(e: Eager.Spaces, d: nat, va: nat, user: bool) {
    Eager.Mapped(e, d, va) && user && !e[d].pages[va / PGSIZE].user
  }

  /** An access goes through exactly if the program may touch the page and the frames for it are
      free.  It faults for ever exactly if it is a write of the program's to the guard page. */
  lemma AccessExact(s: State, held: multiset<nat>, nproc: nat, d: nat, va: nat, wr: bool, user: bool)
    requires Quiet(s, held, nproc) && d in s.sizes
    ensures Named(s)
    ensures var o := VmFaults.Access(s, d, va, wr, user).1;
            var frames := |s.phys.free| >= AccessNeeds(s, (d, va / PGSIZE), wr);
            && (o.Done? <==> Reachable(View(s), s, d, va) && !Guarded(View(s), d, va, user) && frames)
            && (o.Stuck? <==> Guarded(View(s), d, va, user) && wr && frames)
  {
    hide Exact, Aligned, SamePages, VmFaults.Access;
    AccessOutcome(s, held, nproc, d, va, wr, user);
    BankSizes(s, held);
    var k: Slot := (d, va / PGSIZE);
    ViewAt(s, d, va);
    if k in s.ptes { assert EntryOk(s, k); }
  }

  lemma ViewAt(s: State, d: nat, va: nat)
    requires d in s.sizes && s.sizes[d] < Eager.KERNBASE
    ensures Eager.Mapped(View(s), d, va) <==> va / PGSIZE < Eager.NPages(s.sizes[d])
    ensures Eager.Mapped(View(s), d, va) ==> View(s)[d].pages[va / PGSIZE] == PageAt(s, d, va / PGSIZE) && va < Eager.KERNBASE
    ensures View(s)[d].size == s.sizes[d] && (va < s.sizes[d] ==> va / PGSIZE < Eager.NPages(s.sizes[d]))
  {
  }
}
