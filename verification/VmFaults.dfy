/** Page faults, and the loads and stores that cause them. */
module VmFaults {
  import opened Frames
  import opened AddressSpaces
  import opened VmSpec
  import opened VmOps
  import Eager

  function Writable(e: Pte): Pte {
    e.(w := true, cow := false)
  }

  /** Take a frame and fill it, as lazyalloc and cowfault do. */
  function Take(s: State, p: Page): State
    requires s.phys.free != []
  {
    s.(phys := s.phys.Alloc().Fill(s.phys.free[0], p))
  }

  /** A new writable page, for lazyalloc, or for one turn of allocuvm's loop with the page that
      the loader then puts there. */
  function AllocOne(s: State, k: Slot, p: Page): (State, bool) {
    if s.phys.free == [] then (s, false)
    else
      var f := s.phys.free[0];
      var (t, ok) := MapPage(Take(s, p), k, Pte(f, true, false, true));
      if ok then (t, true) else (t.(phys := t.phys.Free(f)), false)
  }

  function LazyAlloc(s: State, k: Slot): (State, bool) {
    AllocOne(s, k, ZeroPage())
  }

  function CowFault(s: State, k: Slot): (State, bool)
    requires k in s.ptes && s.ptes[k].frame < |s.phys.ref| == |s.phys.mem|
  {
    var e := s.ptes[k];
    if !e.cow then (s, e.w)
    else if s.phys.ref[e.frame] == 1 then (SetPte(s, k, Writable(e)), true)
    else if s.phys.free == [] then (s, false)
    else
      var f := s.phys.free[0];
      var t := SetPte(Take(s, s.phys.mem[e.frame]), k, Writable(e).(frame := f));
      (t.(phys := t.phys.Free(e.frame)), true)
  }

  /** Every entry names a frame that exists. */
  ghost predicate Named(s: State) {
    forall k :: k in s.ptes ==> s.ptes[k].frame < |s.phys.ref| == |s.phys.mem|
  }

  /** The page fault handler; `wr` is the FEC_WR bit of the error code. */
  ghost function PageFault(s: State, d: nat, va: nat, wr: bool): (State, bool)
    requires d in s.sizes && Named(s)
  {
    var k: Slot := (d, va / PGSIZE);
    if va >= Eager.KERNBASE then (s, false)
    else if k !in s.ptes then if va >= s.sizes[d] then (s, false) else LazyAlloc(s, k)
    else if wr && s.ptes[k].cow then CowFault(s, k)
    else (s, wr && s.ptes[k].w)
  }

  lemma TakeGood(s: State, held: multiset<nat>, p: Page)
    requires Good(s, held) && s.phys.free != []
    ensures var f := s.phys.free[0];
            && Good(Take(s, p), held + multiset{f}) && SamePages(s, Take(s, p))
            && f !in held && s.phys.Managed(f) && Take(s, p).phys.ref == s.phys.ref[f := 1]
            && |s.phys.mem| == |s.phys.ref| && Take(s, p).phys.mem == s.phys.mem[f := p]
            && (forall k :: k in s.ptes ==> s.ptes[k].frame != f)
  {
    hide Exact, Shape, Sized, Aligned, PageAt, SamePages, Count;
    var f := s.phys.free[0];
    AllocStep(s, held);
    var t := s.(phys := s.phys.Alloc());
    FillStep(t, held + multiset{f}, f, p);
    SamePagesTrans(s, t, Take(s, p));
    NotNamed(s, f);
    BankSizes(s, held);
  }

  lemma BankSizes(s: State, held: multiset<nat>)
    requires Exact(s, held)
    ensures |s.phys.mem| == |s.phys.ref|
    ensures forall k :: k in s.ptes ==> s.ptes[k].frame < |s.phys.ref|
  {
  }

  /** A lazily allocated page reads as the zeroes it read as before. */
  lemma LazyGood(s: State, held: multiset<nat>, k: Slot)
    requires Good(s, held) && k !in s.ptes && k.0 in s.sizes && k.1 * PGSIZE < s.sizes[k.0]
    ensures Good(LazyAlloc(s, k).0, held) && SamePages(s, LazyAlloc(s, k).0)
  {
    hide Exact, Shape, Aligned, PageAt, Count, SamePages, SamePagesBut, WalkAlloc;
    if s.phys.free == [] {
      SamePagesSelf(s);
    } else {
      var f := s.phys.free[0];
      var e := Pte(f, true, false, true);
      TakeGood(s, held, ZeroPage());
      var t := Take(s, ZeroPage());
      assert f in held + multiset{f};
      MapPageGood(t, held + multiset{f}, k, e);
      assert held + multiset{f} - multiset{f} == held;
      if MapPage(t, k, e).1 {
        MapPageEffect(t, held + multiset{f}, k, e);
        LazyPage(s, t, MapPage(t, k, e).0, k, f);
      } else {
        FreeBack(t, held, f);
        SamePagesTrans(s, t, LazyAlloc(s, k).0);
      }
    }
  }

  lemma LazyPage(s: State, t: State, u: State, k: Slot, f: nat)
    requires SamePages(s, t) && SamePagesBut(t, u, k) && k !in s.ptes
    requires k in u.ptes && u.ptes[k] == Pte(f, true, false, true) && f < |u.phys.mem| && u.phys.mem[f] == ZeroPage()
    ensures SamePages(s, u)
  {
    forall d: nat, v: nat ensures PageAt(s, d, v) == PageAt(u, d, v) {
      SamePage(s, t, d, v);
      if (d, v) == k { assert PageAt(u, d, v) == Eager.Blank(); }
    }
  }

  /** In place: the only reference is ours, so making it writable shares nothing. */
  lemma CowInPlace(s: State, held: multiset<nat>, k: Slot)
    requires Good(s, held) && k in s.ptes && s.ptes[k].frame < |s.phys.ref| && s.phys.ref[s.ptes[k].frame] == 1
    ensures Good(SetPte(s, k, Writable(s.ptes[k])), held)
    ensures SamePages(s, SetPte(s, k, Writable(s.ptes[k])))
  {
    hide Exact, Shape, Sized, Aligned, PageAt, SamePages, SamePagesBut;
    FlagStep(s, held, k, Writable(s.ptes[k]));
  }

  /** By copy: the new frame reads like the old one, whose other users keep it. */
  lemma CowCopy(s: State, held: multiset<nat>, k: Slot)
    requires Good(s, held) && k in s.ptes && s.phys.free != []
    requires s.ptes[k].frame < |s.phys.ref| == |s.phys.mem|
    ensures var e, f := s.ptes[k], s.phys.free[0];
            var t := SetPte(Take(s, s.phys.mem[e.frame]), k, Writable(e).(frame := f));
            Good(t.(phys := t.phys.Free(e.frame)), held) && SamePages(s, t.(phys := t.phys.Free(e.frame)))
  {
    hide Exact, Shape, Sized, Aligned, PageAt, SamePages, SamePagesBut, Count;
    var e, f := s.ptes[k], s.phys.free[0];
    TakeGood(s, held, s.phys.mem[e.frame]);
    var t := Take(s, s.phys.mem[e.frame]);
    var e' := Writable(e).(frame := f);
    SwapStep(t, held, k, e');
    var u := SetPte(t, k, e');
    SetPages(t, k, e');
    CopyPage(s, t, u, k);
    FreeBack(u, held, e.frame);
    SamePagesTrans(s, u, u.(phys := u.phys.Free(e.frame)));
  }

  lemma CopyPage(s: State, t: State, u: State, k: Slot)
    requires SamePages(s, t) && SamePagesBut(t, u, k) && k in s.ptes && k in u.ptes
    requires s.ptes[k].frame < |s.phys.mem| && u.ptes[k].frame < |u.phys.mem| && s.ptes[k].u == u.ptes[k].u
    requires u.phys.mem[u.ptes[k].frame] == s.phys.mem[s.ptes[k].frame]
    ensures SamePages(s, u)
  {
    forall d: nat, v: nat ensures PageAt(s, d, v) == PageAt(u, d, v) {
      SamePage(s, t, d, v);
    }
  }

  lemma CowFaultGood(s: State, held: multiset<nat>, k: Slot)
    requires Good(s, held) && k in s.ptes && s.ptes[k].frame < |s.phys.ref| == |s.phys.mem|
    ensures Good(CowFault(s, k).0, held) && SamePages(s, CowFault(s, k).0)
  {
    hide Good, SamePages, Take;
    SamePagesSelf(s);
    if s.ptes[k].cow {
      if s.phys.ref[s.ptes[k].frame] == 1 {
        CowInPlace(s, held, k);
      } else if s.phys.free != [] {
        CowCopy(s, held, k);
      }
    }
  }

  /** No page fault, resolved or not, changes what any program sees. */
  lemma FaultInvisible(s: State, held: multiset<nat>, nproc: nat, d: nat, va: nat, wr: bool)
    requires Quiet(s, held, nproc) && d in s.sizes
    ensures Named(s)
    ensures Good(PageFault(s, d, va, wr).0, held) && SamePages(s, PageFault(s, d, va, wr).0)
  {
    hide Exact, Shape, Sized, Aligned, PageAt, SamePages, CowFault, LazyAlloc;
    BankSizes(s, held);
    SamePagesSelf(s);
    var k: Slot := (d, va / PGSIZE);
    if k !in s.ptes {
      if va < s.sizes[d] { LazyGood(s, held, k); }
    } else {
      CowFaultGood(s, held, k);
    }
  }

  /** What the handler needs to succeed: a page below the break with memory for it and its
      page-table page, or a write to a page that is writable or can be made so. */
  ghost predicate Resolvable(s: State, d: nat, va: nat, wr: bool)
    requires d in s.sizes && Named(s)
  {
    var k: Slot := (d, va / PGSIZE);
    && va < Eager.KERNBASE
    && if k !in s.ptes then
         va < s.sizes[d] && |s.phys.free| >= if (d, k.1 / NPTENTRIES) in s.tabs then 1 else 2
       else
         wr && (s.ptes[k].w || s.phys.ref[s.ptes[k].frame] == 1 || s.phys.free != [])
  }

  /** Only entry `k` may differ; its user bit and its write permission are never taken away. */
  ghost predicate OnlyEntry(s: State, t: State, k: Slot, held: multiset<nat>) {
    && t.dirs == s.dirs && t.sizes == s.sizes
    && (forall l :: l != k ==> (l in t.ptes <==> l in s.ptes))
    && (forall l :: l != k && l in s.ptes ==> t.ptes[l] == s.ptes[l])
    && (k in s.ptes ==> k in t.ptes && t.ptes[k].u == s.ptes[k].u && (s.ptes[k].w ==> t.ptes[k] == s.ptes[k]))
    && (k in t.ptes && k !in s.ptes ==> t.ptes[k].u)
    && (k in t.ptes && t.ptes[k].frame in held ==> k in s.ptes && t.ptes[k].frame == s.ptes[k].frame)
  }

  /** A page needs a frame, and another one if its page-table page is missing. */
  lemma AllocOneOk(s: State, held: multiset<nat>, k: Slot, p: Page)
    requires Good(s, held)
    ensures AllocOne(s, k, p).1 <==> |s.phys.free| >= if (k.0, k.1 / NPTENTRIES) in s.tabs then 1 else 2
  {
    hide Exact, Shape, Sized, Aligned, PageAt, Count, SamePages, WalkAlloc, MapPage;
    if s.phys.free != [] {
      TakeGood(s, held, p);
      assert Take(s, p).phys.free == s.phys.free[1..];
      MapPageOk(Take(s, p), k, Pte(s.phys.free[0], true, false, true));
    }
  }

  lemma LazyEffect(s: State, held: multiset<nat>, k: Slot)
    requires Good(s, held) && k !in s.ptes && k.0 in s.sizes && k.1 * PGSIZE < s.sizes[k.0]
    ensures var (t, ok) := LazyAlloc(s, k);
            && OnlyEntry(s, t, k, held)
            && (ok <==> |s.phys.free| >= if (k.0, k.1 / NPTENTRIES) in s.tabs then 1 else 2)
            && (ok ==> k in t.ptes && t.ptes[k].w)
  {
    hide Exact, Shape, Aligned, PageAt, Count, SamePages, SamePagesBut, KeptFrames, WalkAlloc, MapPage;
    assert k.0 in s.dirs && k.1 < USERTABLES * NPTENTRIES;
    hide Sized, OnlyEntry;
    AllocOneOk(s, held, k, ZeroPage());
    var t := LazyAlloc(s, k).0;
    if s.phys.free != [] {
      var e := Pte(s.phys.free[0], true, false, true);
      TakeGood(s, held, ZeroPage());
      MapPageOk(Take(s, ZeroPage()), k, e);
      if MapPage(Take(s, ZeroPage()), k, e).1 {
        MapPageEffect(Take(s, ZeroPage()), held + multiset{e.frame}, k, e);
        OnlyNew(s, t, k, e, held);
      }
    }
    OnlySame(s, t, k, held);
  }

  lemma OnlyNew(s: State, t: State, k: Slot, e: Pte, held: multiset<nat>)
    requires t.dirs == s.dirs && t.sizes == s.sizes && k !in s.ptes && t.ptes == s.ptes[k := e] && e.u && e.frame !in held
    ensures OnlyEntry(s, t, k, held)
  {
  }

  lemma OnlySame(s: State, t: State, k: Slot, held: multiset<nat>)
    requires k !in s.ptes
    ensures t.dirs == s.dirs && t.sizes == s.sizes && t.ptes == s.ptes ==> OnlyEntry(s, t, k, held)
  {
  }

  lemma MapPageOk(s: State, k: Slot, e: Pte)
    ensures MapPage(s, k, e).1 <==> s.phys.free != [] || (k.0, k.1 / NPTENTRIES) in s.tabs
    ensures !MapPage(s, k, e).1 ==> MapPage(s, k, e).0 == s
  {
  }

  lemma CowFaultEffect(s: State, held: multiset<nat>, k: Slot)
    requires Good(s, held) && k in s.ptes && s.ptes[k].frame < |s.phys.ref| == |s.phys.mem|
    ensures var (t, ok) := CowFault(s, k);
            && OnlyEntry(s, t, k, held)
            && (ok <==> s.ptes[k].w || s.phys.ref[s.ptes[k].frame] == 1 || s.phys.free != [])
            && (ok ==> k in t.ptes && t.ptes[k].w)
  {
    hide Exact, Sized, Aligned, PageAt, Count, SamePages, SamePagesBut;
    assert EntryOk(s, k);
    if s.phys.free != [] { TakeGood(s, held, s.phys.mem[s.ptes[k].frame]); }
  }

  /** The handler succeeds exactly when it can, touches one entry, and a resolved write fault
      leaves a writable page. */
  lemma FaultOutcome(s: State, held: multiset<nat>, nproc: nat, d: nat, va: nat, wr: bool)
    requires Quiet(s, held, nproc) && d in s.sizes
    ensures Named(s)
    ensures var (t, ok) := PageFault(s, d, va, wr);
            var k: Slot := (d, va / PGSIZE);
            && Quiet(t, held, nproc) && OnlyEntry(s, t, k, held)
            && (ok <==> Resolvable(s, d, va, wr))
            && (ok ==> k in t.ptes && (wr ==> t.ptes[k].w))
  {
    hide Exact, Shape, Aligned, PageAt, SamePages, CowFault, LazyAlloc;
    FaultInvisible(s, held, nproc, d, va, wr);
    var k: Slot := (d, va / PGSIZE);
    if k !in s.ptes {
      if va < s.sizes[d] { LazyEffect(s, held, k); }
    } else {
      CowFaultEffect(s, held, k);
      EntryFlags(s, k);
    }
    OnlyEntryPrivate(s, PageFault(s, d, va, wr).0, k, held);
  }

  lemma EntryFlags(s: State, k: Slot)
    requires Shape(s) && k in s.ptes
    ensures s.ptes[k].w != s.ptes[k].cow
  {
    assert EntryOk(s, k);
  }

  lemma OnlyEntryPrivate(s: State, t: State, k: Slot, held: multiset<nat>)
    requires Private(s.ptes, held) && OnlyEntry(s, t, k, held)
    ensures Private(t.ptes, held)
  {
  }

  // ------------------------------------------------------------ loads and stores

  /** Done, or the process is killed by an unresolved fault, or it faults again for ever. */
  datatype Outcome = Done | Killed | Stuck

  /** What the MMU lets through; supervisor writes obey the W bit too, because CR0_WP is set. */
  predicate Permit(s: State, k: Slot, wr: bool, user: bool) {
    k in s.ptes && (wr ==> s.ptes[k].w) && (user ==> s.ptes[k].u)
  }

  function Poke(s: State, k: Slot, off: nat, b: Byte): State
    requires k in s.ptes && s.ptes[k].frame < |s.phys.mem| && off < PGSIZE
  {
    var f := s.ptes[k].frame;
    s.(phys := s.phys.Fill(f, s.phys.mem[f][off := b]))
  }

  /** The state in which an access is retried, or ends. */
  ghost function Access(s: State, d: nat, va: nat, wr: bool, user: bool): (State, Outcome)
    requires d in s.sizes && Named(s)
  {
    var k: Slot := (d, va / PGSIZE);
    if Permit(s, k, wr, user) then (s, Done)
    else
      var (t, ok) := PageFault(s, d, va, wr);
      if !ok then (t, Killed) else if Permit(t, k, wr, user) then (t, Done) else (t, Stuck)
  }

  ghost function Store(s: State, d: nat, va: nat, b: Byte, user: bool): (State, Outcome)
    requires d in s.sizes && Named(s)
  {
    var k: Slot := (d, va / PGSIZE);
    var (t, o) := Access(s, d, va, true, user);
    if o.Done? && k in t.ptes && t.ptes[k].frame < |t.phys.mem| then (Poke(t, k, va % PGSIZE, b), Done) else (t, o)
  }

  ghost function Load(s: State, d: nat, va: nat, user: bool): (State, Outcome, Byte)
    requires d in s.sizes && Named(s)
  {
    var k: Slot := (d, va / PGSIZE);
    var (t, o) := Access(s, d, va, false, user);
    if o.Done? && k in t.ptes && t.ptes[k].frame < |t.phys.mem| then (t, Done, t.phys.mem[t.ptes[k].frame][va % PGSIZE])
    else (t, o, 0)
  }

  lemma AccessQuiet(s: State, held: multiset<nat>, nproc: nat, d: nat, va: nat, wr: bool, user: bool)
    requires Quiet(s, held, nproc) && d in s.sizes
    ensures Named(s)
    ensures var (t, o) := Access(s, d, va, wr, user);
            && Quiet(t, held, nproc) && SamePages(s, t) && Named(t)
            && OnlyEntry(s, t, (d, va / PGSIZE), held)
            && (o.Done? ==> Permit(t, (d, va / PGSIZE), wr, user))
  {
    hide Exact, Shape, Sized, Aligned, PageAt, SamePages, PageFault;
    FaultOutcome(s, held, nproc, d, va, wr);
    FaultInvisible(s, held, nproc, d, va, wr);
    SamePagesSelf(s);
    BankSizes(s, held);
    BankSizes(PageFault(s, d, va, wr).0, held);
  }

  /** Which accesses go through, which kill the process, and which fault for ever: the last are
      user writes to a present page without PTE_U, because the handler does not look at PTE_U. */
  lemma AccessOutcome(s: State, held: multiset<nat>, nproc: nat, d: nat, va: nat, wr: bool, user: bool)
    requires Quiet(s, held, nproc) && d in s.sizes
    ensures Named(s)
    ensures var k: Slot := (d, va / PGSIZE);
            var o := Access(s, d, va, wr, user).1;
            var guarded := k in s.ptes && !s.ptes[k].u && user;
            && (o.Done? <==> !guarded && (Permit(s, k, wr, user) || Resolvable(s, d, va, wr)))
            && (o.Stuck? <==> guarded && wr && Resolvable(s, d, va, wr))
  {
    hide Exact, Shape, Sized, Aligned, PageAt, SamePages, PageFault, Resolvable;
    FaultOutcome(s, held, nproc, d, va, wr);
    var k: Slot := (d, va / PGSIZE);
    if k in s.ptes && !wr { ReadNotResolved(s, d, va); }
  }

  lemma ReadNotResolved(s: State, d: nat, va: nat)
    requires d in s.sizes && Named(s) && (d, va / PGSIZE) in s.ptes
    ensures !Resolvable(s, d, va, false)
  {
  }

  lemma ViewMapped(s: State, dirs: set<nat>, k: Slot)
    requires Sized(dirs, s.ptes, s.sizes) && k in s.ptes && k.0 in s.sizes && s.ptes[k].frame < |s.phys.mem|
    ensures k.0 in View(s) && k.1 < |View(s)[k.0].pages|
    ensures View(s)[k.0].pages[k.1] == Eager.EPage(s.phys.mem[s.ptes[k].frame], s.ptes[k].u)
  {
  }

  /** A store is visible in the writer's address space and nowhere else; one that does not go
      through is not visible at all. */
  lemma StoreRefines(s: State, held: multiset<nat>, nproc: nat, d: nat, va: nat, b: Byte, user: bool)
    requires Quiet(s, held, nproc) && d in s.sizes
    ensures Named(s)
    ensures var (t, o) := Store(s, d, va, b, user);
            && (o.Done? ==> Eager.Mapped(View(s), d, va) && View(t) == Eager.Store(View(s), d, va, b))
            && (!o.Done? ==> View(t) == View(s))
  {
    hide Exact, Shape, Aligned, PageAt, SamePages, Access, View;
    AccessQuiet(s, held, nproc, d, va, true, user);
    var (u, o) := Access(s, d, va, true, user);
    SamePagesView(s, u);
    if o.Done? {
      var k: Slot := (d, va / PGSIZE);
      ViewMapped(u, u.dirs, k);
      PokeView(u, held, k, va, b);
    }
  }

  lemma SamePagesView(s: State, t: State)
    requires SamePages(s, t) && s.sizes == t.sizes
    ensures View(s) == View(t)
  {
    SameView(s, t);
  }

  lemma PokeView(s: State, held: multiset<nat>, k: Slot, va: nat, b: Byte)
    requires Good(s, held) && k in s.ptes && s.ptes[k].w && k.0 in s.sizes
    requires s.ptes[k].frame < |s.phys.mem| && k.1 == va / PGSIZE && Eager.Mapped(View(s), k.0, va)
    ensures Good(Poke(s, k, va % PGSIZE, b), held)
    ensures View(Poke(s, k, va % PGSIZE, b)) == Eager.Store(View(s), k.0, va, b)
  {
    hide Exact, Shape, Aligned, SamePagesBut;
    var p := s.phys.mem[s.ptes[k].frame][va % PGSIZE := b];
    StoreStep(s, held, k, p);
    ViewMapped(s, s.dirs, k);
    PokePages(s, Poke(s, k, va % PGSIZE, b), k, p);
  }

  lemma PokePages(s: State, t: State, k: Slot, p: Page)
    requires t.sizes == s.sizes && k.0 in s.sizes && k.1 < Eager.NPages(s.sizes[k.0])
    requires SamePagesBut(s, t, k) && PageAt(t, k.0, k.1).data == p && PageAt(t, k.0, k.1).user == PageAt(s, k.0, k.1).user
    ensures View(t) == View(s)[k.0 := View(s)[k.0].(pages := View(s)[k.0].pages[k.1 := PageAt(s, k.0, k.1).(data := p)])]
  {
    var pages := View(s)[k.0].pages[k.1 := PageAt(s, k.0, k.1).(data := p)];
    assert SpaceAt(t, k.0).pages == pages;
    forall d | d in s.sizes && d != k.0 ensures SpaceAt(t, d) == SpaceAt(s, d) {
      assert SpaceAt(t, d).pages == SpaceAt(s, d).pages;
    }
  }

  /** A load returns what the reference machine holds there, and changes nothing visible. */
  lemma LoadRefines(s: State, held: multiset<nat>, nproc: nat, d: nat, va: nat, user: bool)
    requires Quiet(s, held, nproc) && d in s.sizes
    ensures Named(s)
    ensures var (t, o, b) := Load(s, d, va, user);
            && View(t) == View(s)
            && (o.Done? ==> Eager.Mapped(View(s), d, va) && b == Eager.Load(View(s), d, va))
  {
    hide Exact, Shape, Aligned, PageAt, SamePages, Access, View;
    AccessQuiet(s, held, nproc, d, va, false, user);
    var (u, o) := Access(s, d, va, false, user);
    SamePagesView(s, u);
    if o.Done? {
      ViewMapped(u, u.dirs, (d, va / PGSIZE));
    }
  }

  lemma StoreQuiet(s: State, held: multiset<nat>, nproc: nat, d: nat, va: nat, b: Byte, user: bool)
    requires Quiet(s, held, nproc) && d in s.sizes
    ensures Named(s) && Quiet(Store(s, d, va, b, user).0, held, nproc)
  {
    hide Exact, Shape, Sized, Aligned, PageAt, SamePages, Access, View;
    AccessQuiet(s, held, nproc, d, va, true, user);
    var (u, o) := Access(s, d, va, true, user);
    if o.Done? {
      var k: Slot := (d, va / PGSIZE);
      StoreStep(u, held, k, u.phys.mem[u.ptes[k].frame][va % PGSIZE := b]);
    }
  }
}
