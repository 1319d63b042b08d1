/** Page tables over reference-counted frames: the state behind vm.c, as a value.

    A page directory is named by the frame that holds it.  `tabs` gives the frame of each
    page-table page, `ptes` the present user entries, keyed by directory and virtual page
    number.  The lemmas say what each elementary step (take a frame, map it, share it, drop
    it, write through it) keeps. */
module AddressSpaces {
  import opened Frames
  import Eager

  const NPTENTRIES: nat := 1024
  const USERTABLES: nat := 512

  type Slot = (nat, nat)

  datatype Pte = Pte(frame: nat, w: bool, cow: bool, u: bool)

  datatype State = State(phys: Phys, dirs: set<nat>, tabs: map<Slot, nat>,
                         ptes: map<Slot, Pte>, sizes: map<nat, nat>)

  function Leaves(ptes: map<Slot, Pte>, f: nat): set<Slot> {
    set k | k in ptes && ptes[k].frame == f
  }

  function Tables(tabs: map<Slot, nat>, f: nat): set<Slot> {
    set k | k in tabs && tabs[k] == f
  }

  /** How many page-table structures name frame `f`. */
  function Count(s: State, f: nat): nat {
    |Leaves(s.ptes, f)| + |Tables(s.tabs, f)| + if f in s.dirs then 1 else 0
  }

  /** The counting invariant.  `held` are the frames in the hands of kernel code: kernel
      stacks and pipes, and whatever an operation has in transit. */
  ghost predicate Exact(s: State, held: multiset<nat>) {
    && s.phys.Valid()
    && (forall f: nat :: f < |s.phys.ref| ==> s.phys.ref[f] == Count(s, f) + held[f])
    && (forall k :: k in s.ptes ==> s.phys.Managed(s.ptes[k].frame))
    && (forall k :: k in s.tabs ==> s.phys.Managed(s.tabs[k]))
    && (forall d :: d in s.dirs ==> s.phys.Managed(d))
    && (forall f :: f in held ==> s.phys.Managed(f))
  }

  /** An entry lies in an allocated table of a live directory; exactly one of W and COW is
      set; a writable frame has no second reference. */
  predicate EntryOk(s: State, k: Slot)
    requires k in s.ptes
  {
    var e := s.ptes[k];
    && k.0 in s.dirs
    && k.1 < USERTABLES * NPTENTRIES
    && (k.0, k.1 / NPTENTRIES) in s.tabs
    && e.w != e.cow
    && e.frame < |s.phys.ref|
    && (e.w ==> s.phys.ref[e.frame] == 1)
  }

  /** Page-table pages belong to live directories and are not shared. */
  predicate TableOk(s: State, k: Slot)
    requires k in s.tabs
  {
    k.0 in s.dirs && k.1 < NPTENTRIES && s.tabs[k] < |s.phys.ref| && s.phys.ref[s.tabs[k]] == 1
  }

  ghost predicate Shape(s: State) {
    && (forall k :: k in s.ptes ==> EntryOk(s, k))
    && (forall k :: k in s.tabs ==> TableOk(s, k))
    && (forall d :: d in s.dirs ==> d < |s.phys.ref| && s.phys.ref[d] == 1)
  }

  /** A frame appears at one virtual page only, in however many directories share it. */
  ghost predicate Aligned(ptes: map<Slot, Pte>) {
    forall k, l :: k in ptes && l in ptes && ptes[k].frame == ptes[l].frame ==> k.1 == l.1
  }

  ghost predicate Sized(dirs: set<nat>, ptes: map<Slot, Pte>, sizes: map<nat, nat>) {
    && sizes.Keys <= dirs
    && (forall d :: d in sizes ==> sizes[d] < Eager.KERNBASE)
    && (forall k :: k in ptes && k.0 in sizes ==> k.1 * PGSIZE < sizes[k.0])
  }

  ghost predicate Good(s: State, held: multiset<nat>) {
    Exact(s, held) && Shape(s) && Sized(s.dirs, s.ptes, s.sizes) && Aligned(s.ptes)
  }

  /** What a program sees at page `v` of directory `d`: a missing page reads as zeroes. */
  function PageAt(s: State, d: nat, v: nat): Eager.EPage {
    if (d, v) in s.ptes && s.ptes[(d, v)].frame < |s.phys.mem| then
      Eager.EPage(s.phys.mem[s.ptes[(d, v)].frame], s.ptes[(d, v)].u)
    else Eager.Blank()
  }

  function SpaceAt(s: State, d: nat): Eager.Space
    requires d in s.sizes
  {
    Eager.Space(s.sizes[d], seq(Eager.NPages(s.sizes[d]), (v: nat) => PageAt(s, d, v)))
  }

  /** The abstraction function from page tables and frames to the reference machine. */
  function View(s: State): Eager.Spaces {
    map d | d in s.sizes :: SpaceAt(s, d)
  }

  /** Every page of every directory reads the same in both states. */
  ghost predicate SamePages(s: State, t: State) {
    forall d: nat, v: nat :: PageAt(s, d, v) == PageAt(t, d, v)
  }

  /** The same except at entry `k`. */
  ghost predicate SamePagesBut(s: State, t: State, k: Slot) {
    forall d: nat, v: nat :: (d, v) != k ==> PageAt(s, d, v) == PageAt(t, d, v)
  }

  lemma SameView(s: State, t: State)
    requires s.sizes == t.sizes
    requires forall d: nat, v: nat :: d in s.sizes && v < Eager.NPages(s.sizes[d]) ==> PageAt(s, d, v) == PageAt(t, d, v)
    ensures View(s) == View(t)
  {
    forall d | d in s.sizes ensures SpaceAt(s, d) == SpaceAt(t, d) {
      assert SpaceAt(s, d).pages == SpaceAt(t, d).pages;
    }
  }

  // ---------------------------------------------------------------- elementary steps

  function SetPte(s: State, k: Slot, e: Pte): State {
    s.(ptes := s.ptes[k := e])
  }

  function ClearPte(s: State, k: Slot): State {
    s.(ptes := s.ptes - {k})
  }

  lemma LeavesSet(ptes: map<Slot, Pte>, k: Slot, e: Pte, f: nat)
    ensures Leaves(ptes[k := e], f) == (Leaves(ptes, f) - {k}) + (if e.frame == f then {k} else {})
  {
  }

  lemma LeavesClear(ptes: map<Slot, Pte>, k: Slot, f: nat)
    ensures Leaves(ptes - {k}, f) == Leaves(ptes, f) - {k}
  {
  }

  lemma TablesSet(tabs: map<Slot, nat>, k: Slot, g: nat, f: nat)
    requires k !in tabs
    ensures Tables(tabs[k := g], f) == Tables(tabs, f) + (if g == f then {k} else {})
  {
  }

  /** A frame with count zero is named by no entry, table or directory. */
  lemma NotNamed(s: State, f: nat)
    requires Count(s, f) == 0
    ensures forall k :: k in s.ptes ==> s.ptes[k].frame != f
    ensures forall k :: k in s.tabs ==> s.tabs[k] != f
    ensures f !in s.dirs
  {
    assert Leaves(s.ptes, f) == {};
    assert Tables(s.tabs, f) == {};
    assert forall k :: k in s.ptes && s.ptes[k].frame == f ==> k in Leaves(s.ptes, f);
    assert forall k :: k in s.tabs && s.tabs[k] == f ==> k in Tables(s.tabs, f);
  }

  lemma AllocExact(s: State, held: multiset<nat>)
    requires Exact(s, held) && s.phys.free != []
    ensures var f := s.phys.free[0];
            && s.phys.Managed(f) && s.phys.ref[f] == 0 && Count(s, f) == 0 && f !in held
            && Exact(s.(phys := s.phys.Alloc()), held + multiset{f})
  {
    s.phys.AllocValid();
  }

  lemma AllocShape(s: State, held: multiset<nat>)
    requires Exact(s, held) && s.phys.free != [] && Shape(s)
    ensures s.phys.free[0] < |s.phys.ref| && Shape(s.(phys := s.phys.Alloc()))
  {
    s.phys.AllocValid();
    NotNamed(s, s.phys.free[0]);
    ShapeGives(s);
    PhysShape(s, s.phys.Alloc());
  }

  lemma ShapeGives(s: State)
    requires Shape(s)
    ensures forall k :: k in s.ptes && s.ptes[k].w ==> s.ptes[k].frame < |s.phys.ref| && s.phys.ref[s.ptes[k].frame] == 1
    ensures forall k :: k in s.tabs ==> s.tabs[k] < |s.phys.ref| && s.phys.ref[s.tabs[k]] == 1
  {
    forall k | k in s.ptes && s.ptes[k].w
      ensures s.ptes[k].frame < |s.phys.ref| && s.phys.ref[s.ptes[k].frame] == 1
    {
      assert EntryOk(s, k);
    }
    forall k | k in s.tabs ensures s.tabs[k] < |s.phys.ref| && s.phys.ref[s.tabs[k]] == 1 {
      assert TableOk(s, k);
    }
  }

  /** Taking a frame off the free list: it was named by nothing, and nobody's page changes. */
  lemma AllocStep(s: State, held: multiset<nat>)
    requires Good(s, held) && s.phys.free != []
    ensures var f := s.phys.free[0];
            && s.phys.Managed(f) && s.phys.ref[f] == 0 && Count(s, f) == 0 && f !in held
            && s.phys.Alloc().ref == s.phys.ref[f := 1]
            && Good(s.(phys := s.phys.Alloc()), held + multiset{f})
            && SamePages(s, s.(phys := s.phys.Alloc()))
  {
    AllocExact(s, held);
    AllocShape(s, held);
    SamePagesIf(s, s.phys.Alloc());
  }

  /** Filling a frame that only kernel code holds disturbs nobody. */
  lemma FillStep(s: State, held: multiset<nat>, f: nat, p: Page)
    requires Good(s, held) && f in held && f < |s.phys.ref| && s.phys.ref[f] == 1
    ensures Good(s.(phys := s.phys.Fill(f, p)), held)
    ensures SamePages(s, s.(phys := s.phys.Fill(f, p)))
  {
    hide Sized, Aligned, PageAt;
    FreshNotShared(s, held, f);
    FillExact(s, held, f, p);
    ShapeGives(s);
    PhysShape(s, s.phys.Fill(f, p));
    NotNamed(s, f);
    SamePagesIf(s, s.phys.Fill(f, p));
  }

  /** A change of allocator state keeps the shape if it keeps the exclusive counts. */
  lemma PhysShape(s: State, p: Phys)
    requires Shape(s) && |p.ref| == |s.phys.ref|
    requires forall k :: k in s.ptes && s.ptes[k].frame < |p.ref| && s.ptes[k].w ==> p.ref[s.ptes[k].frame] == 1
    requires forall k :: k in s.tabs && s.tabs[k] < |p.ref| ==> p.ref[s.tabs[k]] == 1
    requires forall d :: d in s.dirs && d < |p.ref| ==> p.ref[d] == 1
    ensures Shape(s.(phys := p))
  {
    var t := s.(phys := p);
    forall k | k in t.ptes ensures EntryOk(t, k) { assert EntryOk(s, k); }
    forall k | k in t.tabs ensures TableOk(t, k) { assert TableOk(s, k); }
  }

  /** A change of allocator state keeps every page if it keeps the mapped frames. */
  lemma SamePagesIf(s: State, p: Phys)
    requires |p.mem| == |s.phys.mem|
    requires forall k :: k in s.ptes && s.ptes[k].frame < |p.mem| ==> p.mem[s.ptes[k].frame] == s.phys.mem[s.ptes[k].frame]
    ensures SamePages(s, s.(phys := p))
  {
  }

  lemma FillExact(s: State, held: multiset<nat>, f: nat, p: Page)
    requires Exact(s, held) && s.phys.Managed(f)
    ensures Exact(s.(phys := s.phys.Fill(f, p)), held)
  {
  }

  lemma FreeExact(s: State, held: multiset<nat>, f: nat)
    requires Exact(s, held) && f in held
    ensures f < |s.phys.ref| && s.phys.ref[f] > 0
    ensures Exact(s.(phys := s.phys.Free(f)), held - multiset{f})
  {
    s.phys.FreeValid(f);
  }

  lemma FreeShape(s: State, held: multiset<nat>, f: nat)
    requires Exact(s, held) && Shape(s) && f in held
    ensures Shape(s.(phys := s.phys.Free(f)))
  {
    hide Count;
    FreeExact(s, held, f);
    HeldNotExclusive(s, held, f);
    ShapeGives(s);
    ShapeFree(s, f);
  }

  lemma ShapeFree(s: State, f: nat)
    requires Shape(s) && f < |s.phys.ref| == |s.phys.mem| && s.phys.ref[f] > 0
    requires s.phys.ref[f] == 1 ==> forall k :: k in s.ptes ==> s.ptes[k].frame != f
    requires s.phys.ref[f] == 1 ==> forall k :: k in s.tabs ==> s.tabs[k] != f
    requires s.phys.ref[f] == 1 ==> f !in s.dirs
    ensures Shape(s.(phys := s.phys.Free(f)))
  {
    ShapeGives(s);
    PhysShape(s, s.phys.Free(f));
  }

  /** A held frame that is also mapped has more than one reference. */
  lemma HeldNotExclusive(s: State, held: multiset<nat>, f: nat)
    requires Exact(s, held) && f in held
    ensures s.phys.ref[f] == 1 ==> Count(s, f) == 0
    ensures s.phys.ref[f] == 1 ==> forall k :: k in s.ptes ==> s.ptes[k].frame != f
    ensures s.phys.ref[f] == 1 ==> forall k :: k in s.tabs ==> s.tabs[k] != f
    ensures s.phys.ref[f] == 1 ==> f !in s.dirs
  {
    if s.phys.ref[f] == 1 {
      NotNamed(s, f);
    }
  }

  /** Dropping a held reference: at zero the frame is junked, and nobody had it mapped. */
  lemma FreeStep(s: State, held: multiset<nat>, f: nat)
    requires Good(s, held) && f in held
    ensures f < |s.phys.ref| && s.phys.ref[f] > 0 && f !in s.phys.free
    ensures Good(s.(phys := s.phys.Free(f)), held - multiset{f})
    ensures SamePages(s, s.(phys := s.phys.Free(f)))
  {
    FreeExact(s, held, f);
    FreeShape(s, held, f);
    HeldNotExclusive(s, held, f);
    SamePagesIf(s, s.phys.Free(f));
  }

  lemma CountSet(s: State, k: Slot, e: Pte, g: nat)
    ensures Count(SetPte(s, k, e), g) + (if k in s.ptes && s.ptes[k].frame == g then 1 else 0)
         == Count(s, g) + (if e.frame == g then 1 else 0)
  {
    LeavesSet(s.ptes, k, e, g);
    WithoutSize(Leaves(s.ptes, g), k);
  }

  lemma WithoutSize(a: set<Slot>, k: Slot)
    ensures |a - {k}| + (if k in a then 1 else 0) == |a|
    ensures |(a - {k}) + {k}| == |a - {k}| + 1
    ensures (a - {k}) + {} == a - {k}
  {
  }

  lemma MapExact(s: State, held: multiset<nat>, k: Slot, e: Pte)
    requires Exact(s, held) && e.frame in held && k !in s.ptes
    ensures Exact(SetPte(s, k, e), held - multiset{e.frame})
  {
    forall g: nat { CountSet(s, k, e, g); }
  }

  /** Moving a held frame into an empty entry. */
  lemma MapStep(s: State, held: multiset<nat>, k: Slot, e: Pte)
    requires Good(s, held) && e.frame in held && k !in s.ptes
    requires k.0 in s.dirs && k.1 < USERTABLES * NPTENTRIES && (k.0, k.1 / NPTENTRIES) in s.tabs
    requires e.w != e.cow
    requires e.w ==> s.phys.ref[e.frame] == 1
    requires forall l :: l in s.ptes && s.ptes[l].frame == e.frame ==> l.1 == k.1
    requires k.0 in s.sizes ==> k.1 * PGSIZE < s.sizes[k.0]
    ensures Good(SetPte(s, k, e), held - multiset{e.frame})
  {
    MapExact(s, held, k, e);
    SetShape(s, k, e);
    SetAligned(s.ptes, k, e);
    SetSized(s, k, e);
  }

  lemma SetAligned(ptes: map<Slot, Pte>, k: Slot, e: Pte)
    requires Aligned(ptes)
    requires forall l :: l in ptes && ptes[l].frame == e.frame ==> l.1 == k.1
    ensures Aligned(ptes[k := e])
  {
  }

  lemma SetSized(s: State, k: Slot, e: Pte)
    requires Sized(s.dirs, s.ptes, s.sizes)
    requires k.0 in s.sizes ==> k.1 * PGSIZE < s.sizes[k.0]
    ensures Sized(s.dirs, s.ptes[k := e], s.sizes)
  {
  }

  lemma SetShape(s: State, k: Slot, e: Pte)
    requires Shape(s)
    requires k.0 in s.dirs && k.1 < USERTABLES * NPTENTRIES && (k.0, k.1 / NPTENTRIES) in s.tabs
    requires e.w != e.cow && e.frame < |s.phys.ref|
    requires e.w ==> s.phys.ref[e.frame] == 1
    ensures Shape(SetPte(s, k, e))
  {
    var t := SetPte(s, k, e);
    forall l | l in t.ptes ensures EntryOk(t, l) {
      if l != k { assert EntryOk(s, l); }
    }
    forall l | l in t.tabs ensures TableOk(t, l) {
      assert TableOk(s, l);
    }
  }

  lemma SwapExact(s: State, held: multiset<nat>, k: Slot, e: Pte)
    requires Exact(s, held + multiset{e.frame}) && k in s.ptes
    ensures Exact(SetPte(s, k, e), held + multiset{s.ptes[k].frame})
  {
    assert e.frame in held + multiset{e.frame};
    forall g: nat { CountSet(s, k, e, g); }
  }

  /** Replacing an entry by one for a held frame leaves the old frame held. */
  lemma SwapStep(s: State, held: multiset<nat>, k: Slot, e: Pte)
    requires Good(s, held + multiset{e.frame}) && k in s.ptes
    requires e.w != e.cow
    requires e.w ==> e.frame < |s.phys.ref| && s.phys.ref[e.frame] == 1
    requires forall l :: l in s.ptes && s.ptes[l].frame == e.frame ==> l.1 == k.1
    ensures Good(SetPte(s, k, e), held + multiset{s.ptes[k].frame})
  {
    assert e.frame in held + multiset{e.frame};
    SwapExact(s, held, k, e);
    assert EntryOk(s, k);
    SetShape(s, k, e);
    SetAligned(s.ptes, k, e);
    SetSized(s, k, e);
  }

  lemma CountClear(s: State, k: Slot, g: nat)
    requires k in s.ptes
    ensures Count(ClearPte(s, k), g) + (if s.ptes[k].frame == g then 1 else 0) == Count(s, g)
  {
    LeavesClear(s.ptes, k, g);
    WithoutSize(Leaves(s.ptes, g), k);
  }

  lemma ClearExact(s: State, held: multiset<nat>, k: Slot)
    requires Exact(s, held) && k in s.ptes
    ensures Exact(ClearPte(s, k), held + multiset{s.ptes[k].frame})
  {
    forall g: nat { CountClear(s, k, g); }
  }

  lemma ClearShape(s: State, k: Slot)
    requires Shape(s) && Sized(s.dirs, s.ptes, s.sizes) && Aligned(s.ptes)
    ensures Shape(ClearPte(s, k)) && Sized(s.dirs, s.ptes - {k}, s.sizes) && Aligned(s.ptes - {k})
  {
    var t := ClearPte(s, k);
    forall l | l in t.ptes ensures EntryOk(t, l) { assert EntryOk(s, l); }
    forall l | l in t.tabs ensures TableOk(t, l) { assert TableOk(s, l); }
  }

  lemma ClearPages(s: State, k: Slot)
    ensures SamePagesBut(s, ClearPte(s, k), k)
  {
  }

  /** Dropping an entry and its reference, in the order of the source: the frame is freed
      first, the entry cleared second. */
  lemma UnmapStep(s: State, held: multiset<nat>, k: Slot)
    requires Good(s, held) && k in s.ptes
    ensures var f := s.ptes[k].frame;
            && s.phys.Managed(f) && s.phys.ref[f] > 0 && f !in s.phys.free
            && Good(ClearPte(s.(phys := s.phys.Free(f)), k), held)
            && SamePagesBut(s, ClearPte(s.(phys := s.phys.Free(f)), k), k)
  {
    var f, t := s.ptes[k].frame, ClearPte(s, k);
    ClearExact(s, held, k);
    ClearShape(s, k);
    FreeBack(t, held, f);
    ClearPages(s, k);
  }

  /** FreeStep for the last frame taken in hand. */
  lemma FreeBack(s: State, held: multiset<nat>, f: nat)
    requires Good(s, held + multiset{f})
    ensures s.phys.Managed(f) && s.phys.ref[f] > 0 && f !in s.phys.free
    ensures Good(s.(phys := s.phys.Free(f)), held)
    ensures SamePages(s, s.(phys := s.phys.Free(f)))
  {
    assert f in held + multiset{f};
    FreeStep(s, held + multiset{f}, f);
    assert held + multiset{f} - multiset{f} == held;
  }

  lemma FreshNotShared(s: State, held: multiset<nat>, f: nat)
    requires Exact(s, held) && f in held && s.phys.ref[f] == 1
    ensures Count(s, f) == 0 && held[f] == 1
  {
  }

  /** A held, otherwise unreferenced frame becomes a page-table page. */
  lemma TableStep(s: State, held: multiset<nat>, k: Slot, f: nat)
    requires Good(s, held) && f in held && s.phys.ref[f] == 1
    requires k !in s.tabs && k.0 in s.dirs && k.1 < NPTENTRIES
    ensures Good(s.(tabs := s.tabs[k := f]), held - multiset{f})
  {
    forall g: nat { CountTable(s, k, f, g); }
    TableShape(s, k, f);
    TableExact(s, held, k, f);
  }

  lemma CountTable(s: State, k: Slot, f: nat, g: nat)
    requires k !in s.tabs
    ensures Count(s.(tabs := s.tabs[k := f]), g) == Count(s, g) + if g == f then 1 else 0
  {
    TablesSet(s.tabs, k, f, g);
    assert k !in Tables(s.tabs, g);
  }

  lemma TableExact(s: State, held: multiset<nat>, k: Slot, f: nat)
    requires Exact(s, held) && f in held && k !in s.tabs
    requires forall g: nat :: Count(s.(tabs := s.tabs[k := f]), g) == Count(s, g) + if g == f then 1 else 0
    ensures Exact(s.(tabs := s.tabs[k := f]), held - multiset{f})
  {
  }

  lemma TableShape(s: State, k: Slot, f: nat)
    requires Shape(s) && k.0 in s.dirs && k.1 < NPTENTRIES && f < |s.phys.ref| && s.phys.ref[f] == 1
    ensures Shape(s.(tabs := s.tabs[k := f]))
  {
    var t := s.(tabs := s.tabs[k := f]);
    forall l | l in t.ptes ensures EntryOk(t, l) { assert EntryOk(s, l); }
    forall l | l in t.tabs ensures TableOk(t, l) { if l != k { assert TableOk(s, l); } }
  }

  /** A held, otherwise unreferenced frame becomes a page directory. */
  lemma DirStep(s: State, held: multiset<nat>, f: nat)
    requires Good(s, held) && f in held && s.phys.ref[f] == 1
    ensures f !in s.dirs
    ensures Good(s.(dirs := s.dirs + {f}), held - multiset{f})
  {
    var t := s.(dirs := s.dirs + {f});
    FreshNotShared(s, held, f);
    DirShape(s, f);
    DirExact(s, held, f);
  }

  lemma DirShape(s: State, f: nat)
    requires Shape(s) && f < |s.phys.ref| && s.phys.ref[f] == 1
    ensures Shape(s.(dirs := s.dirs + {f}))
  {
    var t := s.(dirs := s.dirs + {f});
    forall l | l in t.ptes ensures EntryOk(t, l) { assert EntryOk(s, l); }
    forall l | l in t.tabs ensures TableOk(t, l) { assert TableOk(s, l); }
  }

  lemma DirExact(s: State, held: multiset<nat>, f: nat)
    requires Exact(s, held) && f in held && f !in s.dirs
    ensures Exact(s.(dirs := s.dirs + {f}), held - multiset{f})
  {
  }

  /** Freeing the page-table page at `k`, once no entry lies in it. */
  lemma UntableStep(s: State, held: multiset<nat>, k: Slot)
    requires Good(s, held) && k in s.tabs
    requires forall l :: l in s.ptes && l.0 == k.0 ==> l.1 / NPTENTRIES != k.1
    ensures var f := s.tabs[k];
            && s.phys.Managed(f) && s.phys.ref[f] > 0 && f !in s.phys.free
            && Good(s.(phys := s.phys.Free(f), tabs := s.tabs - {k}), held)
            && SamePages(s, s.(phys := s.phys.Free(f), tabs := s.tabs - {k}))
  {
    var f, t := s.tabs[k], s.(tabs := s.tabs - {k});
    forall g: nat { CountUntable(s, k, g); }
    UntableExact(s, held, k);
    UntableShape(s, k);
    FreeBack(t, held, f);
  }

  lemma CountUntable(s: State, k: Slot, g: nat)
    requires k in s.tabs
    ensures Count(s.(tabs := s.tabs - {k}), g) + (if g == s.tabs[k] then 1 else 0) == Count(s, g)
  {
    assert Tables(s.tabs - {k}, g) == Tables(s.tabs, g) - {k};
    WithoutSize(Tables(s.tabs, g), k);
  }

  lemma UntableShape(s: State, k: Slot)
    requires Shape(s)
    requires forall l :: l in s.ptes && l.0 == k.0 ==> l.1 / NPTENTRIES != k.1
    ensures Shape(s.(tabs := s.tabs - {k}))
  {
    var t := s.(tabs := s.tabs - {k});
    forall l | l in t.ptes ensures EntryOk(t, l) { assert EntryOk(s, l); }
    forall l | l in t.tabs ensures TableOk(t, l) { assert TableOk(s, l); }
  }

  lemma UntableExact(s: State, held: multiset<nat>, k: Slot)
    requires Exact(s, held) && k in s.tabs
    requires forall g: nat :: Count(s.(tabs := s.tabs - {k}), g) + (if g == s.tabs[k] then 1 else 0) == Count(s, g)
    ensures Exact(s.(tabs := s.tabs - {k}), held + multiset{s.tabs[k]})
  {
  }

  /** Freeing the page directory itself, last of all. */
  lemma UndirStep(s: State, held: multiset<nat>, d: nat)
    requires Good(s, held) && d in s.dirs && d !in s.sizes
    requires forall l :: l in s.tabs ==> l.0 != d
    ensures s.phys.Managed(d) && s.phys.ref[d] > 0 && d !in s.phys.free
    ensures Good(s.(phys := s.phys.Free(d), dirs := s.dirs - {d}), held)
    ensures SamePages(s, s.(phys := s.phys.Free(d), dirs := s.dirs - {d}))
  {
    var t := s.(dirs := s.dirs - {d});
    UndirExact(s, held, d);
    UndirShape(s, d);
    FreeBack(t, held, d);
  }

  lemma UndirShape(s: State, d: nat)
    requires Shape(s)
    requires forall l :: l in s.tabs ==> l.0 != d
    ensures Shape(s.(dirs := s.dirs - {d}))
  {
    var t := s.(dirs := s.dirs - {d});
    forall l | l in t.ptes ensures EntryOk(t, l) { assert EntryOk(s, l); }
    forall l | l in t.tabs ensures TableOk(t, l) { assert TableOk(s, l); }
  }

  lemma UndirExact(s: State, held: multiset<nat>, d: nat)
    requires Exact(s, held) && d in s.dirs
    ensures Exact(s.(dirs := s.dirs - {d}), held + multiset{d})
  {
  }

  // ------------------------------------------------------------------- sharing and writing

  /** The entries naming a frame are in different directories. */
  lemma {:induction false} LeavesAtMostDirs(ls: set<Slot>, dirs: set<nat>)
    requires forall k :: k in ls ==> k.0 in dirs
    requires forall k, l :: k in ls && l in ls && k.0 == l.0 ==> k == l
    ensures |ls| <= |dirs|
    decreases |ls|
  {
    if k :| k in ls {
      LeavesAtMostDirs(ls - {k}, dirs - {k.0});
    }
  }

  /** The count of a user frame never exceeds the number of page directories. */
  lemma CountBound(s: State, held: multiset<nat>, k: Slot)
    requires Good(s, held) && k in s.ptes
    ensures s.phys.Managed(s.ptes[k].frame)
    ensures s.phys.ref[s.ptes[k].frame] <= |s.dirs| + held[s.ptes[k].frame]
  {
    var f := s.ptes[k].frame;
    var ls := Leaves(s.ptes, f);
    assert k in ls;
    forall l | l in ls ensures l.0 in s.dirs { assert EntryOk(s, l); }
    forall l, m | l in ls && m in ls && l.0 == m.0 ensures l == m { assert l.1 == m.1; }
    LeavesAtMostDirs(ls, s.dirs);
    LeafOnly(s, held, k);
  }

  /** A mapped user frame is neither a page-table page nor a page directory. */
  lemma LeafOnly(s: State, held: multiset<nat>, k: Slot)
    requires Exact(s, held) && Shape(s) && k in s.ptes
    ensures forall l :: l in s.tabs ==> s.tabs[l] != s.ptes[k].frame
    ensures s.ptes[k].frame !in s.dirs
    ensures Count(s, s.ptes[k].frame) == |Leaves(s.ptes, s.ptes[k].frame)|
  {
    var f := s.ptes[k].frame;
    assert k in Leaves(s.ptes, f);
    assert forall l :: l in s.tabs && s.tabs[l] == f ==> TableOk(s, l) && l in Tables(s.tabs, f);
    assert Tables(s.tabs, f) == {};
  }

  /** Raising the count of a read-only mapped frame: it does not wrap, and one reference is in hand. */
  lemma IncrefStep(s: State, held: multiset<nat>, k: Slot)
    requires Good(s, held) && k in s.ptes && !s.ptes[k].w && s.ptes[k].frame !in held
    requires |s.dirs| < USHORT - 1
    ensures var f := s.ptes[k].frame;
            && s.phys.Managed(f) && 0 < s.phys.ref[f]
            && s.phys.Incref(f).ref[f] == s.phys.ref[f] + 1
            && Good(s.(phys := s.phys.Incref(f)), held + multiset{f})
            && SamePages(s, s.(phys := s.phys.Incref(f)))
  {
    hide Aligned, Sized, PageAt;
    var f := s.ptes[k].frame;
    CountBound(s, held, k);
    assert k in Leaves(s.ptes, f);
    LeafOnly(s, held, k);
    forall l | l in s.ptes && s.ptes[l].w ensures s.ptes[l].frame != f { SharedNotWritable(s, held, k, l); }
    ShapeGives(s);
    PhysShape(s, s.phys.Incref(f));
    IncrefExact(s, held, f);
    SamePagesIf(s, s.phys.Incref(f));
  }

  lemma IncrefExact(s: State, held: multiset<nat>, f: nat)
    requires Exact(s, held) && s.phys.Managed(f) && 0 < s.phys.ref[f] < USHORT - 1
    ensures Exact(s.(phys := s.phys.Incref(f)), held + multiset{f})
  {
    var p := s.phys.Incref(f);
    assert p.ref == s.phys.ref[f := s.phys.ref[f] + 1];
    assert p.Valid();
  }

  /** Two entries name one frame only if both are read-only. */
  lemma SharedNotWritable(s: State, held: multiset<nat>, k: Slot, l: Slot)
    requires Exact(s, held) && Shape(s) && k in s.ptes && l in s.ptes && k != l && s.ptes[l].w
    ensures s.ptes[k].frame != s.ptes[l].frame
  {
    var f := s.ptes[l].frame;
    assert EntryOk(s, l);
    assert l in Leaves(s.ptes, f);
    assert |Leaves(s.ptes, f)| == 1;
    assert |Leaves(s.ptes, f) - {l}| == 0;
    assert s.ptes[k].frame == f ==> k in Leaves(s.ptes, f) - {l};
  }

  /** Writing through a writable entry changes that one page of that one directory. */
  lemma StoreStep(s: State, held: multiset<nat>, k: Slot, p: Page)
    requires Good(s, held) && k in s.ptes && s.ptes[k].w
    ensures var t := s.(phys := s.phys.Fill(s.ptes[k].frame, p));
            && Good(t, held)
            && PageAt(t, k.0, k.1) == Eager.EPage(p, s.ptes[k].u)
            && SamePagesBut(s, t, k)
  {
    var f := s.ptes[k].frame;
    FillExact(s, held, f, p);
    ShapeGives(s);
    PhysShape(s, s.phys.Fill(f, p));
    forall l | l in s.ptes && l != k ensures s.ptes[l].frame != f { SharedNotWritable(s, held, l, k); }
    FillPages(s, k, p);
  }

  lemma FillPages(s: State, k: Slot, p: Page)
    requires k in s.ptes && s.ptes[k].frame < |s.phys.mem|
    requires forall l :: l in s.ptes && l != k ==> s.ptes[l].frame != s.ptes[k].frame
    ensures SamePagesBut(s, s.(phys := s.phys.Fill(s.ptes[k].frame, p)), k)
  {
  }

  lemma FlagExact(s: State, held: multiset<nat>, k: Slot, e: Pte)
    requires Exact(s, held) && k in s.ptes && e.frame == s.ptes[k].frame
    ensures Exact(SetPte(s, k, e), held)
  {
    forall g: nat { CountSet(s, k, e, g); }
  }

  /** Changing the flags of an entry. */
  lemma FlagStep(s: State, held: multiset<nat>, k: Slot, e: Pte)
    requires Good(s, held) && k in s.ptes && e.frame == s.ptes[k].frame && e.w != e.cow
    requires e.w ==> e.frame < |s.phys.ref| && s.phys.ref[e.frame] == 1
    ensures Good(SetPte(s, k, e), held)
    ensures SamePagesBut(s, SetPte(s, k, e), k)
    ensures e.u == s.ptes[k].u ==> SamePages(s, SetPte(s, k, e))
  {
    hide Exact, PageAt, Count;
    FlagExact(s, held, k, e);
    assert EntryOk(s, k);
    SetShape(s, k, e);
    SetAligned(s.ptes, k, e);
    SetSized(s, k, e);
    FlagPages(s, k, e);
  }

  lemma FlagPages(s: State, k: Slot, e: Pte)
    requires k in s.ptes && e.frame == s.ptes[k].frame
    ensures SamePagesBut(s, SetPte(s, k, e), k)
    ensures e.u == s.ptes[k].u ==> SamePages(s, SetPte(s, k, e))
  {
  }
}
