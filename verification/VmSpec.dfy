/** vm.c as functions on the value of the memory state, and what each of them keeps. */
module VmSpec {
  import opened Frames
  import opened AddressSpaces

  /** Page-directory indices covered by the kernel's own mappings (the kmap table):
      KERNBASE..KERNBASE+PHYSTOP and DEVSPACE..2^32. */
  function Kmap(i: nat): nat {
    if i < 56 then USERTABLES + i else 1016 + (i - 56)
  }

  const NKMAP: nat := 64

  const PHYSTOP: nat := 0xE00_0000
  const DEVSPACE: nat := 0xFE00_0000
  const TABLESPAN: nat := PGSIZE * NPTENTRIES

  /** A page table is among the kernel's exactly if an address of the kernel's mappings lies in it, and
      none is counted twice. */
  lemma KmapExact(i: nat)
    requires i < NPTENTRIES
    ensures (exists n: nat :: n < NKMAP && Kmap(n) == i) <==>
              Eager.KERNBASE / TABLESPAN <= i < (Eager.KERNBASE + PHYSTOP) / TABLESPAN || DEVSPACE / TABLESPAN <= i < 0x1_0000_0000 / TABLESPAN
    ensures forall n: nat, m: nat :: n < NKMAP && m < NKMAP && Kmap(n) == Kmap(m) ==> n == m
  {
    if USERTABLES <= i < USERTABLES + 56 { assert Kmap(i - USERTABLES) == i; }
    if 1016 <= i { assert Kmap(i - 1016 + 56) == i; }
  }

  // ------------------------------------------------------------ growing a page table

  /** walkpgdir with alloc set, for page-directory index `i`. */
  function WalkAlloc(s: State, d: nat, i: nat): (State, bool) {
    if (d, i) in s.tabs then (s, true)
    else if s.phys.free == [] then (s, false)
    else
      var f := s.phys.free[0];
      (s.(phys := s.phys.Alloc().Fill(f, ZeroPage()), tabs := s.tabs[(d, i) := f]), true)
  }

  /** mappages for one page. */
  function MapPage(s: State, k: Slot, e: Pte): (State, bool) {
    var (t, ok) := WalkAlloc(s, k.0, k.1 / NPTENTRIES);
    if ok then (SetPte(t, k, e), true) else (t, false)
  }

  /** setupkvm's loop over the first `n` kernel tables. */
  function SetupTo(s: State, d: nat, n: nat): (State, bool) {
    if n == 0 then (s, true)
    else
      var (t, ok) := SetupTo(s, d, n - 1);
      if ok then WalkAlloc(t, d, Kmap(n - 1)) else (t, false)
  }

  /** Only frames, tables and the free list differ; no user entry does. */
  ghost predicate Grown(s: State, t: State, d: nat) {
    && t.ptes == s.ptes && t.dirs == s.dirs && t.sizes == s.sizes
    && SamePages(s, t)
    && (forall k :: k in s.tabs ==> k in t.tabs && t.tabs[k] == s.tabs[k])
    && (forall k :: k in t.tabs && k !in s.tabs ==> k.0 == d)
    && |t.phys.free| + |t.tabs| == |s.phys.free| + |s.tabs|
    && KeptFrames(s.phys, t.phys)
  }

  /** A frame with references keeps its count and its contents. */
  ghost predicate KeptFrames(p: Phys, q: Phys) {
    && |p.ref| == |q.ref| && |p.mem| == |q.mem|
    && (forall f :: 0 <= f < |p.ref| && p.ref[f] > 0 ==> q.ref[f] == p.ref[f] && (f < |p.mem| ==> q.mem[f] == p.mem[f]))
  }

  /** The state after a page-table page has been taken for `k`. */
  function NewTable(s: State, k: Slot): State
    requires s.phys.free != []
  {
    var f := s.phys.free[0];
    s.(phys := s.phys.Alloc().Fill(f, ZeroPage()), tabs := s.tabs[k := f])
  }

  lemma NewTableGood(s: State, held: multiset<nat>, k: Slot)
    requires Good(s, held) && k.0 in s.dirs && k.1 < NPTENTRIES && k !in s.tabs && s.phys.free != []
    ensures Good(NewTable(s, k), held)
    ensures SamePages(s, NewTable(s, k))
  {
    hide Exact, Shape, Sized, Aligned, PageAt, SamePages, Count;
    var f := s.phys.free[0];
    AllocStep(s, held);
    var t := s.(phys := s.phys.Alloc());
    FillStep(t, held + multiset{f}, f, ZeroPage());
    var u := t.(phys := t.phys.Fill(f, ZeroPage()));
    TableStep(u, held + multiset{f}, k, f);
    assert held + multiset{f} - multiset{f} == held;
    SamePagesTrans(s, t, u);
    assert NewTable(s, k) == u.(tabs := u.tabs[k := f]);
    SameEntries(u, NewTable(s, k));
    SamePagesTrans(s, u, NewTable(s, k));
  }

  lemma SameEntries(s: State, t: State)
    requires s.ptes == t.ptes && s.phys.mem == t.phys.mem
    ensures SamePages(s, t)
  {
  }

  lemma SamePagesTrans(s: State, t: State, u: State)
    requires SamePages(s, t) && SamePages(t, u)
    ensures SamePages(s, u)
  {
    forall d: nat, v: nat ensures PageAt(s, d, v) == PageAt(u, d, v) {
      assert PageAt(s, d, v) == PageAt(t, d, v);
    }
  }

  lemma NewTableGrown(s: State, held: multiset<nat>, k: Slot)
    requires Good(s, held) && k.0 in s.dirs && k.1 < NPTENTRIES && k !in s.tabs && s.phys.free != []
    ensures Grown(s, NewTable(s, k), k.0)
    ensures NewTable(s, k).tabs.Keys == s.tabs.Keys + {k}
  {
    hide Exact, Shape, Sized, Aligned, PageAt, Count, SamePages, KeptFrames;
    NewTableGood(s, held, k);
    NewTableKept(s, held, k);
    AllocStep(s, held);
  }

  lemma NewTableKept(s: State, held: multiset<nat>, k: Slot)
    requires Exact(s, held) && s.phys.free != []
    ensures KeptFrames(s.phys, NewTable(s, k).phys)
    ensures |NewTable(s, k).phys.free| == |s.phys.free| - 1
  {
    hide Count;
    s.phys.AllocValid();
  }

  lemma WalkAllocGood(s: State, held: multiset<nat>, d: nat, i: nat)
    requires Good(s, held) && d in s.dirs && i < NPTENTRIES
    ensures Good(WalkAlloc(s, d, i).0, held)
    ensures Grown(s, WalkAlloc(s, d, i).0, d)
    ensures WalkAlloc(s, d, i).1 ==> WalkAlloc(s, d, i).0.tabs.Keys == s.tabs.Keys + {(d, i)}
    ensures !WalkAlloc(s, d, i).1 ==> WalkAlloc(s, d, i).0 == s && s.phys.free == [] && (d, i) !in s.tabs
  {
    hide Good, PageAt, Count;
    if (d, i) in s.tabs {
      assert s.tabs.Keys == s.tabs.Keys + {(d, i)};
    } else if s.phys.free != [] {
      NewTableGood(s, held, (d, i));
      NewTableGrown(s, held, (d, i));
    }
  }

  lemma SetPages(s: State, k: Slot, e: Pte)
    ensures SamePagesBut(s, SetPte(s, k, e), k)
  {
  }

  lemma SameThenBut(s: State, t: State, u: State, k: Slot)
    requires SamePages(s, t) && SamePagesBut(t, u, k)
    ensures SamePagesBut(s, u, k)
  {
    forall d: nat, v: nat | (d, v) != k ensures PageAt(s, d, v) == PageAt(u, d, v) {
      assert PageAt(s, d, v) == PageAt(t, d, v);
    }
  }

  /** mappages either maps the held frame, or leaves the state as it was. */
  lemma MapPageGood(s: State, held: multiset<nat>, k: Slot, e: Pte)
    requires Good(s, held) && e.frame in held && k !in s.ptes
    requires k.0 in s.dirs && k.1 < USERTABLES * NPTENTRIES
    requires e.w != e.cow && e.frame < |s.phys.ref| && 0 < s.phys.ref[e.frame]
    requires e.w ==> s.phys.ref[e.frame] == 1
    requires forall l :: l in s.ptes && s.ptes[l].frame == e.frame ==> l.1 == k.1
    requires k.0 in s.sizes ==> k.1 * PGSIZE < s.sizes[k.0]
    ensures MapPage(s, k, e).1 ==> Good(MapPage(s, k, e).0, held - multiset{e.frame})
    ensures !MapPage(s, k, e).1 ==> MapPage(s, k, e).0 == s && s.phys.free == []
  {
    hide Exact, Shape, Sized, Aligned, PageAt, Count;
    var i := k.1 / NPTENTRIES;
    WalkAllocGood(s, held, k.0, i);
    var (t, ok) := WalkAlloc(s, k.0, i);
    if ok {
      MapStep(t, held, k, e);
    }
  }

  lemma MapPageEffect(s: State, held: multiset<nat>, k: Slot, e: Pte)
    requires Good(s, held) && k !in s.ptes && k.0 in s.dirs && k.1 < USERTABLES * NPTENTRIES
    requires MapPage(s, k, e).1
    ensures var t := MapPage(s, k, e).0;
            && t.ptes == s.ptes[k := e] && t.dirs == s.dirs && t.sizes == s.sizes
            && SamePagesBut(s, t, k)
            && t.tabs.Keys == s.tabs.Keys + {(k.0, k.1 / NPTENTRIES)}
            && |t.phys.free| + |t.tabs| == |s.phys.free| + |s.tabs|
            && (forall l :: l in s.tabs ==> t.tabs[l] == s.tabs[l])
            && KeptFrames(s.phys, t.phys)
  {
    hide Good, PageAt, Count;
    var i := k.1 / NPTENTRIES;
    WalkAllocGood(s, held, k.0, i);
    var t := WalkAlloc(s, k.0, i).0;
    SetPages(t, k, e);
    SameThenBut(s, t, SetPte(t, k, e), k);
  }

  /** setupkvm's loop only adds page-table pages to the new directory. */
  lemma {:induction false} SetupGood(s: State, held: multiset<nat>, d: nat, n: nat)
    requires Good(s, held) && d in s.dirs && n <= NKMAP
    ensures Good(SetupTo(s, d, n).0, held)
    ensures Grown(s, SetupTo(s, d, n).0, d)
  {
    hide Good, SamePages, Count;
    if n == 0 {
      SamePagesSelf(s);
    } else {
      SetupGood(s, held, d, n - 1);
      var (t, ok) := SetupTo(s, d, n - 1);
      if ok {
        WalkAllocGood(t, held, d, Kmap(n - 1));
        GrownTrans(s, t, WalkAlloc(t, d, Kmap(n - 1)).0, d);
      }
    }
  }

  lemma SamePagesSelf(s: State)
    ensures SamePages(s, s)
  {
  }

  lemma {:induction false} SetupTables(s: State, held: multiset<nat>, d: nat, n: nat)
    requires Good(s, held) && d in s.dirs && n <= NKMAP && SetupTo(s, d, n).1
    ensures SetupTo(s, d, n).0.tabs.Keys == s.tabs.Keys + KmapTables(d, n)
  {
    hide Good, Grown, WalkAlloc, Kmap, KmapTables;
    if n == 0 {
      KmapTablesNone(d);
      assert s.tabs.Keys == s.tabs.Keys + KmapTables(d, n);
    } else {
      SetupTables(s, held, d, n - 1);
      SetupNext(s, held, d, n);
      KmapTablesNext(d, n);
      UnionAssoc(s.tabs.Keys, KmapTables(d, n - 1), {(d, Kmap(n - 1))});
    }
  }

  lemma UnionAssoc(a: set<Slot>, b: set<Slot>, c: set<Slot>)
    ensures (a + b) + c == a + (b + c)
  {
  }

  lemma SetupNext(s: State, held: multiset<nat>, d: nat, n: nat)
    requires Good(s, held) && d in s.dirs && 0 < n <= NKMAP && SetupTo(s, d, n).1
    ensures SetupTo(s, d, n - 1).1
    ensures SetupTo(s, d, n).0.tabs.Keys == SetupTo(s, d, n - 1).0.tabs.Keys + {(d, Kmap(n - 1))}
  {
    hide Good, SamePages, Count, WalkAlloc, Kmap;
    SetupGood(s, held, d, n - 1);
    KmapBound(n - 1);
    WalkAllocGood(SetupTo(s, d, n - 1).0, held, d, Kmap(n - 1));
  }

  lemma KmapTablesNone(d: nat)
    ensures KmapTables(d, 0) == {}
  {
  }

  lemma KmapBound(i: nat)
    requires i < NKMAP
    ensures USERTABLES <= Kmap(i) < NPTENTRIES
  {
  }

  lemma KmapTablesNext(d: nat, n: nat)
    requires n > 0
    ensures KmapTables(d, n) == KmapTables(d, n - 1) + {(d, Kmap(n - 1))}
  {
  }

  function KmapTables(d: nat, n: nat): set<Slot> {
    set i: nat | i < n :: (d, Kmap(i))
  }

  lemma GrownTrans(s: State, t: State, u: State, d: nat)
    requires Grown(s, t, d) && Grown(t, u, d)
    ensures Grown(s, u, d)
  {
    hide PageAt, SamePages;
    SamePagesTrans(s, t, u);
  }

  // ------------------------------------------------------------ taking a page table apart

  /** One turn of deallocuvm's loop. */
  function UnmapIf(s: State, k: Slot): State {
    if k in s.ptes then ClearPte(s.(phys := s.phys.Free(s.ptes[k].frame)), k) else s
  }

  /** deallocuvm over the virtual pages lo..hi. */
  function DeallocTo(s: State, d: nat, lo: nat, hi: nat): State {
    if hi <= lo then s else UnmapIf(DeallocTo(s, d, lo, hi - 1), (d, hi - 1))
  }

  /** The entries of `d` at pages lo..hi are gone, and nothing else has changed. */
  ghost predicate Cleared(s: State, t: State, d: nat, lo: nat, hi: nat) {
    && t.dirs == s.dirs && t.tabs == s.tabs && t.sizes == s.sizes
    && (forall k :: k in t.ptes <==> k in s.ptes && !(k.0 == d && lo <= k.1 < hi))
    && (forall k :: k in t.ptes ==> t.ptes[k] == s.ptes[k])
    && (forall c: nat, v: nat :: !(c == d && lo <= v < hi) ==> PageAt(s, c, v) == PageAt(t, c, v))
  }

  lemma {:induction false} DeallocGood(s: State, held: multiset<nat>, d: nat, lo: nat, hi: nat)
    requires Good(s, held) && lo <= hi
    ensures Good(DeallocTo(s, d, lo, hi), held)
    ensures Cleared(s, DeallocTo(s, d, lo, hi), d, lo, hi)
  {
    hide Good, PageAt, Count;
    if lo < hi {
      DeallocGood(s, held, d, lo, hi - 1);
      var t, k := DeallocTo(s, d, lo, hi - 1), (d, hi - 1);
      if k in t.ptes {
        UnmapStep(t, held, k);
      }
      ClearedNext(s, t, d, lo, hi);
    }
  }

  lemma ClearedNext(s: State, t: State, d: nat, lo: nat, hi: nat)
    requires lo < hi && Cleared(s, t, d, lo, hi - 1)
    requires SamePagesBut(t, UnmapIf(t, (d, hi - 1)), (d, hi - 1))
    ensures Cleared(s, UnmapIf(t, (d, hi - 1)), d, lo, hi)
  {
    hide PageAt;
    var u := UnmapIf(t, (d, hi - 1));
    forall c: nat, v: nat | !(c == d && lo <= v < hi) ensures PageAt(s, c, v) == PageAt(u, c, v) {
      assert (c, v) != (d, hi - 1);
    }
  }

  /** deallocuvm skips a page directory entry without a table: it would find nothing there. */
  lemma {:induction false} DeallocSkip(s: State, d: nat, lo: nat, a: nat, b: nat)
    requires lo <= a <= b
    requires forall v :: a <= v < b ==> (d, v) !in DeallocTo(s, d, lo, a).ptes
    ensures DeallocTo(s, d, lo, b) == DeallocTo(s, d, lo, a)
    decreases b
  {
    if a < b {
      DeallocSkip(s, d, lo, a, b - 1);
    }
  }

  /** freevm's loop over the first `n` page directory entries. */
  function UntabTo(s: State, d: nat, n: nat): State {
    if n == 0 then s
    else
      var t, k := UntabTo(s, d, n - 1), (d, n - 1);
      if k in t.tabs then t.(phys := t.phys.Free(t.tabs[k]), tabs := t.tabs - {k}) else t
  }

  lemma {:induction false} UntabGood(s: State, held: multiset<nat>, d: nat, n: nat)
    requires Good(s, held)
    requires forall l :: l in s.ptes ==> l.0 != d
    ensures Good(UntabTo(s, d, n), held)
    ensures SamePages(s, UntabTo(s, d, n))
  {
    hide Good, PageAt, Count;
    if n > 0 {
      UntabGood(s, held, d, n - 1);
      UntabKeeps(s, d, n - 1);
      var t, k := UntabTo(s, d, n - 1), (d, n - 1);
      if k in t.tabs {
        UntableStep(t, held, k);
        SamePagesTrans(s, t, UntabTo(s, d, n));
      }
    }
  }

  lemma {:induction false} UntabKeeps(s: State, d: nat, n: nat)
    ensures var t := UntabTo(s, d, n);
            && t.ptes == s.ptes && t.dirs == s.dirs && t.sizes == s.sizes
            && (forall k :: k in t.tabs <==> k in s.tabs && !(k.0 == d && k.1 < n))
            && (forall k :: k in t.tabs ==> t.tabs[k] == s.tabs[k])
  {
    if n > 0 {
      UntabKeeps(s, d, n - 1);
    }
  }

  /** freevm, for a directory that no process uses any more. */
  function FreeVm(s: State, d: nat): State {
    var t := UntabTo(DeallocTo(s, d, 0, USERTABLES * NPTENTRIES), d, NPTENTRIES);
    t.(phys := t.phys.Free(d), dirs := t.dirs - {d})
  }

  /** Everything of directory `d` is gone, and nothing else has changed. */
  ghost predicate Dropped(s: State, t: State, d: nat) {
    && t.dirs == s.dirs - {d} && t.sizes == s.sizes
    && (forall k :: k in t.ptes <==> k in s.ptes && k.0 != d)
    && (forall k :: k in t.ptes ==> t.ptes[k] == s.ptes[k])
    && (forall k :: k in t.tabs <==> k in s.tabs && k.0 != d)
    && (forall k :: k in t.tabs ==> t.tabs[k] == s.tabs[k])
    && (forall c: nat, v: nat :: c != d ==> PageAt(s, c, v) == PageAt(t, c, v))
  }

  lemma FreeVmStages(s: State, held: multiset<nat>, d: nat)
    requires Good(s, held) && d in s.dirs && d !in s.sizes
    ensures var t := DeallocTo(s, d, 0, USERTABLES * NPTENTRIES);
            var u := UntabTo(t, d, NPTENTRIES);
            && Good(t, held) && Cleared(s, t, d, 0, USERTABLES * NPTENTRIES)
            && (forall l :: l in t.ptes ==> l.0 != d)
            && Good(u, held) && SamePages(t, u)
            && (forall l :: l in u.tabs ==> l.0 != d)
            && d in u.dirs && d !in u.sizes
  {
    hide Exact, Sized, Aligned, PageAt, Count;
    DeallocGood(s, held, d, 0, USERTABLES * NPTENTRIES);
    var t := DeallocTo(s, d, 0, USERTABLES * NPTENTRIES);
    assert forall l :: l in s.ptes ==> EntryOk(s, l);
    UntabGood(t, held, d, NPTENTRIES);
    UntabKeeps(t, d, NPTENTRIES);
    assert forall l :: l in t.tabs ==> TableOk(t, l);
  }

  lemma FreeVmGood(s: State, held: multiset<nat>, d: nat)
    requires Good(s, held) && d in s.dirs && d !in s.sizes
    ensures Good(FreeVm(s, d), held)
    ensures Dropped(s, FreeVm(s, d), d)
  {
    hide Good, PageAt, Count;
    FreeVmStages(s, held, d);
    var t := DeallocTo(s, d, 0, USERTABLES * NPTENTRIES);
    var u := UntabTo(t, d, NPTENTRIES);
    UntabKeeps(t, d, NPTENTRIES);
    UndirStep(u, held, d);
    forall c: nat, v: nat | c != d ensures PageAt(s, c, v) == PageAt(FreeVm(s, d), c, v) {
      assert PageAt(s, c, v) == PageAt(t, c, v) == PageAt(u, c, v);
    }
  }

  // ------------------------------------------------------------ copy-on-write fork

  function ReadOnly(e: Pte): Pte {
    e.(w := false, cow := true)
  }

  /** One turn of cowuvm's loop, for virtual page `v` of parent `d` and child `c`. */
  function CowOne(s: State, d: nat, c: nat, v: nat): (State, bool) {
    if (d, v) !in s.ptes then (s, true)
    else
      var e := ReadOnly(s.ptes[(d, v)]);
      var t := SetPte(s, (d, v), e);
      var (u, ok) := MapPage(t.(phys := t.phys.Incref(e.frame)), (c, v), e);
      if ok then (u, true) else (u.(phys := u.phys.Free(e.frame)), false)
  }

  function CowTo(s: State, d: nat, c: nat, n: nat): (State, bool) {
    if n == 0 then (s, true)
    else
      var (t, ok) := CowTo(s, d, c, n - 1);
      if ok then CowOne(t, d, c, n - 1) else (t, false)
  }

  /** No user entry names a frame that kernel code holds. */
  ghost predicate Private(ptes: map<Slot, Pte>, held: multiset<nat>) {
    forall k :: k in ptes ==> ptes[k].frame !in held
  }

  /** Before the child is mapped: the parent's entry is read-only and one more reference is in hand. */
  lemma ShareGood(s: State, held: multiset<nat>, d: nat, v: nat)
    requires Good(s, held) && (d, v) in s.ptes && |s.dirs| < USHORT - 1 && Private(s.ptes, held)
    ensures var e := ReadOnly(s.ptes[(d, v)]);
            var t := SetPte(s, (d, v), e);
            var u := t.(phys := t.phys.Incref(e.frame));
            && Good(u, held + multiset{e.frame})
            && SamePages(s, u)
            && e.frame < |u.phys.ref| && u.phys.ref[e.frame] > 0
            && Aligned(t.ptes) && |u.phys.free| == |s.phys.free|
  {
    hide Exact, Shape, Sized, PageAt, Count;
    var e := ReadOnly(s.ptes[(d, v)]);
    FlagStep(s, held, (d, v), e);
    var t := SetPte(s, (d, v), e);
    IncrefStep(t, held, (d, v));
    SamePagesTrans(s, t, t.(phys := t.phys.Incref(e.frame)));
  }

  lemma CowOneGood(s: State, held: multiset<nat>, d: nat, c: nat, v: nat)
    requires Good(s, held) && |s.dirs| < USHORT - 1 && Private(s.ptes, held)
    requires d in s.dirs && c in s.dirs && c != d && c !in s.sizes && (c, v) !in s.ptes
    requires v < USERTABLES * NPTENTRIES
    ensures Good(CowOne(s, d, c, v).0, held)
  {
    hide Exact, Shape, Sized, PageAt, Count;
    if (d, v) in s.ptes {
      ShareGood(s, held, d, v);
      var e := ReadOnly(s.ptes[(d, v)]);
      var t := SetPte(s, (d, v), e);
      var u := t.(phys := t.phys.Incref(e.frame));
      assert (d, v) in u.ptes && u.ptes[(d, v)].frame == e.frame;
      MapPageGood(u, held + multiset{e.frame}, (c, v), e);
      assert held + multiset{e.frame} - multiset{e.frame} == held;
      if !MapPage(u, (c, v), e).1 {
        FreeBack(u, held, e.frame);
      }
    }
  }

  /** After page `v`: the parent reads the same, and the child has what the parent has. */
  ghost predicate SharedOne(s: State, t: State, d: nat, c: nat, v: nat) {
    && t.dirs == s.dirs && t.sizes == s.sizes
    && (forall k :: k in t.ptes <==> k in s.ptes || (k == (c, v) && (d, v) in s.ptes))
    && (forall k :: k in s.ptes && k != (d, v) ==> t.ptes[k] == s.ptes[k])
    && ((d, v) in s.ptes ==> t.ptes[(d, v)] == ReadOnly(s.ptes[(d, v)]) && t.ptes[(c, v)] == t.ptes[(d, v)])
    && SamePagesBut(s, t, (c, v))
  }

  lemma CowOneEffect(s: State, held: multiset<nat>, d: nat, c: nat, v: nat)
    requires Good(s, held) && |s.dirs| < USHORT - 1 && Private(s.ptes, held)
    requires d in s.dirs && c in s.dirs && c != d && (c, v) !in s.ptes
    requires v < USERTABLES * NPTENTRIES
    requires CowOne(s, d, c, v).1
    ensures SharedOne(s, CowOne(s, d, c, v).0, d, c, v)
  {
    hide Exact, Shape, Sized, PageAt, Count, SamePages;
    SamePagesSelfBut(s, (c, v));
    if (d, v) in s.ptes {
      ShareGood(s, held, d, v);
      var e := ReadOnly(s.ptes[(d, v)]);
      var t := SetPte(s, (d, v), e);
      var u := t.(phys := t.phys.Incref(e.frame));
      MapPageEffect(u, held + multiset{e.frame}, (c, v), e);
      SameThenBut(s, u, MapPage(u, (c, v), e).0, (c, v));
    }
  }

  lemma SamePagesSelfBut(s: State, k: Slot)
    ensures SamePagesBut(s, s, k)
  {
  }

  /** Outside the child nothing has changed but write permissions in the parent. */
  ghost predicate Kin(s: State, t: State, d: nat, c: nat) {
    && t.dirs == s.dirs && t.sizes == s.sizes
    && (forall k: Slot :: k.0 != c ==> (k in t.ptes <==> k in s.ptes))
    && (forall k: Slot :: k.0 != c && k in s.ptes ==>
          t.ptes[k] == s.ptes[k] || (k.0 == d && t.ptes[k] == ReadOnly(s.ptes[k])))
    && (forall k: Slot :: k.0 != c ==> (k in t.tabs <==> k in s.tabs))
    && (forall k: Slot :: k.0 != c && k in s.tabs ==> t.tabs[k] == s.tabs[k])
    && (forall a: nat, v: nat :: a != c ==> PageAt(s, a, v) == PageAt(t, a, v))
  }

  lemma KinTrans(s: State, t: State, u: State, d: nat, c: nat)
    requires Kin(s, t, d, c) && Kin(t, u, d, c)
    ensures Kin(s, u, d, c)
  {
    hide PageAt;
    forall a: nat, v: nat | a != c ensures PageAt(s, a, v) == PageAt(u, a, v) {
      assert PageAt(s, a, v) == PageAt(t, a, v);
    }
  }

  lemma CowOneKin(s: State, held: multiset<nat>, d: nat, c: nat, v: nat)
    requires Good(s, held) && |s.dirs| < USHORT - 1 && Private(s.ptes, held)
    requires d in s.dirs && c in s.dirs && c != d && c !in s.sizes && (c, v) !in s.ptes
    requires v < USERTABLES * NPTENTRIES
    ensures Kin(s, CowOne(s, d, c, v).0, d, c)
  {
    hide Exact, Shape, Sized, PageAt, Count;
    if (d, v) in s.ptes {
      if CowOne(s, d, c, v).1 {
        CowOneMapped(s, held, d, c, v);
      } else {
        CowOneUndo(s, held, d, c, v);
      }
    }
  }

  lemma CowOneMapped(s: State, held: multiset<nat>, d: nat, c: nat, v: nat)
    requires Good(s, held) && |s.dirs| < USHORT - 1 && Private(s.ptes, held)
    requires d in s.dirs && c in s.dirs && c != d && (c, v) !in s.ptes && (d, v) in s.ptes
    requires v < USERTABLES * NPTENTRIES && CowOne(s, d, c, v).1
    ensures Kin(s, CowOne(s, d, c, v).0, d, c)
  {
    hide Exact, Shape, Sized, Aligned, PageAt, Count, SamePages, WalkAlloc;
    ShareGood(s, held, d, v);
    var e := ReadOnly(s.ptes[(d, v)]);
    var t := SetPte(s, (d, v), e);
    var u := t.(phys := t.phys.Incref(e.frame));
    MapPageEffect(u, held + multiset{e.frame}, (c, v), e);
    SameThenBut(s, u, MapPage(u, (c, v), e).0, (c, v));
  }

  /** A failed turn hands its reference back. */
  lemma CowOneUndo(s: State, held: multiset<nat>, d: nat, c: nat, v: nat)
    requires Good(s, held) && |s.dirs| < USHORT - 1 && Private(s.ptes, held)
    requires d in s.dirs && c in s.dirs && c != d && c !in s.sizes && (c, v) !in s.ptes
    requires v < USERTABLES * NPTENTRIES && !CowOne(s, d, c, v).1
    ensures var t := CowOne(s, d, c, v).0;
            && (d, v) in s.ptes && t.ptes == s.ptes[(d, v) := ReadOnly(s.ptes[(d, v)])]
            && t.dirs == s.dirs && t.tabs == s.tabs && t.sizes == s.sizes
            && SamePages(s, t)
  {
    hide Exact, Shape, Sized, PageAt, Count;
    ShareGood(s, held, d, v);
    var e := ReadOnly(s.ptes[(d, v)]);
    var t := SetPte(s, (d, v), e);
    var u := t.(phys := t.phys.Incref(e.frame));
    assert (d, v) in u.ptes && u.ptes[(d, v)].frame == e.frame;
    MapPageGood(u, held + multiset{e.frame}, (c, v), e);
    FreeBack(u, held, e.frame);
    SamePagesTrans(s, u, u.(phys := u.phys.Free(e.frame)));
  }

  /** The child's entries up to page `n` are exactly the parent's. */
  ghost predicate ChildHas(t: State, d: nat, c: nat, n: nat) {
    && (forall v :: (c, v) in t.ptes <==> v < n && (d, v) in t.ptes)
    && (forall v :: (c, v) in t.ptes ==> t.ptes[(c, v)] == t.ptes[(d, v)])
  }

  lemma PrivateKin(s: State, t: State, held: multiset<nat>, d: nat, c: nat, n: nat)
    requires Private(s.ptes, held) && Kin(s, t, d, c) && c != d && ChildHas(t, d, c, n)
    ensures Private(t.ptes, held)
    ensures t.dirs == s.dirs && t.sizes == s.sizes && (c, n) !in t.ptes
  {
    forall k | k in t.ptes ensures t.ptes[k].frame !in held {
      var l := (if k.0 == c then d else k.0, k.1);
      assert l in t.ptes && l in s.ptes;
      assert k == (k.0, k.1);
    }
  }

  /** cowuvm's loop: whether or not it runs to the end, the counts are exact and nobody but
      the child sees a difference; the child holds what the parent holds. */
  lemma {:induction false} CowGood(s: State, held: multiset<nat>, d: nat, c: nat, n: nat)
    requires Good(s, held) && |s.dirs| < USHORT - 1 && Private(s.ptes, held)
    requires d in s.dirs && c in s.dirs && c != d && c !in s.sizes
    requires forall v :: (c, v) !in s.ptes
    requires n <= USERTABLES * NPTENTRIES
    ensures Good(CowTo(s, d, c, n).0, held)
    ensures Kin(s, CowTo(s, d, c, n).0, d, c)
    ensures CowTo(s, d, c, n).1 ==> ChildHas(CowTo(s, d, c, n).0, d, c, n)
  {
    hide Good, Private, Kin, ChildHas, SharedOne, CowOne;
    if n == 0 {
      CowNone(s, d, c);
    } else {
      CowGood(s, held, d, c, n - 1);
      var (t, ok) := CowTo(s, d, c, n - 1);
      if ok {
        PrivateKin(s, t, held, d, c, n - 1);
        CowOneGood(t, held, d, c, n - 1);
        CowOneKin(t, held, d, c, n - 1);
        KinTrans(s, t, CowOne(t, d, c, n - 1).0, d, c);
        if CowOne(t, d, c, n - 1).1 {
          CowOneEffect(t, held, d, c, n - 1);
          ChildHasNext(t, CowOne(t, d, c, n - 1).0, d, c, n);
        }
      }
    }
  }

  lemma CowNone(s: State, d: nat, c: nat)
    requires forall v :: (c, v) !in s.ptes
    ensures Kin(s, s, d, c) && ChildHas(s, d, c, 0)
  {
    hide PageAt;
  }

  lemma ChildHasNext(s: State, t: State, d: nat, c: nat, n: nat)
    requires n > 0 && c != d && ChildHas(s, d, c, n - 1) && SharedOne(s, t, d, c, n - 1)
    ensures ChildHas(t, d, c, n)
  {
    hide SamePagesBut;
  }

  // ------------------------------------------------------------ the bank of frames is fixed

  predicate SameBank(p: Phys, q: Phys) {
    p.lo == q.lo && |p.ref| == |q.ref|
  }

  lemma {:induction false} SetupBank(s: State, d: nat, n: nat)
    ensures SameBank(s.phys, SetupTo(s, d, n).0.phys)
  {
    if n > 0 { SetupBank(s, d, n - 1); }
  }

  lemma {:induction false} DeallocBank(s: State, d: nat, lo: nat, hi: nat)
    ensures SameBank(s.phys, DeallocTo(s, d, lo, hi).phys)
  {
    if lo < hi { DeallocBank(s, d, lo, hi - 1); }
  }

  lemma {:induction false} UntabBank(s: State, d: nat, n: nat)
    ensures SameBank(s.phys, UntabTo(s, d, n).phys)
  {
    if n > 0 { UntabBank(s, d, n - 1); }
  }

  lemma FreeVmBank(s: State, d: nat)
    ensures SameBank(s.phys, FreeVm(s, d).phys)
  {
    var t := DeallocTo(s, d, 0, USERTABLES * NPTENTRIES);
    DeallocBank(s, d, 0, USERTABLES * NPTENTRIES);
    UntabBank(t, d, NPTENTRIES);
  }

  lemma {:induction false} CowBank(s: State, d: nat, c: nat, n: nat)
    ensures SameBank(s.phys, CowTo(s, d, c, n).0.phys)
  {
    if n > 0 { CowBank(s, d, c, n - 1); }
  }
}
