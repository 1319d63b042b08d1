/** vm.c in its own form: page tables, counts and pages changed in place.  Each method is proved
    to do what the function of the same name in VmSpec, VmOps, VmFaults, VmRun or VmExec says. */
module VirtualMemory {
  import opened Params
  import opened Options
  import opened Frames
  import opened AddressSpaces
  import VmSpec
  import VmOps
  import VmFaults
  import VmRun
  import VmExec
  import Eager

  class Vm {
    const kmem: Kmem
    const nproc: nat
    var dirs: set<nat>
    var tabs: map<Slot, nat>
    var ptes: map<Slot, Pte>
    var sizes: map<nat, nat>
    ghost var held: multiset<nat>

    ghost function S(): State
      reads this, kmem, kmem.ref, kmem.mem
    {
      State(kmem.Snap(), dirs, tabs, ptes, sizes)
    }

    /** The counts are exact while `h` is in the hands of kernel code. */
    ghost predicate Sound(h: multiset<nat>)
      reads this, kmem, kmem.ref, kmem.next, kmem.mem
    {
      kmem.Linked() && Good(S(), h)
    }

    ghost predicate Valid()
      reads this, kmem, kmem.ref, kmem.next, kmem.mem
    {
      kmem.Linked() && VmOps.Quiet(S(), held, nproc)
    }

    constructor (nproc: nat, lo: nat, mid: nat, nframes: nat)
      requires nproc < USHORT - 3 && lo <= mid <= nframes
      ensures Valid() && View(S()) == map[] && held == multiset{}
      ensures fresh(kmem) && fresh(kmem.ref) && fresh(kmem.next) && fresh(kmem.mem)
    {
      this.nproc := nproc;
      kmem := new Kmem(lo, mid, nframes);
      dirs, tabs, ptes, sizes, held := {}, map[], map[], map[], multiset{};
      new;
      assert forall f :: Count(S(), f) == 0;
    }

    method WalkAlloc(d: nat, i: nat) returns (ok: bool)
      requires kmem.Linked()
      modifies this`tabs, kmem, kmem.ref, kmem.mem
      ensures kmem.Linked() && (S(), ok) == VmSpec.WalkAlloc(old(S()), d, i)
    {
      if (d, i) in tabs {
        return true;
      }
      var r := kmem.Kalloc();
      if r.None? {
        return false;
      }
      kmem.Fill(r.value, ZeroPage());
      tabs := tabs[(d, i) := r.value];
      return true;
    }

    /** A present entry is the "remap" panic, hence the precondition. */
    method MapPage(k: Slot, e: Pte) returns (ok: bool)
      requires kmem.Linked() && k !in ptes
      modifies this`tabs, this`ptes, kmem, kmem.ref, kmem.mem
      ensures kmem.Linked() && (S(), ok) == VmSpec.MapPage(old(S()), k, e)
    {
      ok := WalkAlloc(k.0, k.1 / NPTENTRIES);
      if ok {
        ptes := ptes[k := e];
      }
    }

    /** One present entry: the frame is freed, then the entry cleared. */
    method Unmap(k: Slot, ghost h: multiset<nat>)
      requires Sound(h)
      modifies this`ptes, kmem, kmem.ref, kmem.next, kmem.mem
      ensures kmem.Linked() && S() == VmSpec.UnmapIf(old(S()), k)
    {
      hide Good, SamePagesBut;
      if k in ptes {
        UnmapStep(S(), h, k);
        kmem.Kfree(ptes[k].frame);
        ptes := ptes - {k};
      }
    }

    /** The loop steps over a page directory entry without a table in one go. */
    method DeallocUvm(d: nat, lo: nat, hi: nat, ghost h: multiset<nat>)
      requires Sound(h) && lo <= hi
      modifies this`ptes, kmem, kmem.ref, kmem.next, kmem.mem
      ensures Sound(h) && S() == VmSpec.DeallocTo(old(S()), d, lo, hi)
    {
      hide Good, Kmem.Linked, VmSpec.Cleared, VmSpec.UnmapIf;
      ghost var s0 := S();
      var v := lo;
      while v < hi
        invariant lo <= v <= hi && kmem.Linked()
        invariant S() == VmSpec.DeallocTo(s0, d, lo, v)
      {
        VmSpec.DeallocGood(s0, h, d, lo, v);
        if (d, v / NPTENTRIES) !in tabs {
          var next := (v / NPTENTRIES + 1) * NPTENTRIES;
          if next > hi {
            next := hi;
          }
          SkipRegion(s0, h, d, lo, v, next);
          v := next;
        } else {
          Unmap((d, v), h);
          v := v + 1;
        }
      }
      VmSpec.DeallocGood(s0, h, d, lo, hi);
    }

    /** A page directory that no process uses: its pages, its page-table pages, itself. */
    method FreeVm(d: nat, ghost h: multiset<nat>)
      requires Sound(h) && d in dirs && d !in sizes
      modifies this`dirs, this`tabs, this`ptes, kmem, kmem.ref, kmem.next, kmem.mem
      ensures Sound(h) && S() == VmSpec.FreeVm(old(S()), d)
    {
      hide Good, Kmem.Linked, VmSpec.Cleared, VmSpec.DeallocTo, VmSpec.Dropped, SamePages;
      ghost var s0 := S();
      VmSpec.FreeVmStages(s0, h, d);
      VmSpec.FreeVmGood(s0, h, d);
      DeallocUvm(d, 0, USERTABLES * NPTENTRIES, h);
      FreeTables(d, h);
      UndirStep(S(), h, d);
      KfreeLinked(d);
      dirs := dirs - {d};
    }

    /** kfree, stated without the links of the free list. */
    method KfreeLinked(f: nat)
      requires kmem.Linked() && kmem.lo <= f < kmem.ref.Length && kmem.ref[f] > 0 && f !in kmem.free
      modifies kmem, kmem.ref, kmem.next, kmem.mem
      ensures kmem.Linked() && S() == old(S()).(phys := old(S()).phys.Free(f))
    {
      kmem.Kfree(f);
    }

    method FreeTables(d: nat, ghost h: multiset<nat>)
      requires Sound(h) && forall l :: l in ptes ==> l.0 != d
      modifies this`tabs, kmem, kmem.ref, kmem.next, kmem.mem
      ensures kmem.Linked() && S() == VmSpec.UntabTo(old(S()), d, NPTENTRIES)
    {
      hide Good, Kmem.Linked, SamePages;
      ghost var s0 := S();
      var i := 0;
      while i < NPTENTRIES
        invariant 0 <= i <= NPTENTRIES && kmem.Linked() && ptes == s0.ptes
        invariant S() == VmSpec.UntabTo(s0, d, i)
      {
        if (d, i) in tabs {
          VmSpec.UntabGood(s0, h, d, i);
          UntableStep(S(), h, (d, i));
          KfreeLinked(tabs[(d, i)]);
          tabs := tabs - {(d, i)};
        }
        i := i + 1;
      }
    }

    method SetupKvm(ghost h: multiset<nat>) returns (r: Option<nat>)
      requires Sound(h)
      modifies this`dirs, this`tabs, this`ptes, kmem, kmem.ref, kmem.next, kmem.mem
      ensures Sound(h) && (S(), r) == VmOps.Setup(old(S()))
    {
      hide Good, VmSpec.FreeVm, VmOps.Built, VmSpec.WalkAlloc;
      ghost var s0 := S();
      r := kmem.Kalloc();
      if r.None? {
        return;
      }
      var d := r.value;
      kmem.Fill(d, ZeroPage());
      dirs := dirs + {d};
      VmOps.SetupBuilt(s0, h);
      assert S() == VmOps.NewDir(s0);
      var ok := MapKernel(d);
      if !ok {
        NewDirUnsized(s0, S(), h, d);
        FreeVm(d, h);
        r := None;
      }
    }

    /** setupkvm's loop over the kernel's mappings. */
    method MapKernel(d: nat) returns (ok: bool)
      requires kmem.Linked()
      modifies this`tabs, kmem, kmem.ref, kmem.mem
      ensures kmem.Linked() && (S(), ok) == VmSpec.SetupTo(old(S()), d, VmSpec.NKMAP)
    {
      hide Kmem.Linked, VmSpec.WalkAlloc, VmSpec.Kmap;
      ghost var s0 := S();
      var i := 0;
      ok := true;
      while i < VmSpec.NKMAP
        invariant 0 <= i <= VmSpec.NKMAP && kmem.Linked()
        invariant ok && (S(), ok) == VmSpec.SetupTo(s0, d, i)
      {
        ok := WalkAlloc(d, VmSpec.Kmap(i));
        i := i + 1;
        if !ok {
          SetupStuck(s0, d, i, VmSpec.NKMAP);
          return;
        }
      }
    }

    /** cowuvm's loop: give the child every present page of the parent, read-only in both. */
    method ShareTo(d: nat, c: nat, n: nat, ghost h: multiset<nat>) returns (ok: bool)
      requires Sound(h) && |dirs| < USHORT - 1 && VmSpec.Private(ptes, h)
      requires d in dirs && c in dirs && c != d && c !in sizes && (forall v :: (c, v) !in ptes)
      requires n <= USERTABLES * NPTENTRIES
      modifies this`tabs, this`ptes, kmem, kmem.ref, kmem.next, kmem.mem
      ensures Sound(h) && (S(), ok) == VmSpec.CowTo(old(S()), d, c, n)
    {
      hide Good, Kmem.Linked, VmSpec.CowOne, VmSpec.Kin, VmSpec.ChildHas, VmSpec.Private;
      ghost var s0 := S();
      var v := 0;
      ok := true;
      while v < n
        invariant 0 <= v <= n && kmem.Linked()
        invariant ok && (S(), ok) == VmSpec.CowTo(s0, d, c, v)
      {
        VmSpec.CowGood(s0, h, d, c, v);
        VmSpec.PrivateKin(s0, S(), h, d, c, v);
        ok := ShareOne(d, c, v, h);
        v := v + 1;
        if !ok {
          CowStuck(s0, d, c, v, n);
          VmSpec.CowGood(s0, h, d, c, n);
          return;
        }
      }
      VmSpec.CowGood(s0, h, d, c, n);
    }

    method ShareOne(d: nat, c: nat, v: nat, ghost h: multiset<nat>) returns (ok: bool)
      requires Sound(h) && |dirs| < USHORT - 1 && VmSpec.Private(ptes, h)
      requires d in dirs && c in dirs && c != d && c !in sizes && (c, v) !in ptes && v < USERTABLES * NPTENTRIES
      modifies this`tabs, this`ptes, kmem, kmem.ref, kmem.next, kmem.mem
      ensures kmem.Linked() && (S(), ok) == VmSpec.CowOne(old(S()), d, c, v)
    {
      hide Good, SamePages, VmSpec.Private, VmSpec.MapPage;
      ghost var s0 := S();
      if (d, v) !in ptes {
        return true;
      }
      VmSpec.ShareGood(s0, h, d, v);
      var e := VmSpec.ReadOnly(ptes[(d, v)]);
      ptes := ptes[(d, v) := e];
      var f := e.frame;
      FrameCounts(s0, h, (d, v));
      kmem.Incref(f);
      ghost var s1 := S();
      ok := MapPage((c, v), e);
      if !ok {
        MapFailed(s1, h, (c, v), e);
        FreeBack(s1, h, f);
        KfreeLinked(f);
      }
    }

    /** fork, up to the new page table. */
    method Fork(d: nat) returns (r: Option<nat>)
      requires Valid() && d in sizes
      modifies this, kmem, kmem.ref, kmem.next, kmem.mem
      ensures Valid() && held == old(held) && (S(), r) == VmOps.Fork(old(S()), nproc, d)
    {
      hide Exact, Shape, Aligned, PageAt, SamePages, Kmem.Linked, VmOps.Setup, VmSpec.CowTo, VmSpec.FreeVm, VmSpec.Kin, VmSpec.ChildHas;
      ghost var s0 := S();
      VmOps.ForkQuiet(s0, held, nproc, d);
      if |sizes| >= nproc {
        return None;
      }
      assert |sizes| == |dirs|;
      r := SetupKvm(held);
      if r.None? {
        return;
      }
      var c := r.value;
      VmOps.ForkShared(s0, held, nproc, d);
      VmOps.DeadDir(s0, c);
      ghost var s1 := S();
      var ok := ShareTo(d, c, Eager.NPages(sizes[d]), held);
      VmOps.KinKeeps(s1, S(), d, c);
      if ok {
        sizes := sizes[c := sizes[d]];
      } else {
        FreeVm(c, held);
        r := None;
      }
    }

    /** kalloc and a page of contents; the frame is in hand afterwards. */
    method Take(p: Page) returns (r: Option<nat>)
      requires kmem.Linked()
      modifies kmem, kmem.ref, kmem.mem
      ensures kmem.Linked()
      ensures old(S()).phys.free == [] ==> r == None && S() == old(S())
      ensures old(S()).phys.free != [] ==> r == Some(old(S()).phys.free[0]) && S() == VmFaults.Take(old(S()), p)
    {
      r := kmem.Kalloc();
      if r.Some? {
        kmem.Fill(r.value, p);
      }
    }

    /** allocuvm for one page, and lazyalloc when `p` is the zero page. */
    method AllocPage(k: Slot, p: Page, ghost h: multiset<nat>) returns (ok: bool)
      requires Sound(h) && k !in ptes
      modifies this`tabs, this`ptes, kmem, kmem.ref, kmem.next, kmem.mem
      ensures kmem.Linked() && (S(), ok) == VmFaults.AllocOne(old(S()), k, p)
    {
      hide Good, Kmem.Linked, SamePages, VmSpec.MapPage, VmFaults.Take;
      ghost var s0 := S();
      var r := Take(p);
      if r.None? {
        return false;
      }
      VmFaults.TakeGood(s0, h, p);
      ghost var s1 := S();
      var e := Pte(r.value, true, false, true);
      ok := MapPage(k, e);
      if !ok {
        MapFailed(s1, h, k, e);
        FreeBack(s1, h, r.value);
        KfreeLinked(r.value);
      }
    }

    method LazyAlloc(k: Slot, ghost h: multiset<nat>) returns (ok: bool)
      requires Sound(h) && k !in ptes
      modifies this`tabs, this`ptes, kmem, kmem.ref, kmem.next, kmem.mem
      ensures kmem.Linked() && (S(), ok) == VmFaults.LazyAlloc(old(S()), k)
    {
      ok := AllocPage(k, ZeroPage(), h);
    }

    method CowFault(k: Slot, ghost h: multiset<nat>) returns (ok: bool)
      requires Sound(h) && k in ptes && VmFaults.Named(S())
      modifies this`ptes, kmem, kmem.ref, kmem.next, kmem.mem
      ensures kmem.Linked() && (S(), ok) == VmFaults.CowFault(old(S()), k)
    {
      hide Good, Kmem.Linked, SamePages, VmFaults.Take;
      ghost var s0 := S();
      var e := ptes[k];
      if !e.cow {
        return e.w;
      }
      var n := kmem.Getref(e.frame);
      if n == 1 {
        ptes := ptes[k := VmFaults.Writable(e)];
        return true;
      }
      var r := Take(kmem.mem[e.frame]);
      if r.None? {
        return false;
      }
      VmFaults.TakeGood(s0, h, s0.phys.mem[e.frame]);
      ghost var s1 := S();
      var e' := VmFaults.Writable(e).(frame := r.value);
      ptes := ptes[k := e'];
      CopiedHeld(s1, h, k, e');
      FreeBack(S(), h, e.frame);
      KfreeLinked(e.frame);
      ok := true;
    }

    method PageFault(d: nat, va: nat, wr: bool) returns (ok: bool)
      requires Valid() && d in sizes && VmFaults.Named(S())
      modifies this`tabs, this`ptes, kmem, kmem.ref, kmem.next, kmem.mem
      ensures Valid() && (S(), ok) == VmFaults.PageFault(old(S()), d, va, wr)
    {
      hide Good, Kmem.Linked, SamePages, VmFaults.LazyAlloc, VmFaults.CowFault, VmFaults.Resolvable, VmFaults.OnlyEntry;
      ghost var s0 := S();
      VmFaults.FaultOutcome(s0, held, nproc, d, va, wr);
      if va >= Eager.KERNBASE {
        return false;
      }
      var k: Slot := (d, va / PGSIZE);
      if k !in ptes {
        if va >= sizes[d] {
          return false;
        }
        ok := LazyAlloc(k, held);
      } else if wr && ptes[k].cow {
        ok := CowFault(k, held);
      } else {
        ok := wr && ptes[k].w;
      }
    }

    /** An access as the hardware makes it: check, fault, and retry once. */
    method Access(d: nat, va: nat, wr: bool, user: bool) returns (o: VmFaults.Outcome)
      requires Valid() && d in sizes && VmFaults.Named(S())
      modifies this`tabs, this`ptes, kmem, kmem.ref, kmem.next, kmem.mem
      ensures Valid() && (S(), o) == VmFaults.Access(old(S()), d, va, wr, user)
    {
      hide Good, Kmem.Linked, VmFaults.PageFault;
      var k: Slot := (d, va / PGSIZE);
      if k in ptes && (wr ==> ptes[k].w) && (user ==> ptes[k].u) {
        return VmFaults.Done;
      }
      var ok := PageFault(d, va, wr);
      if !ok {
        return VmFaults.Killed;
      }
      o := if k in ptes && (wr ==> ptes[k].w) && (user ==> ptes[k].u) then VmFaults.Done else VmFaults.Stuck;
    }

    method Store(d: nat, va: nat, b: Byte, user: bool) returns (o: VmFaults.Outcome)
      requires Valid() && d in sizes
      modifies this`tabs, this`ptes, kmem, kmem.ref, kmem.next, kmem.mem
      ensures Valid() && VmFaults.Named(old(S())) && (S(), o) == VmFaults.Store(old(S()), d, va, b, user)
    {
      hide Good, SamePages, VmFaults.Access, VmFaults.OnlyEntry;
      ghost var s0 := S();
      VmFaults.AccessQuiet(s0, held, nproc, d, va, true, user);
      VmFaults.StoreQuiet(s0, held, nproc, d, va, b, user);
      o := Access(d, va, true, user);
      if o.Done? {
        var f := ptes[(d, va / PGSIZE)].frame;
        kmem.Fill(f, kmem.mem[f][va % PGSIZE := b]);
      }
    }

    method Load(d: nat, va: nat, user: bool) returns (o: VmFaults.Outcome, b: Byte)
      requires Valid() && d in sizes
      modifies this`tabs, this`ptes, kmem, kmem.ref, kmem.next, kmem.mem
      ensures Valid() && VmFaults.Named(old(S())) && (S(), o, b) == VmFaults.Load(old(S()), d, va, user)
    {
      hide Good, SamePages, VmFaults.Access, VmFaults.OnlyEntry;
      VmFaults.AccessQuiet(S(), held, nproc, d, va, false, user);
      o := Access(d, va, false, user);
      b := if o.Done? then kmem.mem[ptes[(d, va / PGSIZE)].frame][va % PGSIZE] else 0;
    }

    method Sbrk(d: nat, n: int) returns (r: int)
      requires Valid() && d in sizes
      modifies this`ptes, this`sizes, kmem, kmem.ref, kmem.next, kmem.mem
      ensures Valid() && (S(), r) == VmRun.Sbrk(old(S()), d, n)
    {
      hide Good, Kmem.Linked, VmSpec.DeallocTo, VmSpec.Private;
      VmRun.SbrkQuiet(S(), held, nproc, d, n);
      var size := sizes[d];
      if n >= 0 {
        if size + n >= Eager.KERNBASE {
          return -1;
        }
        sizes := sizes[d := size + n];
        return size;
      }
      var newsz := (size + n) % UINT;
      if newsz < size {
        DeallocUvm(d, Eager.NPages(newsz), Eager.NPages(size), held);
      } else {
        newsz := size;
        assert sizes[d := size] == sizes;
      }
      if newsz == 0 {
        return -1;
      }
      sizes := sizes[d := newsz];
      return size;
    }

    method Exit(d: nat)
      requires Valid() && d in sizes
      modifies this`dirs, this`tabs, this`ptes, this`sizes, kmem, kmem.ref, kmem.next, kmem.mem
      ensures Valid() && S() == VmRun.Exit(old(S()), d)
    {
      hide Exact, Shape, Aligned, Kmem.Linked, VmSpec.FreeVm, VmSpec.Private;
      ghost var s0 := S();
      VmRun.ExitQuiet(s0, held, nproc, d);
      sizes := sizes - {d};
      VmOps.SameExact(s0, S(), held);
      FreeVm(d, held);
    }

    /** allocuvm's loop over a fresh page directory. */
    method LoadImage(c: nat, image: seq<Page>) returns (ok: bool)
      requires Sound(held) && c in dirs && c !in sizes && (forall v :: (c, v) !in ptes)
      requires |image| <= USERTABLES * NPTENTRIES
      modifies this`tabs, this`ptes, kmem, kmem.ref, kmem.next, kmem.mem
      ensures Sound(held) && (S(), ok) == VmExec.AllocTo(old(S()), c, image, |image|)
    {
      hide Good, Kmem.Linked, VmFaults.AllocOne, VmExec.Apart;
      ghost var s0 := S();
      var v := 0;
      ok := true;
      while v < |image|
        invariant 0 <= v <= |image| && kmem.Linked()
        invariant ok && (S(), ok) == VmExec.AllocTo(s0, c, image, v)
      {
        VmExec.AllocGood(s0, held, c, image, v);
        ok := AllocPage((c, v), image[v], held);
        v := v + 1;
        if !ok {
          AllocStuck(s0, c, image, v, |image|);
          VmExec.AllocGood(s0, held, c, image, |image|);
          return;
        }
      }
      VmExec.AllocGood(s0, held, c, image, |image|);
    }

    method ClearPteu(k: Slot)
      requires kmem.Linked()
      modifies this`ptes
      ensures kmem.Linked() && S() == VmExec.ClearUser(old(S()), k)
    {
      if k in ptes {
        ptes := ptes[k := ptes[k].(u := false)];
      }
    }

    /** exec and userinit, up to the complete page table. */
    method Spawn(image: seq<Page>, guard: nat) returns (r: Option<nat>)
      requires Valid()
      modifies this, kmem, kmem.ref, kmem.next, kmem.mem
      ensures Valid() && held == old(held) && (S(), r) == VmExec.Spawn(old(S()), nproc, image, guard)
    {
      hide Exact, Shape, Aligned, PageAt, SamePages, Kmem.Linked, VmOps.Setup, VmExec.AllocTo, VmSpec.FreeVm, VmExec.Loaded, VmExec.Apart, VmExec.ClearUser;
      ghost var s0 := S();
      VmExec.SpawnQuiet(s0, held, nproc, image, guard);
      if |sizes| >= nproc || |image| * PGSIZE >= Eager.KERNBASE {
        return None;
      }
      r := SetupKvm(held);
      if r.None? {
        return;
      }
      var c := r.value;
      VmExec.SpawnBuilt(s0, held, image);
      VmOps.DeadDir(s0, c);
      VmExec.ApartKeeps(S(), VmExec.AllocTo(S(), c, image, |image|).0, c);
      var ok := LoadImage(c, image);
      if ok {
        ClearPteu((c, guard));
        sizes := sizes[c := |image| * PGSIZE];
      } else {
        FreeVm(c, held);
        r := None;
      }
    }
  }

  lemma {:induction false} AllocStuck(s: State, c: nat, image: seq<Page>, i: nat, n: nat)
    requires i <= n <= |image| && !VmExec.AllocTo(s, c, image, i).1
    ensures VmExec.AllocTo(s, c, image, n) == VmExec.AllocTo(s, c, image, i)
  {
    if i < n { AllocStuck(s, c, image, i, n - 1); }
  }

  /** Once the copy is mapped, the old frame is the one in hand. */
  lemma CopiedHeld(s: State, h: multiset<nat>, k: Slot, e: Pte)
    requires Good(s, h + multiset{e.frame}) && k in s.ptes && e.w && !e.cow
    requires e.frame < |s.phys.ref| && s.phys.ref[e.frame] == 1
    requires forall l :: l in s.ptes ==> s.ptes[l].frame != e.frame
    ensures Good(SetPte(s, k, e), h + multiset{s.ptes[k].frame})
  {
    hide Good;
    SwapStep(s, h, k, e);
  }

  lemma FrameCounts(s: State, h: multiset<nat>, k: Slot)
    requires Good(s, h) && k in s.ptes
    ensures s.ptes[k].frame < |s.phys.ref| && s.phys.ref[s.ptes[k].frame] > 0
  {
    assert k in Leaves(s.ptes, s.ptes[k].frame);
  }

  lemma MapFailed(s: State, h: multiset<nat>, k: Slot, e: Pte)
    requires !VmSpec.MapPage(s, k, e).1
    ensures VmSpec.MapPage(s, k, e).0 == s
  {
  }

  lemma {:induction false} CowStuck(s: State, d: nat, c: nat, i: nat, n: nat)
    requires i <= n && !VmSpec.CowTo(s, d, c, i).1
    ensures VmSpec.CowTo(s, d, c, n) == VmSpec.CowTo(s, d, c, i)
  {
    if i < n { CowStuck(s, d, c, i, n - 1); }
  }

  lemma NewDirUnsized(s0: State, s: State, h: multiset<nat>, d: nat)
    requires VmOps.Built(s0, s, d) && Good(s0, h)
    ensures d in s.dirs && d !in s.sizes
  {
  }

  /** After a failure the rest of the loop is not run. */
  lemma {:induction false} SetupStuck(s: State, d: nat, i: nat, n: nat)
    requires i <= n && !VmSpec.SetupTo(s, d, i).1
    ensures VmSpec.SetupTo(s, d, n) == VmSpec.SetupTo(s, d, i)
  {
    if i < n { SetupStuck(s, d, i, n - 1); }
  }

  /** A region without a page-table page has nothing to free. */
  lemma SkipRegion(s0: State, h: multiset<nat>, d: nat, lo: nat, v: nat, next: nat)
    requires Good(s0, h) && lo <= v <= next <= (v / NPTENTRIES + 1) * NPTENTRIES
    requires (d, v / NPTENTRIES) !in VmSpec.DeallocTo(s0, d, lo, v).tabs
    ensures VmSpec.DeallocTo(s0, d, lo, next) == VmSpec.DeallocTo(s0, d, lo, v)
  {
    hide Good, VmSpec.Cleared, VmSpec.DeallocTo;
    VmSpec.DeallocGood(s0, h, d, lo, v);
    EmptyRegion(VmSpec.DeallocTo(s0, d, lo, v), h, d, v, next);
    VmSpec.DeallocSkip(s0, d, lo, v, next);
  }

  lemma EmptyRegion(s: State, h: multiset<nat>, d: nat, v: nat, next: nat)
    requires Good(s, h) && (d, v / NPTENTRIES) !in s.tabs && next <= (v / NPTENTRIES + 1) * NPTENTRIES
    ensures forall w: nat :: v <= w < next ==> (d, w) !in s.ptes
  {
    forall w: nat | v <= w < next ensures (d, w) !in s.ptes {
      assert w / NPTENTRIES == v / NPTENTRIES;
      assert (d, w) in s.ptes ==> EntryOk(s, (d, w));
    }
  }
}
