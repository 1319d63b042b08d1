/** Consequences: the 16-bit counts cannot wrap, what moves a futex key, and where lazy
    allocation can be told apart. */
module VmFacts {
  import opened Params
  import opened Options
  import opened Frames
  import opened AddressSpaces
  import opened VmSpec
  import opened VmOps
  import opened VmFaults
  import opened VmRun
  import opened VmExec
  import opened VmCost
  import opened VmTheorem
  import Eager

  /** A user frame has at most one reference per process, so its 16-bit count cannot wrap. */
  lemma CountsFit(s: State, held: multiset<nat>, nproc: nat, k: Slot)
    requires Quiet(s, held, nproc) && k in s.ptes
    ensures s.phys.Managed(s.ptes[k].frame) && 1 <= s.phys.ref[s.ptes[k].frame] <= nproc
  {
    CountBound(s, held, k);
    assert k in Leaves(s.ptes, s.ptes[k].frame);
  }

  // ------------------------------------------------------------ which address spaces there are

  function Made(obs: Obs): Option<nat> {
    if obs.Space? then obs.made else None
  }

  lemma SpacesAfter(y: Sys, nproc: nat, op: Op)
    requires Ok(y, nproc) && InRange(op) && !op.Exec?
    ensures var (z, obs) := Step(y, nproc, op);
            && Ok(z, nproc)
            && (Made(obs).Some? ==> Made(obs).value !in y.vm.sizes && z.vm.sizes.Keys == y.vm.sizes.Keys + {Made(obs).value})
            && (Made(obs).None? ==> z.vm.sizes.Keys == if op.Exit? then y.vm.sizes.Keys - {op.d} else y.vm.sizes.Keys)
            && (op.Exit? || op.Load? || op.Store? || op.Sbrk? || op.Kalloc? || op.Kfree? ==> Made(obs).None?)
  {
    hide Ok, View, Step, Faithful, EagerStep;
    StepRefines(y, nproc, op);
    var (z, obs) := Step(y, nproc, op);
    ViewKeys(y.vm);
    ViewKeys(z.vm);
    KeysAfter(View(y.vm), y.vm, nproc, op, obs);
  }

  lemma KeysAfter(e: Eager.Spaces, s: State, nproc: nat, op: Op, obs: Obs)
    requires Faithful(e, s, nproc, op, obs) && !op.Exec?
    ensures var f := EagerStep(e, op, obs);
            && (Made(obs).Some? ==> Made(obs).value !in e && f.Keys == e.Keys + {Made(obs).value})
            && (Made(obs).None? ==> f.Keys == if op.Exit? then e.Keys - {op.d} else e.Keys)
            && (op.Exit? || op.Load? || op.Store? || op.Sbrk? || op.Kalloc? || op.Kfree? ==> Made(obs).None?)
  {
    hide AccessRight, ForkNeeds, SpawnNeeds, ImageSpace, Wiped, Eager.Resize;
  }

  // ------------------------------------------------------------ futex keys

  /** uva2pa: the physical address that futex_wait and futex_wake use as sleep channel. */
  function Key(s: State, d: nat, va: nat): nat {
    var k: Slot := (d, va / PGSIZE);
    if k in s.ptes then s.ptes[k].frame * PGSIZE + va % PGSIZE else 0
  }

  /** Two words have one key only if they are the same word, when one page is writable; and a key
      is below the top of physical memory, so it is not a kernel address. */
  lemma KeyIdentifies(s: State, held: multiset<nat>, nproc: nat, d: nat, va: nat, c: nat, vb: nat)
    requires Quiet(s, held, nproc)
    requires (d, va / PGSIZE) in s.ptes && s.ptes[(d, va / PGSIZE)].w && (c, vb / PGSIZE) in s.ptes
    ensures Key(s, d, va) == Key(s, c, vb) <==> d == c && va == vb
    ensures 0 < s.phys.lo ==> 0 < Key(s, d, va) < |s.phys.ref| * PGSIZE
  {
    hide Sized, Aligned, Count;
    var k: Slot, l: Slot := (d, va / PGSIZE), (c, vb / PGSIZE);
    if l != k { SharedNotWritable(s, held, l, k); }
    KeyParts(s.ptes[k].frame, va % PGSIZE, s.ptes[l].frame, vb % PGSIZE);
    assert s.phys.Managed(s.ptes[k].frame);
  }

  lemma KeyParts(f: nat, i: nat, g: nat, j: nat)
    requires i < PGSIZE && j < PGSIZE
    ensures f * PGSIZE + i == g * PGSIZE + j <==> f == g && i == j
  {
  }

  /** The operations that may move or protect a page of `d`. */
  predicate Disturbs(op: Op, d: nat) {
    match op
    case Exec(c, _, _) => c == d
    case Fork(c) => c == d
    case Sbrk(c, n) => c == d && n < 0
    case Exit(c) => c == d
    case _ => false
  }

  /** Once a page is writable it stays where it is until its own address space forks, shrinks,
      execs or exits. */
  lemma WritableStays(y: Sys, nproc: nat, op: Op, k: Slot)
    requires Ok(y, nproc) && InRange(op) && k in y.vm.ptes && y.vm.ptes[k].w && !Disturbs(op, k.0)
    ensures var t := Step(y, nproc, op).0.vm; k in t.ptes && t.ptes[k] == y.vm.ptes[k]
  {
    hide Good, Private, VmOps.Fork, Spawn, VmRun.Exit, VmRun.Sbrk, VmFaults.Store, VmFaults.Load, View;
    var s, held := y.vm, y.held;
    OwnerLives(s, held, k);
    match op
    case Init(image, guard) => SpawnStays(s, held, nproc, image, guard, k);
    case Exec(d, image, guard) => if d in s.sizes { ExecStays(s, held, nproc, d, image, guard, k); }
    case Fork(d) => if d in s.sizes { ForkStays(s, held, nproc, d, k); }
    case Sbrk(d, n) => if d in s.sizes { SbrkStays(s, held, nproc, d, n, k); }
    case Load(d, va, user) => if d in s.sizes { AccessStays(s, held, nproc, d, va, user, k); }
    case Store(d, va, b, user) => if d in s.sizes { AccessStays(s, held, nproc, d, va, user, k); }
    case Exit(d) => if d in s.sizes { ExitStays(s, held, nproc, d, k); }
    case Kalloc =>
    case Kfree(f) =>
  }

  lemma OwnerLives(s: State, held: multiset<nat>, k: Slot)
    requires Good(s, held) && k in s.ptes
    ensures k.0 in s.dirs
  {
    assert EntryOk(s, k);
  }

  lemma ExecStays(s: State, held: multiset<nat>, nproc: nat, d: nat, image: seq<Page>, guard: nat, k: Slot)
    requires Quiet(s, held, nproc) && nproc < USHORT - 3 && d in s.sizes && k in s.ptes && k.0 in s.dirs && k.0 != d
    ensures var (t, r) := Spawn(s, nproc + 1, image, guard);
            var u := if r.Some? then VmRun.Exit(t, d) else t;
            k in u.ptes && u.ptes[k] == s.ptes[k]
  {
    hide Good, Private, Spawn, VmRun.Exit, View;
    QuietMore(s, held, nproc);
    SpawnStays(s, held, nproc + 1, image, guard, k);
    var (t, r) := Spawn(s, nproc + 1, image, guard);
    if r.Some? {
      ExecQuiet(s, held, nproc, d, image, guard);
      SpawnQuiet(s, held, nproc + 1, image, guard);
      ExitStays(t, held, nproc + 1, d, k);
    }
  }

  lemma SbrkStays(s: State, held: multiset<nat>, nproc: nat, d: nat, n: int, k: Slot)
    requires Quiet(s, held, nproc) && d in s.sizes && k in s.ptes && (k.0 != d || n >= 0)
    ensures var t := VmRun.Sbrk(s, d, n).0; k in t.ptes && t.ptes[k] == s.ptes[k]
  {
    hide Good, Private, PageAt, Shrunk;
    if n < 0 && (s.sizes[d] + n) % UINT < s.sizes[d] {
      ShrunkQuiet(s, held, nproc, d, (s.sizes[d] + n) % UINT);
    }
  }

  lemma AccessStays(s: State, held: multiset<nat>, nproc: nat, d: nat, va: nat, user: bool, k: Slot)
    requires Quiet(s, held, nproc) && d in s.sizes && k in s.ptes && s.ptes[k].w
    ensures Named(s)
    ensures var t := VmFaults.Load(s, d, va, user).0; k in t.ptes && t.ptes[k] == s.ptes[k]
    ensures forall b :: var t := VmFaults.Store(s, d, va, b, user).0; k in t.ptes && t.ptes[k] == s.ptes[k]
  {
    hide Good, Private, PageAt, VmFaults.Access, SamePages;
    AccessQuiet(s, held, nproc, d, va, false, user);
    AccessQuiet(s, held, nproc, d, va, true, user);
  }

  lemma ExitStays(s: State, held: multiset<nat>, nproc: nat, d: nat, k: Slot)
    requires Quiet(s, held, nproc) && d in s.sizes && k in s.ptes && k.0 != d
    ensures k in VmRun.Exit(s, d).ptes && VmRun.Exit(s, d).ptes[k] == s.ptes[k]
  {
    hide Good, Private, PageAt, VmRun.Exit;
    ExitQuiet(s, held, nproc, d);
  }

  lemma ForkStays(s: State, held: multiset<nat>, nproc: nat, d: nat, k: Slot)
    requires Quiet(s, held, nproc) && d in s.sizes && k in s.ptes && k.0 != d && k.0 in s.dirs
    ensures var t := VmOps.Fork(s, nproc, d).0; k in t.ptes && t.ptes[k] == s.ptes[k]
  {
    hide Exact, Shape, Sized, Aligned, PageAt, SamePages, FreeVm, CowTo, SetupTo;
    if |s.sizes| < nproc {
      var (t, r) := Setup(s);
      if r.None? {
        SetupNone(s, held);
      } else {
        ForkShared(s, held, nproc, d);
        var (u, ok) := CowTo(t, d, r.value, Eager.NPages(s.sizes[d]));
        if !ok {
          FreeVmGood(u, held, r.value);
        }
      }
    }
  }

  lemma SpawnStays(s: State, held: multiset<nat>, nproc: nat, image: seq<Page>, guard: nat, k: Slot)
    requires Quiet(s, held, nproc) && k in s.ptes && k.0 in s.dirs
    ensures var t := Spawn(s, nproc, image, guard).0; k in t.ptes && t.ptes[k] == s.ptes[k]
  {
    hide Exact, Shape, Sized, Aligned, PageAt, SamePages, FreeVm, AllocTo, SetupTo;
    if |s.sizes| < nproc && |image| * PGSIZE < Eager.KERNBASE {
      var (t, r) := Setup(s);
      if r.None? {
        SetupNone(s, held);
      } else {
        SpawnBuilt(s, held, image);
        var (u, ok) := AllocTo(t, r.value, image, |image|);
        if !ok {
          FreeVmGood(u, held, r.value);
        }
      }
    }
  }

  /** A shared copy-on-write page moves when it is written: a waiter that only read its word
      sleeps on a key that the next writer no longer computes. */
  lemma CowKeyMoves(s: State, held: multiset<nat>, nproc: nat, d: nat, va: nat)
    requires Quiet(s, held, nproc) && d in s.sizes && va < Eager.KERNBASE && (d, va / PGSIZE) in s.ptes
    requires s.ptes[(d, va / PGSIZE)].cow && s.phys.free != [] && Named(s)
    ensures Key(PageFault(s, d, va, true).0, d, va) != Key(s, d, va) <==> s.phys.ref[s.ptes[(d, va / PGSIZE)].frame] != 1
  {
    hide Shape, Sized, Aligned, PageAt, Count, SamePages;
    TakeGood(s, held, s.phys.mem[s.ptes[(d, va / PGSIZE)].frame]);
    KeyParts(s.phys.free[0], va % PGSIZE, s.ptes[(d, va / PGSIZE)].frame, va % PGSIZE);
  }

  // ------------------------------------------------------------ where laziness shows

  /** Between the break and the end of its page the reference machine has memory; here there is
      memory only if the page has been touched, and the process is killed if it has not. */
  lemma TailOfLastPage(s: State, held: multiset<nat>, nproc: nat, d: nat, va: nat, wr: bool, user: bool)
    requires Quiet(s, held, nproc) && d in s.sizes
    requires s.sizes[d] <= va && va / PGSIZE < Eager.NPages(s.sizes[d])
    ensures Named(s) && Eager.Mapped(View(s), d, va)
    ensures (d, va / PGSIZE) !in s.ptes ==> VmFaults.Access(s, d, va, wr, user).1 == Killed
  {
    hide Exact, Shape, Sized, Aligned, PageAt, SamePages, LazyAlloc, CowFault;
    BankSizes(s, held);
    ViewSize(s, d);
  }

  /** A failed sbrk leaves memory as it was, unless it was a shrink to exactly zero of an address
      space with something in it. */
  lemma FailedSbrk(s: State, held: multiset<nat>, nproc: nat, d: nat, n: int)
    requires Quiet(s, held, nproc) && d in s.sizes && -0x8000_0000 <= n < 0x8000_0000
    requires VmRun.Sbrk(s, d, n).1 == -1
    ensures View(VmRun.Sbrk(s, d, n).0) == View(s) <==> s.sizes[d] + n != 0 || Wiped(View(s)[d]) == View(s)[d]
  {
    hide Good, Private, VmRun.Sbrk, SpaceAt;
    SbrkRefines(s, held, nproc, d, n);
    if s.sizes[d] + n == 0 && n < 0 {
      assert View(s)[d := Wiped(View(s)[d])][d] == Wiped(View(s)[d]);
    }
  }
}
