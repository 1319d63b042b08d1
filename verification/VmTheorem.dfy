/** Whole runs: every run of the lazy, copy-on-write system is a run of the reference machine. */
module VmTheorem {
  import opened Options
  import opened Frames
  import opened AddressSpaces
  import opened VmSpec
  import opened VmOps
  import opened VmFaults
  import opened VmRun
  import opened VmExec
  import opened VmCost
  import Eager

  /** `held` are the frames of other kernel code: kernel stacks, pipe buffers. */
  datatype Sys = Sys(vm: State, held: multiset<nat>)

  datatype Op =
    | Init(image: seq<Page>, guard: nat)
    | Exec(d: nat, image: seq<Page>, guard: nat)
    | Fork(d: nat)
    | Sbrk(d: nat, n: int)
    | Load(d: nat, va: nat, user: bool)
    | Store(d: nat, va: nat, b: Byte, user: bool)
    | Exit(d: nat)
    | Kalloc
    | Kfree(f: nat)

  datatype Obs =
    | Space(made: Option<nat>)
    | Ret(r: int)
    | Access(o: Outcome)
    | Value(o: Outcome, b: Byte)
    | Nothing

  ghost predicate Ok(y: Sys, nproc: nat) {
    Quiet(y.vm, y.held, nproc) && nproc < USHORT - 3
  }

  /** One operation; an operation on an address space that does not exist does nothing. */
  ghost function Step(y: Sys, nproc: nat, op: Op): (Sys, Obs) {
    var s := y.vm;
    match op
    case Init(image, guard) =>
      var (t, r) := Spawn(s, nproc, image, guard);
      (y.(vm := t), Space(r))
    case Exec(d, image, guard) =>
      if d !in s.sizes then (y, Nothing)
      else
        var (t, r) := Spawn(s, nproc + 1, image, guard);
        (y.(vm := if r.Some? then VmRun.Exit(t, d) else t), Space(r))
    case Fork(d) =>
      if d !in s.sizes then (y, Nothing)
      else var (t, r) := VmOps.Fork(s, nproc, d); (y.(vm := t), Space(r))
    case Sbrk(d, n) =>
      if d !in s.sizes then (y, Nothing)
      else var (t, r) := VmRun.Sbrk(s, d, n); (y.(vm := t), Ret(r))
    case Load(d, va, user) =>
      if d !in s.sizes || !Named(s) then (y, Nothing)
      else var (t, o, b) := VmFaults.Load(s, d, va, user); (y.(vm := t), Value(o, b))
    case Store(d, va, b, user) =>
      if d !in s.sizes || !Named(s) then (y, Nothing)
      else var (t, o) := VmFaults.Store(s, d, va, b, user); (y.(vm := t), Obs.Access(o))
    case Exit(d) =>
      if d !in s.sizes then (y, Nothing) else (y.(vm := VmRun.Exit(s, d)), Nothing)
    case Kalloc =>
      if s.phys.free == [] then (y, Nothing)
      else (Sys(s.(phys := s.phys.Alloc()), y.held + multiset{s.phys.free[0]}), Nothing)
    case Kfree(f) =>
      if f !in y.held then (y, Nothing)
      else (Sys(s.(phys := s.phys.Free(f)), y.held - multiset{f}), Nothing)
  }

  /** The same operation on the reference machine, given how it came out. */
  function EagerStep(e: Eager.Spaces, op: Op, obs: Obs): Eager.Spaces {
    match (op, obs)
    case (Init(image, guard), Space(Some(c))) => e[c := ImageSpace(image, guard)]
    case (Exec(d, image, guard), Space(Some(c))) => Eager.Exit(e[c := ImageSpace(image, guard)], d)
    case (Fork(d), Space(Some(c))) => if d in e then Eager.Fork(e, d, c) else e
    case (Sbrk(d, n), Ret(r)) =>
      if d !in e || e[d].size + n < 0 || e[d].size + n >= Eager.KERNBASE then e
      else if e[d].size + n == 0 && n < 0 then e[d := Wiped(e[d])]
      else Eager.Sbrk(e, d, e[d].size + n)
    case (Store(d, va, b, _), Access(Done)) =>
      if Eager.Mapped(e, d, va) then Eager.Store(e, d, va, b) else e
    case (Exit(d), _) => Eager.Exit(e, d)
    case _ => e
  }

  /** The outcome of an access: done, with the reference machine's memory, exactly if the program
      may touch the page and frames for it are free; stuck exactly on a write to the guard page;
      killed otherwise. */
  predicate AccessRight(e: Eager.Spaces, s: State, d: nat, va: nat, wr: bool, user: bool, o: Outcome) {
    var frames := |s.phys.free| >= AccessNeeds(s, (d, va / PGSIZE), wr);
    && (o.Done? <==> Reachable(e, s, d, va) && !Guarded(e, d, va, user) && frames)
    && (o.Stuck? <==> Guarded(e, d, va, user) && wr && frames)
  }

  /** The outcome is the one that the reference machine's contents `e` and the free memory of `s`
      call for.  New spaces have new names, and there is none exactly for want of a slot, of
      frames, or of addresses below the kernel; loads return the machine's bytes; sbrk returns its
      break.  Of `s` only the free frames, the pages and tables in place and who shares them matter. */
  predicate Faithful(e: Eager.Spaces, s: State, nproc: nat, op: Op, obs: Obs) {
    match (op, obs)
    case (Init(image, _), Space(r)) =>
      && (r.Some? <==> |e| < nproc && |image| * PGSIZE < Eager.KERNBASE && |s.phys.free| >= SpawnNeeds(image))
      && (r.Some? ==> r.value !in e)
    case (Exec(d, image, _), Space(r)) =>
      && d in e && (r.Some? <==> |image| * PGSIZE < Eager.KERNBASE && |s.phys.free| >= SpawnNeeds(image))
      && (r.Some? ==> r.value !in e)
    case (Fork(d), Space(r)) =>
      && d in e && d in s.sizes && (r.Some? <==> |e| < nproc && |s.phys.free| >= ForkNeeds(s, d))
      && (r.Some? ==> r.value !in e)
    case (Load(d, va, user), Value(o, b)) => AccessRight(e, s, d, va, false, user, o) && (o.Done? ==> b == Eager.Load(e, d, va))
    case (Store(d, va, _, user), Access(o)) => AccessRight(e, s, d, va, true, user, o)
    case (Sbrk(d, n), Ret(r)) =>
      && d in e
      && r == if e[d].size + n >= Eager.KERNBASE || (n < 0 && (e[d].size == 0 || e[d].size + n == 0)) then -1 else e[d].size
    case (Exit(_), Nothing) => true
    case (Kalloc, Nothing) => true
    case (Kfree(_), Nothing) => true
    case (Exec(d, _, _), Nothing) => d !in e
    case (Fork(d), Nothing) => d !in e
    case (Sbrk(d, _), Nothing) => d !in e
    case (Load(d, _, _), Nothing) => d !in e
    case (Store(d, _, _, _), Nothing) => d !in e
    case _ => false
  }

  predicate InRange(op: Op) {
    op.Sbrk? ==> -0x8000_0000 <= op.n < 0x8000_0000
  }

  lemma QuietMore(s: State, held: multiset<nat>, nproc: nat)
    requires Quiet(s, held, nproc) && nproc < USHORT - 3
    ensures Quiet(s, held, nproc + 1)
  {
  }

  lemma KallocQuiet(s: State, held: multiset<nat>, nproc: nat)
    requires Quiet(s, held, nproc) && s.phys.free != []
    ensures Quiet(s.(phys := s.phys.Alloc()), held + multiset{s.phys.free[0]}, nproc)
    ensures View(s.(phys := s.phys.Alloc())) == View(s)
  {
    hide Exact, Shape, Sized, Aligned, PageAt, Count, SamePages, View;
    AllocStep(s, held);
    NotNamed(s, s.phys.free[0]);
    SamePagesView(s, s.(phys := s.phys.Alloc()));
  }

  lemma KfreeQuiet(s: State, held: multiset<nat>, nproc: nat, f: nat)
    requires Quiet(s, held, nproc) && f in held
    ensures Quiet(s.(phys := s.phys.Free(f)), held - multiset{f}, nproc)
    ensures View(s.(phys := s.phys.Free(f))) == View(s)
  {
    hide Exact, Shape, Sized, Aligned, PageAt, Count, SamePages, View;
    FreeStep(s, held, f);
    SamePagesView(s, s.(phys := s.phys.Free(f)));
  }

  lemma ExecQuiet(s: State, held: multiset<nat>, nproc: nat, d: nat, image: seq<Page>, guard: nat)
    requires Quiet(s, held, nproc) && nproc < USHORT - 3 && d in s.sizes
    ensures var (t, r) := Spawn(s, nproc + 1, image, guard);
            && (r.Some? <==> |image| * PGSIZE < Eager.KERNBASE && |s.phys.free| >= SpawnNeeds(image))
            && (r.None? ==> Quiet(t, held, nproc) && View(t) == View(s))
            && (r.Some? ==> d in t.sizes && r.value !in View(s) && Quiet(VmRun.Exit(t, d), held, nproc)
                            && View(VmRun.Exit(t, d)) == Eager.Exit(View(s)[r.value := ImageSpace(image, guard)], d))
  {
    hide Good, Private, Spawn, VmRun.Exit, View, Eager.Exit, SpawnNeeds;
    QuietMore(s, held, nproc);
    SpawnExact(s, held, nproc + 1, image, guard);
    SpawnQuiet(s, held, nproc + 1, image, guard);
    SpawnRefines(s, held, nproc + 1, image, guard);
    var (t, r) := Spawn(s, nproc + 1, image, guard);
    ViewKeys(s);
    ViewKeys(t);
    if r.Some? {
      ExitQuiet(t, held, nproc + 1, d);
      ExitRefines(t, held, nproc + 1, d);
      ExitDirs(t, VmRun.Exit(t, d), d);
      OneInOneOut(s.dirs, d, r.value);
    }
  }

  lemma ViewKeys(s: State)
    ensures View(s).Keys == s.sizes.Keys
  {
  }

  lemma OneInOneOut(a: set<nat>, d: nat, c: nat)
    requires d in a && c !in a
    ensures |a + {c} - {d}| == |a|
  {
  }

  lemma ExitDirs(s: State, t: State, d: nat)
    requires Dropped(s.(sizes := s.sizes - {d}), t, d)
    ensures t.dirs == s.dirs - {d}
  {
  }

  lemma LoadQuiet(s: State, held: multiset<nat>, nproc: nat, d: nat, va: nat, user: bool)
    requires Quiet(s, held, nproc) && d in s.sizes
    ensures Named(s) && Quiet(VmFaults.Load(s, d, va, user).0, held, nproc)
  {
    hide Good, Private, VmFaults.Access;
    AccessQuiet(s, held, nproc, d, va, false, user);
  }

  /** One step: the invariant is kept, the view takes the reference machine's step, and the
      outcome is the one that calls for. */
  ghost predicate Refined(y: Sys, nproc: nat, op: Op) {
    var (z, obs) := Step(y, nproc, op);
    Ok(z, nproc) && View(z.vm) == EagerStep(View(y.vm), op, obs) && Faithful(View(y.vm), y.vm, nproc, op, obs)
  }

  lemma StepRefines(y: Sys, nproc: nat, op: Op)
    requires Ok(y, nproc) && InRange(op)
    ensures Refined(y, nproc, op)
  {
    hide Refined, Ok;
    match op
    case Init(image, guard) => SpawnStep(y, nproc, image, guard);
    case Exec(d, image, guard) => ExecStep(y, nproc, d, image, guard);
    case Fork(d) => ForkStep(y, nproc, d);
    case Sbrk(d, n) => SbrkStep(y, nproc, d, n);
    case Load(d, va, user) => LoadStep(y, nproc, d, va, user);
    case Store(d, va, b, user) => StoreStep(y, nproc, d, va, b, user);
    case Exit(d) => ExitStep(y, nproc, d);
    case Kalloc => FrameStep(y, nproc, op);
    case Kfree(_) => FrameStep(y, nproc, op);
  }

  lemma SpawnStep(y: Sys, nproc: nat, image: seq<Page>, guard: nat)
    requires Ok(y, nproc)
    ensures Refined(y, nproc, Init(image, guard))
  {
    hide Good, Private, Spawn, View, ImageSpace, SpawnNeeds;
    ViewKeys(y.vm);
    SpawnQuiet(y.vm, y.held, nproc, image, guard);
    SpawnRefines(y.vm, y.held, nproc, image, guard);
    SpawnExact(y.vm, y.held, nproc, image, guard);
  }

  lemma ExecStep(y: Sys, nproc: nat, d: nat, image: seq<Page>, guard: nat)
    requires Ok(y, nproc)
    ensures Refined(y, nproc, Exec(d, image, guard))
  {
    hide Good, Private, Spawn, View, VmRun.Exit, ImageSpace, SpawnNeeds;
    ViewKeys(y.vm);
    if d in y.vm.sizes { ExecQuiet(y.vm, y.held, nproc, d, image, guard); }
  }

  lemma ForkStep(y: Sys, nproc: nat, d: nat)
    requires Ok(y, nproc)
    ensures Refined(y, nproc, Fork(d))
  {
    hide Good, Private, View, VmOps.Fork, ForkNeeds;
    ViewKeys(y.vm);
    if d in y.vm.sizes {
      ForkQuiet(y.vm, y.held, nproc, d);
      ForkRefines(y.vm, y.held, nproc, d);
      ForkExact(y.vm, y.held, nproc, d);
    }
  }

  lemma SbrkStep(y: Sys, nproc: nat, d: nat, n: int)
    requires Ok(y, nproc) && InRange(Sbrk(d, n))
    ensures Refined(y, nproc, Sbrk(d, n))
  {
    hide Good, Private, View, VmRun.Sbrk, Eager.Sbrk, Wiped;
    ViewKeys(y.vm);
    if d in y.vm.sizes {
      SbrkQuiet(y.vm, y.held, nproc, d, n);
      SbrkRefines(y.vm, y.held, nproc, d, n);
      ViewSize(y.vm, d);
    }
  }

  lemma LoadStep(y: Sys, nproc: nat, d: nat, va: nat, user: bool)
    requires Ok(y, nproc)
    ensures Refined(y, nproc, Load(d, va, user))
  {
    hide Good, Private, View, VmFaults.Access, Reachable, Guarded, AccessNeeds;
    ViewKeys(y.vm);
    if d in y.vm.sizes {
      LoadQuiet(y.vm, y.held, nproc, d, va, user);
      LoadRefines(y.vm, y.held, nproc, d, va, user);
      AccessExact(y.vm, y.held, nproc, d, va, false, user);
      AccessQuiet(y.vm, y.held, nproc, d, va, false, user);
    }
  }

  lemma StoreStep(y: Sys, nproc: nat, d: nat, va: nat, b: Byte, user: bool)
    requires Ok(y, nproc)
    ensures Refined(y, nproc, Store(d, va, b, user))
  {
    hide Good, Private, View, VmFaults.Access, Reachable, Guarded, AccessNeeds;
    ViewKeys(y.vm);
    if d in y.vm.sizes {
      StoreQuiet(y.vm, y.held, nproc, d, va, b, user);
      StoreRefines(y.vm, y.held, nproc, d, va, b, user);
      AccessExact(y.vm, y.held, nproc, d, va, true, user);
      AccessQuiet(y.vm, y.held, nproc, d, va, true, user);
    }
  }

  lemma ExitStep(y: Sys, nproc: nat, d: nat)
    requires Ok(y, nproc)
    ensures Refined(y, nproc, Exit(d))
  {
    hide Good, Private, View, VmRun.Exit;
    ViewKeys(y.vm);
    if d in y.vm.sizes {
      ExitQuiet(y.vm, y.held, nproc, d);
      ExitRefines(y.vm, y.held, nproc, d);
    } else {
      assert Eager.Exit(View(y.vm), d) == View(y.vm);
    }
  }

  lemma FrameStep(y: Sys, nproc: nat, op: Op)
    requires Ok(y, nproc) && (op.Kalloc? || op.Kfree?)
    ensures Refined(y, nproc, op)
  {
    hide Good, Private, View;
    if op.Kalloc? {
      if y.vm.phys.free != [] { KallocQuiet(y.vm, y.held, nproc); }
    } else if op.f in y.held {
      KfreeQuiet(y.vm, y.held, nproc, op.f);
    }
  }

  lemma ViewSize(s: State, d: nat)
    requires d in s.sizes
    ensures View(s)[d].size == s.sizes[d]
  {
  }

  ghost function Run(y: Sys, nproc: nat, ops: seq<Op>): (Sys, seq<Obs>) {
    if ops == [] then (y, [])
    else
      var (z, os) := Run(y, nproc, ops[..|ops| - 1]);
      var (w, o) := Step(z, nproc, ops[|ops| - 1]);
      (w, os + [o])
  }

  /** The reference machine on the same operations, told their outcomes. */
  function EagerRun(e: Eager.Spaces, ops: seq<Op>, obs: seq<Obs>): Eager.Spaces
    requires |ops| == |obs|
  {
    if ops == [] then e
    else EagerStep(EagerRun(e, ops[..|ops| - 1], obs[..|obs| - 1]), ops[|ops| - 1], obs[|obs| - 1])
  }

  /** Every outcome along the run is the one that the reference machine, which has run as far,
      and the memory then free call for. */
  ghost predicate FaithfulRun(y: Sys, nproc: nat, ops: seq<Op>, obs: seq<Obs>)
    requires |ops| == |obs|
  {
    ops == [] ||
    var n := |ops| - 1;
    && FaithfulRun(y, nproc, ops[..n], obs[..n])
    && Faithful(EagerRun(View(y.vm), ops[..n], obs[..n]), Run(y, nproc, ops[..n]).0.vm, nproc, ops[n], obs[n])
  }

  /** For every run, of any length: the invariant holds at the end, every address space has the
      contents the reference machine gives it, and every outcome along the way, success or
      failure, is the one that machine and the free memory call for. */
  lemma {:induction false} RunRefines(y: Sys, nproc: nat, ops: seq<Op>)
    requires Ok(y, nproc) && forall op :: op in ops ==> InRange(op)
    ensures var (z, obs) := Run(y, nproc, ops);
            && |obs| == |ops| && Ok(z, nproc)
            && View(z.vm) == EagerRun(View(y.vm), ops, obs)
            && FaithfulRun(y, nproc, ops, obs)
  {
    hide Ok, Step, EagerStep, Faithful, View;
    if ops != [] {
      var n := |ops| - 1;
      RunRefines(y, nproc, ops[..n]);
      var (z, obs) := Run(y, nproc, ops[..n]);
      assert ops[n] in ops;
      StepRefines(z, nproc, ops[n]);
      assert (obs + [Step(z, nproc, ops[n]).1])[..n] == obs;
    }
  }
}
