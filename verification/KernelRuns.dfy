/** The process table and memory together: which memory operation each critical section of proc.c
    and exec.c performs, what every run of the two keeps, and when a futex key is stable. */
module KernelRuns {
  import opened Options
  import opened Frames
  import opened Scheduler
  import opened ProcTable
  import opened ProcRuns
  import V = VmTheorem
  import F = VmFacts
  import P = ProcTheorem
  import L = Lifetimes

  /** `names` gives the frame of each page directory that the table knows by number. */
  datatype Kernel = Whole(table: Sys, mem: V.Sys, names: map<nat, nat>)

  datatype Act =
    | Table(v: Step)
    | Build(p: nat, image: seq<Page>, guard: nat)
    | User(p: nat, op: V.Op)
    | Frame(op: V.Op)

  function Name(k: Kernel, d: Option<nat>): nat {
    if d.Some? && d.value in k.names then k.names[d.value] else 0
  }

  /** The directory that wait, or a finished or failed exec, hands to freevm. */
  function Freed(s: Sys, v: Step): Option<nat>
    requires ProcTable.Enabled(s, v)
  {
    var procs := s.sched.procs;
    match v
    case Wait(p) =>
      var z := FirstZombie(procs, p, false, 0);
      if z.Some? && UsersTo(procs, procs[z.value].pgdir, |procs|) == 1 then procs[z.value].pgdir else None
    case FailExec(p) => procs[p].doing.image
    case DoneExec(p) => procs[p].pgdir
    case _ => None
  }

  /** fork's copy of the parent's space: cowuvm. */
  predicate Copies(s: Sys, v: Step)
    requires ProcTable.Enabled(s, v)
  {
    v.Adopt? && !s.sched.procs[v.p].doing.shared
  }

  function CopyOp(k: Kernel, p: nat): V.Op
    requires p < |k.table.sched.procs|
  {
    V.Fork(Name(k, k.table.sched.procs[p].pgdir))
  }

  /** A fork goes on exactly if the copy was made; a process touches its own space only. */
  ghost predicate Enabled(k: Kernel, ndirs: nat, a: Act) {
    match a
    case Table(v) =>
      && ProcTable.Enabled(k.table, v) && !v.NewImage?
      && (Copies(k.table, v) ==> v.ok == F.Made(V.Step(k.mem, ndirs, CopyOp(k, v.p)).1).Some?)
    case Build(p, _, _) => ProcTable.Enabled(k.table, NewImage(p))
    case User(p, op) =>
      && p < |k.table.sched.procs| && k.table.sched.procs[p].state == Running && V.InRange(op)
      && (op.Load? || op.Store? || op.Sbrk?) && op.d == Name(k, k.table.sched.procs[p].pgdir)
    case Frame(op) => op.Kalloc? || op.Kfree?
  }

  ghost function Apply(k: Kernel, ndirs: nat, a: Act): Kernel
    requires Enabled(k, ndirs, a)
  {
    match a
    case Table(v) =>
      var t := ProcTable.Apply(k.table, v);
      if Copies(k.table, v) then
        var (y, obs) := V.Step(k.mem, ndirs, CopyOp(k, v.p));
        Whole(t, y, if v.ok then k.names[k.table.nextdir := F.Made(obs).value] else k.names)
      else if Freed(k.table, v).Some? then
        Whole(t, V.Step(k.mem, ndirs, V.Exit(Name(k, Freed(k.table, v)))).0, k.names - {Freed(k.table, v).value})
      else k.(table := t)
    case Build(p, image, guard) =>
      var (y, obs) := V.Step(k.mem, ndirs, V.Init(image, guard));
      if F.Made(obs).None? then k.(mem := y)
      else Whole(ProcTable.Apply(k.table, NewImage(p)), y, k.names[k.table.nextdir := F.Made(obs).value])
    case User(_, op) => k.(mem := V.Step(k.mem, ndirs, op).0)
    case Frame(op) => k.(mem := V.Step(k.mem, ndirs, op).0)
  }

  // ------------------------------------------------------------ the invariant

  predicate Injective(m: map<nat, nat>) {
    forall d, e :: d in m && e in m && m[d] == m[e] ==> d == e
  }

  /** Both parts are sound, and the address spaces there are are exactly those of the directories
      that the table knows: none is lost and none is used after it is gone. */
  ghost predicate Inv(k: Kernel, ndirs: nat) {
    && SysInv(k.table) && V.Ok(k.mem, ndirs)
    && k.names.Keys == k.table.dirs && Injective(k.names) && k.names.Values == k.mem.vm.sizes.Keys
  }

  lemma AddName(m: map<nat, nat>, d: nat, c: nat)
    requires Injective(m) && d !in m && c !in m.Values
    ensures Injective(m[d := c]) && m[d := c].Keys == m.Keys + {d} && m[d := c].Values == m.Values + {c}
  {
    var n := m[d := c];
    assert d in n && n[d] == c;
    forall e | e in m.Values ensures e in n.Values {
      var x :| x in m && m[x] == e;
      assert x in n && n[x] == e;
    }
  }

  lemma DropName(m: map<nat, nat>, d: nat)
    requires Injective(m) && d in m
    ensures Injective(m - {d}) && (m - {d}).Keys == m.Keys - {d} && (m - {d}).Values == m.Values - {m[d]}
  {
    var n := m - {d};
    forall e | e in m.Values && e != m[d] ensures e in n.Values {
      var x :| x in m && m[x] == e;
      assert x in n && n[x] == e;
    }
  }

  // ------------------------------------------------------------ every step keeps it

  lemma UserKeeps(k: Kernel, ndirs: nat, a: Act)
    requires Inv(k, ndirs) && Enabled(k, ndirs, a) && (a.User? || a.Frame?)
    ensures Inv(Apply(k, ndirs, a), ndirs)
  {
    hide SysInv, V.Ok, V.Step;
    F.SpacesAfter(k.mem, ndirs, a.op);
  }

  /** The directories after a step of the table: `Freed` is gone, and an unshared child or a new
      image is the next one. */
  lemma DirsAfter(s: Sys, v: Step)
    requires SysInv(s) && ProcTable.Enabled(s, v)
    ensures SysInv(ProcTable.Apply(s, v)) && s.nextdir !in s.dirs
    ensures var t := ProcTable.Apply(s, v);
            t.dirs == if v.NewImage? || (Copies(s, v) && v.ok) then s.dirs + {s.nextdir}
                      else s.dirs - L.Held(Freed(s, v))
    ensures Freed(s, v).Some? ==> Freed(s, v).value in s.dirs
  {
    hide SysInv, L.Sole, UsersTo, FirstZombie, FirstUnused, Ok, L.Inv;
    P.StepKeeps(s, v);
    P.StepSeen(s, v);
    NextFresh(s);
    L.FreesRight(View(s), EventOf(s, v));
    FreedSeen(s, v);
    hide Freed, L.Frees;
    assert ProcTable.Apply(s, v).dirs == L.Apply(View(s), EventOf(s, v)).dirs;
  }

  lemma NextFresh(s: Sys)
    requires SysInv(s)
    ensures s.nextdir !in s.dirs && L.Inv(View(s))
  {
  }

  lemma FreedSeen(s: Sys, v: Step)
    requires SysInv(s) && ProcTable.Enabled(s, v)
    ensures L.Enabled(View(s), EventOf(s, v)) && L.Held(Freed(s, v)) == L.Frees(View(s), EventOf(s, v))
  {
    hide SysInv, UsersTo, FirstZombie, L.Sole, Ok, FirstUnused, ProcTable.Apply, L.Apply, L.Enabled;
    P.StepSeen(s, v);
    if v.Wait? { WaitFrees(s, v.p); }
  }

  lemma WaitFrees(s: Sys, p: nat)
    requires SysInv(s) && p < |s.sched.procs|
    ensures var procs := s.sched.procs;
            var z := FirstZombie(procs, p, false, 0);
            z.Some? ==> procs[z.value].pgdir.Some? && (UsersTo(procs, procs[z.value].pgdir, |procs|) == 1 <==> L.Sole(Cores(procs), z.value))
  {
    hide SysInv, FirstZombie, UsersTo, L.Sole;
    InvParts(s);
    var z := FirstZombie(s.sched.procs, p, false, 0);
    if z.Some? {
      CoreAt(s, z.value);
      SoleIs(s.sched.procs, z.value);
    }
  }

  lemma CopierThere(s: Sys, v: Step)
    requires ProcTable.Enabled(s, v)
    ensures Copies(s, v) ==> v.p < |s.sched.procs| && Freed(s, v).None?
  {
  }

  lemma TableKeeps(k: Kernel, ndirs: nat, v: Step)
    requires Inv(k, ndirs) && Enabled(k, ndirs, Table(v))
    ensures Inv(Apply(k, ndirs, Table(v)), ndirs)
  {
    hide SysInv, V.Ok, V.Step, ProcTable.Apply, ProcTable.Enabled, Freed, Injective;
    DirsAfter(k.table, v);
    CopierThere(k.table, v);
    if Copies(k.table, v) {
      F.SpacesAfter(k.mem, ndirs, CopyOp(k, v.p));
      if v.ok { AddName(k.names, k.table.nextdir, F.Made(V.Step(k.mem, ndirs, CopyOp(k, v.p)).1).value); }
    } else if Freed(k.table, v).Some? {
      var d := Freed(k.table, v).value;
      F.SpacesAfter(k.mem, ndirs, V.Exit(k.names[d]));
      DropName(k.names, d);
    }
  }

  lemma BuildKeeps(k: Kernel, ndirs: nat, p: nat, image: seq<Page>, guard: nat)
    requires Inv(k, ndirs) && Enabled(k, ndirs, Build(p, image, guard))
    ensures Inv(Apply(k, ndirs, Build(p, image, guard)), ndirs)
  {
    hide SysInv, V.Ok, V.Step, ProcTable.Apply, ProcTable.Enabled, Freed, Injective;
    DirsAfter(k.table, NewImage(p));
    F.SpacesAfter(k.mem, ndirs, V.Init(image, guard));
    var made := F.Made(V.Step(k.mem, ndirs, V.Init(image, guard)).1);
    if made.Some? { AddName(k.names, k.table.nextdir, made.value); }
  }

  lemma StepKeeps(k: Kernel, ndirs: nat, a: Act)
    requires Inv(k, ndirs) && Enabled(k, ndirs, a)
    ensures Inv(Apply(k, ndirs, a), ndirs)
  {
    hide Inv, Enabled, Apply;
    match a
    case Table(v) => TableKeeps(k, ndirs, v);
    case Build(p, image, guard) => BuildKeeps(k, ndirs, p, image, guard);
    case User(_, _) => UserKeeps(k, ndirs, a);
    case Frame(_) => UserKeeps(k, ndirs, a);
  }

  // ------------------------------------------------------------ every run

  ghost predicate Possible(k: Kernel, ndirs: nat, acts: seq<Act>)
    decreases |acts|
  {
    acts == [] || (Enabled(k, ndirs, acts[0]) && Possible(Apply(k, ndirs, acts[0]), ndirs, acts[1..]))
  }

  ghost function Run(k: Kernel, ndirs: nat, acts: seq<Act>): Kernel
    requires Possible(k, ndirs, acts)
    decreases |acts|
  {
    if acts == [] then k else Run(Apply(k, ndirs, acts[0]), ndirs, acts[1..])
  }

  lemma {:induction false} RunKeeps(k: Kernel, ndirs: nat, acts: seq<Act>)
    requires Inv(k, ndirs) && Possible(k, ndirs, acts)
    ensures Inv(Run(k, ndirs, acts), ndirs)
    decreases |acts|
  {
    hide Inv, Enabled, Apply;
    if acts != [] {
      StepKeeps(k, ndirs, acts[0]);
      RunKeeps(Apply(k, ndirs, acts[0]), ndirs, acts[1..]);
    }
  }

  /** userinit on a machine without address spaces, and any run from there. */
  lemma Reachable(nproc: nat, ncpu: nat, y: V.Sys, ndirs: nat, image: seq<Page>, acts: seq<Act>)
    requires nproc > 0 && ncpu > 0 && V.Ok(y, ndirs) && y.vm.sizes == map[]
    requires F.Made(V.Step(y, ndirs, V.Init(image, |image|)).1).Some?
    ensures var (z, obs) := V.Step(y, ndirs, V.Init(image, |image|));
            var k := Whole(P.Start(nproc, ncpu), z, map[0 := F.Made(obs).value]);
            Possible(k, ndirs, acts) ==> Inv(Run(k, ndirs, acts), ndirs)
  {
    hide SysInv, V.Ok, V.Step, P.Start, Possible, Run, Injective;
    P.StartInv(nproc, ncpu);
    StartDirs(nproc, ncpu);
    F.SpacesAfter(y, ndirs, V.Init(image, |image|));
    var (z, obs) := V.Step(y, ndirs, V.Init(image, |image|));
    var k := Whole(P.Start(nproc, ncpu), z, map[0 := F.Made(obs).value]);
    OneName(F.Made(obs).value);
    if Possible(k, ndirs, acts) { RunKeeps(k, ndirs, acts); }
  }

  lemma StartDirs(nproc: nat, ncpu: nat)
    requires nproc > 0 && ncpu > 0
    ensures P.Start(nproc, ncpu).dirs == {0}
  {
  }

  lemma OneName(c: nat)
    ensures Injective(map[0 := c]) && map[0 := c].Keys == {0} && map[0 := c].Values == {c}
  {
    assert 0 in map[0 := c];
  }

  // ------------------------------------------------------------ futex keys

  /** pgdir_users counts more than one process in directory `d`. */
  predicate IsShared(s: Sys, d: nat) {
    UsersTo(s.sched.procs, Some(d), |s.sched.procs|) > 1
  }

  predicate Shrinks(k: Kernel, a: Act, d: nat) {
    a.User? && a.op.Sbrk? && a.op.n < 0 && a.op.d == Name(k, Some(d))
  }

  /** Whenever the run goes on, more than one process is in `d`, and none of them shrinks it. */
  ghost predicate StaysShared(k: Kernel, ndirs: nat, acts: seq<Act>, d: nat)
    requires Possible(k, ndirs, acts)
    decreases |acts|
  {
    acts == [] ||
    (IsShared(k.table, d) && !Shrinks(k, acts[0], d) && StaysShared(Apply(k, ndirs, acts[0]), ndirs, acts[1..], d))
  }

  lemma {:induction false} SomeUser(procs: seq<Proc>, d: nat, n: nat) returns (p: nat)
    requires n <= |procs| && UsersTo(procs, Some(d), n) > 0
    ensures p < n && procs[p].state != Unused && procs[p].pgdir == Some(d)
  {
    if procs[n - 1].state != Unused && procs[n - 1].pgdir == Some(d) { p := n - 1; }
    else { p := SomeUser(procs, d, n - 1); }
  }

  lemma TwoUsers(s: Sys, d: nat) returns (p: nat, q: nat)
    requires IsShared(s, d)
    ensures p < |s.sched.procs| && q < |s.sched.procs| && p != q
    ensures var cs := Cores(s.sched.procs);
            cs[p].kind != L.Gone && cs[p].pgdir == Some(d) && cs[q].kind != L.Gone && cs[q].pgdir == Some(d)
  {
    var procs := s.sched.procs;
    p := SomeUser(procs, d, |procs|);
    UsersCount(procs, d, |procs|, p);
    q :| 0 <= q < |procs| && q != p && procs[q].state != Unused && procs[q].pgdir == Some(d);
  }

  /** The memory operation of a step; a step without one is told by the table alone. */
  function OpOf(k: Kernel, a: Act): Option<V.Op>
    requires a.Table? ==> ProcTable.Enabled(k.table, a.v)
  {
    match a
    case Table(v) =>
      if Copies(k.table, v) then Some(CopyOp(k, v.p))
      else if Freed(k.table, v).Some? then Some(V.Exit(Name(k, Freed(k.table, v)))) else None
    case Build(_, image, guard) => Some(V.Init(image, guard))
    case User(_, op) => Some(op)
    case Frame(op) => Some(op)
  }

  /** No step moves or protects a page of a shared space, shrinks apart: the process that copies,
      replaces or frees a space is alone in it, and still is when it does so. */
  lemma Undisturbed(k: Kernel, ndirs: nat, a: Act, d: nat)
    requires Inv(k, ndirs) && Enabled(k, ndirs, a) && IsShared(k.table, d) && d in k.names && !Shrinks(k, a, d)
    ensures OpOf(k, a).Some? ==> !F.Disturbs(OpOf(k, a).value, k.names[d])
    ensures d in Apply(k, ndirs, a).names && Apply(k, ndirs, a).names[d] == k.names[d]
  {
    hide SysInv, V.Ok, V.Step, IsShared, ProcTable.Apply, ProcTable.Enabled, Freed, Injective;
    match a
    case Table(v) => TableApart(k, v, d);
    case Build(p, _, _) => DirsAfter(k.table, NewImage(p));
    case User(_, _) =>
    case Frame(_) =>
  }

  lemma TableApart(k: Kernel, v: Step, d: nat)
    requires ProcTable.Enabled(k.table, v) && SysInv(k.table) && IsShared(k.table, d)
    requires k.names.Keys == k.table.dirs && Injective(k.names) && d in k.names
    ensures Freed(k.table, v).Some? ==> Freed(k.table, v).value != d && Name(k, Freed(k.table, v)) != k.names[d]
    ensures Copies(k.table, v) ==> Name(k, k.table.sched.procs[v.p].pgdir) != k.names[d]
    ensures k.table.nextdir !in k.names
  {
    hide SysInv, IsShared, ProcTable.Apply, Freed;
    DirsAfter(k.table, v);
    CopyApart(k.table, v, d);
  }

  /** The sharing tests of fork and exec still hold when they act on the space. */
  lemma CopyApart(s: Sys, v: Step, d: nat)
    requires SysInv(s) && ProcTable.Enabled(s, v) && IsShared(s, d)
    ensures Freed(s, v) != Some(d)
    ensures Copies(s, v) ==> var x := s.sched.procs[v.p].pgdir; x.Some? && x.value in s.dirs && x.value != d
  {
    hide SysInv, IsShared, ProcTable.Apply, L.Frees, L.Apply, L.Enabled, Freed;
    var p, q := TwoUsers(s, d);
    P.StepSeen(s, v);
    FreedSeen(s, v);
    InvParts(s);
    L.SharedUntouched(View(s), EventOf(s, v), d, p, q);
    if Copies(s, v) { P.DirectoryLive(s, v.p); }
  }

  /** A page of a shared space that is writable stays writable and keeps its frame, so the futex
      key of a word in it is the same all the time: those who wait and those who wake agree. */
  lemma {:induction false} KeyStable(k: Kernel, ndirs: nat, acts: seq<Act>, d: nat, va: nat)
    requires Inv(k, ndirs) && Possible(k, ndirs, acts) && StaysShared(k, ndirs, acts, d) && d in k.names
    requires (k.names[d], va / PGSIZE) in k.mem.vm.ptes && k.mem.vm.ptes[(k.names[d], va / PGSIZE)].w
    ensures var z, slot := Run(k, ndirs, acts), (k.names[d], va / PGSIZE);
            && d in z.names && z.names[d] == k.names[d] && slot in z.mem.vm.ptes && z.mem.vm.ptes[slot].w
            && F.Key(z.mem.vm, z.names[d], va) == F.Key(k.mem.vm, k.names[d], va)
    decreases |acts|
  {
    hide Inv, Enabled, Apply, IsShared, Shrinks;
    if acts != [] {
      StepKeeps(k, ndirs, acts[0]);
      EntryStays(k, ndirs, acts[0], d, va / PGSIZE);
      KeyStable(Apply(k, ndirs, acts[0]), ndirs, acts[1..], d, va);
    }
  }

  lemma EntryStays(k: Kernel, ndirs: nat, a: Act, d: nat, v: nat)
    requires Inv(k, ndirs) && Enabled(k, ndirs, a) && IsShared(k.table, d) && d in k.names && !Shrinks(k, a, d)
    requires (k.names[d], v) in k.mem.vm.ptes && k.mem.vm.ptes[(k.names[d], v)].w
    ensures var t := Apply(k, ndirs, a);
            && d in t.names && t.names[d] == k.names[d] && (k.names[d], v) in t.mem.vm.ptes
            && t.mem.vm.ptes[(k.names[d], v)] == k.mem.vm.ptes[(k.names[d], v)]
  {
    hide SysInv, V.Ok, V.Step, IsShared, ProcTable.Apply, ProcTable.Enabled, F.Disturbs, Freed, Injective, Shrinks;
    Undisturbed(k, ndirs, a, d);
    if OpOf(k, a).Some? { F.WritableStays(k.mem, ndirs, OpOf(k, a).value, (k.names[d], v)); }
  }
}
