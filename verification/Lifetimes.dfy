/** Who may use a page directory, and who frees it: the part of the process table that fork,
    clone, exec, exit, wait and join agree on.  A step is one critical section. */
module Lifetimes {
  import opened Options
  import opened Scheduler

  datatype Kind = Gone | Baby | Live | Dead

  datatype Core = Core(kind: Kind, parent: Option<nat>, thread: bool, pgdir: Option<nat>, doing: Doing)

  /** Directories are numbered as they are made; `dirs` are those made and not freed. */
  datatype Spaces = Spaces(cores: seq<Core>, init: nat, dirs: set<nat>, next: nat)

  datatype Event =
    | Nothing
    | Alloc(p: nat, np: nat, shared: bool)
    | Adopt(p: nat)
    | Abandon(p: nat)
    | Launch(p: nat)
    | Exit(p: nat)
    | Reap(p: nat, child: nat)
    | Join(p: nat, child: nat)
    | StartExec(p: nat)
    | NewImage(p: nat)
    | FailExec(p: nat)
    | DoneExec(p: nat)

  predicate Uses(x: Core, d: nat) {
    x.kind != Gone && (x.pgdir == Some(d) || x.doing == Exec(Some(d)))
  }

  /** No process but `p` is counted by pgdir_users for the directory of `p`. */
  predicate Sole(cores: seq<Core>, p: nat)
    requires p < |cores|
  {
    forall q :: 0 <= q < |cores| && q != p && cores[q].kind != Gone ==> cores[q].pgdir != cores[p].pgdir
  }

  // ------------------------------------------------------------ the invariant

  predicate Family(cores: seq<Core>, p: nat)
    requires p < |cores|
  {
    var x := cores[p];
    && (x.kind == Gone ==> x.parent.None? && x.doing == Free)
    && (x.kind in {Baby, Dead} ==> x.doing == Free)
    && (x.kind in {Live, Dead} ==> x.pgdir.Some?)
    && (x.parent.Some? ==> x.parent.value < |cores| && cores[x.parent.value].kind == Live)
  }

  /** A thread runs in its parent's space until the parent exits and init takes it over. */
  predicate Threaded(cores: seq<Core>, init: nat, p: nat)
    requires p < |cores|
  {
    var x := cores[p];
    x.kind != Gone && x.thread && x.parent.Some? && x.parent.value != init && x.parent.value < |cores| ==>
      x.pgdir == cores[x.parent.value].pgdir
  }

  predicate Making(cores: seq<Core>, p: nat)
    requires p < |cores|
  {
    match cores[p].doing
    case Child(np, shared) =>
      && np < |cores| && cores[np].kind == Baby && cores[np].parent.None? && cores[np].pgdir.None? && !cores[np].thread
      && (!shared ==> Sole(cores, p))
    case Ready(np) => np < |cores| && cores[np].kind == Baby && cores[np].parent == Some(p) && cores[np].pgdir.Some?
    case Exec(image) => Sole(cores, p) && (image.Some? ==> cores[p].pgdir != image)
    case Free => true
  }

  predicate Apart(a: Core, b: Core) {
    && (a.doing.Child? && b.doing.Child? ==> a.doing.slot != b.doing.slot)
    && (a.doing.Exec? && b.doing.Exec? && a.doing.image.Some? ==> a.doing != b.doing)
    && (a.kind != Gone && b.doing.Exec? && b.doing.image.Some? ==> a.pgdir != b.doing.image)
  }

  ghost predicate InUse(cores: seq<Core>, d: nat) {
    exists p: nat :: p < |cores| && Uses(cores[p], d)
  }

  /** Exactly the directories in use are allocated. */
  ghost predicate Accounted(s: Spaces) {
    && (forall d: nat :: d in s.dirs <==> InUse(s.cores, d))
    && (forall d :: d in s.dirs ==> d < s.next)
  }

  predicate Good(cores: seq<Core>, init: nat, p: nat)
    requires p < |cores|
  {
    Family(cores, p) && Threaded(cores, init, p) && Making(cores, p)
  }

  predicate Structure(cores: seq<Core>, init: nat) {
    && init < |cores| && cores[init].kind == Live
    && (forall p :: 0 <= p < |cores| ==> Good(cores, init, p))
    && (forall p, q :: 0 <= p < |cores| && 0 <= q < |cores| && p != q ==> Apart(cores[p], cores[q]))
  }

  ghost predicate Inv(s: Spaces) {
    Structure(s.cores, s.init) && Accounted(s)
  }

  // ------------------------------------------------------------ the steps

  predicate Enabled(s: Spaces, v: Event) {
    var n := |s.cores|;
    match v
    case Nothing => true
    case Alloc(p, np, shared) =>
      p < n && s.cores[p].kind == Live && s.cores[p].doing == Free && np < n && s.cores[np].kind == Gone && (shared || Sole(s.cores, p))
    case Adopt(p) => p < n && s.cores[p].kind == Live && s.cores[p].doing.Child? && s.cores[p].doing.slot < n
    case Abandon(p) => p < n && s.cores[p].kind == Live && s.cores[p].doing.Child? && s.cores[p].doing.slot < n
    case Launch(p) => p < n && s.cores[p].kind == Live && s.cores[p].doing.Ready? && s.cores[p].doing.slot < n
    case Exit(p) => p < n && p != s.init && s.cores[p].kind == Live && s.cores[p].doing == Free && s.init < n
    case Reap(p, c) => p < n && s.cores[p].kind == Live && s.cores[p].doing == Free && c < n && s.cores[c].kind == Dead && s.cores[c].parent == Some(p)
    case Join(p, c) =>
      p < n && p != s.init && s.cores[p].kind == Live && s.cores[p].doing == Free && c < n && s.cores[c].kind == Dead && s.cores[c].thread && s.cores[c].parent == Some(p)
    case StartExec(p) => p < n && s.cores[p].kind == Live && s.cores[p].doing == Free && Sole(s.cores, p)
    case NewImage(p) => p < n && s.cores[p].kind == Live && s.cores[p].doing == Exec(None)
    case FailExec(p) => p < n && s.cores[p].kind == Live && s.cores[p].doing.Exec?
    case DoneExec(p) => p < n && s.cores[p].kind == Live && s.cores[p].doing.Exec? && s.cores[p].doing.image.Some?
  }

  const GONE := Core(Gone, None, false, None, Free)

  /** The directories a step hands to freevm. */
  function Frees(s: Spaces, v: Event): set<nat>
    requires Enabled(s, v)
  {
    match v
    case Reap(_, c) => if Sole(s.cores, c) then Held(s.cores[c].pgdir) else {}
    case FailExec(p) => Held(s.cores[p].doing.image)
    case DoneExec(p) => Held(s.cores[p].pgdir)
    case _ => {}
  }

  function Held(d: Option<nat>): set<nat> {
    if d.Some? then {d.value} else {}
  }

  function Orphaned(cores: seq<Core>, p: nat, init: nat): (r: seq<Core>)
    ensures |r| == |cores|
    ensures forall i :: 0 <= i < |cores| ==> r[i] == if cores[i].parent == Some(p) then cores[i].(parent := Some(init)) else cores[i]
  {
    seq(|cores|, i requires 0 <= i < |cores| => if cores[i].parent == Some(p) then cores[i].(parent := Some(init)) else cores[i])
  }

  /** Process `p` gets the empty slot `np` for a child that is to share its space or not. */
  function AllocIn(cores: seq<Core>, p: nat, np: nat, shared: bool): seq<Core>
    requires p < |cores| && np < |cores|
  {
    cores[np := Core(Baby, cores[np].parent, false, None, Free)][p := cores[p].(doing := Child(np, shared))]
  }

  function AdoptIn(cores: seq<Core>, p: nat, np: nat, thread: bool, dir: Option<nat>): seq<Core>
    requires p < |cores| && np < |cores|
  {
    cores[np := cores[np].(parent := Some(p), thread := thread, pgdir := dir)][p := cores[p].(doing := Ready(np))]
  }

  function AbandonIn(cores: seq<Core>, p: nat, np: nat): seq<Core>
    requires p < |cores| && np < |cores|
  {
    cores[np := GONE][p := cores[p].(doing := Free)]
  }

  function LaunchIn(cores: seq<Core>, p: nat, np: nat): seq<Core>
    requires p < |cores| && np < |cores|
  {
    cores[np := cores[np].(kind := Live)][p := cores[p].(doing := Free)]
  }

  function ExitIn(cores: seq<Core>, p: nat, init: nat): seq<Core>
    requires p < |cores|
  {
    var cs := Orphaned(cores, p, init);
    cs[p := cs[p].(kind := Dead)]
  }

  function Apply(s: Spaces, v: Event): (t: Spaces)
    requires Enabled(s, v)
    ensures |t.cores| == |s.cores| && t.init == s.init && s.next <= t.next
  {
    var f := Frees(s, v);
    match v
    case Nothing => s
    case Alloc(p, np, shared) => s.(cores := AllocIn(s.cores, p, np, shared))
    case Adopt(p) =>
      var np := s.cores[p].doing.slot;
      if s.cores[p].doing.shared then s.(cores := AdoptIn(s.cores, p, np, true, s.cores[p].pgdir))
      else s.(cores := AdoptIn(s.cores, p, np, s.cores[np].thread, Some(s.next)), dirs := s.dirs + {s.next}, next := s.next + 1)
    case Abandon(p) => s.(cores := AbandonIn(s.cores, p, s.cores[p].doing.slot))
    case Launch(p) => s.(cores := LaunchIn(s.cores, p, s.cores[p].doing.slot))
    case Exit(p) => s.(cores := ExitIn(s.cores, p, s.init))
    case Reap(_, c) => s.(cores := s.cores[c := GONE], dirs := s.dirs - f)
    case Join(_, c) => s.(cores := s.cores[c := GONE])
    case StartExec(p) => s.(cores := s.cores[p := s.cores[p].(doing := Exec(None))])
    case NewImage(p) => s.(cores := s.cores[p := s.cores[p].(doing := Exec(Some(s.next)))], dirs := s.dirs + {s.next}, next := s.next + 1)
    case FailExec(p) => s.(cores := s.cores[p := s.cores[p].(doing := Free)], dirs := s.dirs - f)
    case DoneExec(p) => s.(cores := s.cores[p := s.cores[p].(pgdir := s.cores[p].doing.image, doing := Free)], dirs := s.dirs - f)
  }

  // ------------------------------------------------------------ the structure is kept

  lemma AllocKeeps(cores: seq<Core>, init: nat, p: nat, np: nat, shared: bool)
    requires Structure(cores, init) && p < |cores| && cores[p].kind == Live && cores[p].doing == Free
    requires np < |cores| && cores[np].kind == Gone && (shared || Sole(cores, p))
    ensures Structure(AllocIn(cores, p, np, shared), init)
  {
    var cs := AllocIn(cores, p, np, shared);
    assert Good(cores, init, np);
    forall q: nat | q < |cores| ensures Good(cs, init, q) && (q != p ==> Apart(cs[q], cs[p]) && Apart(cs[p], cs[q])) {
      assert Good(cores, init, q);
    }
  }

  lemma AdoptKeeps(cores: seq<Core>, init: nat, p: nat, thread: bool, dir: nat)
    requires Structure(cores, init) && p < |cores| && cores[p].kind == Live && cores[p].doing.Child?
    requires if thread then cores[p].pgdir == Some(dir) else forall q :: 0 <= q < |cores| ==> !Uses(cores[q], dir)
    ensures cores[p].doing.slot < |cores| && !cores[cores[p].doing.slot].thread
    ensures Structure(AdoptIn(cores, p, cores[p].doing.slot, thread, Some(dir)), init)
  {
    assert Good(cores, init, p);
    var np := cores[p].doing.slot;
    var cs := AdoptIn(cores, p, np, thread, Some(dir));
    assert Good(cores, init, np);
    forall q: nat | q < |cores| ensures Good(cs, init, q) && (q != np ==> Apart(cs[q], cs[np]) && Apart(cs[np], cs[q])) {
      assert Good(cores, init, q);
      assert q != p ==> Apart(cores[q], cores[p]) && Apart(cores[p], cores[q]);
    }
  }

  lemma AbandonKeeps(cores: seq<Core>, init: nat, p: nat)
    requires Structure(cores, init) && p < |cores| && cores[p].kind == Live && cores[p].doing.Child?
    ensures cores[p].doing.slot < |cores| && Structure(AbandonIn(cores, p, cores[p].doing.slot), init)
  {
    assert Good(cores, init, p);
    var np := cores[p].doing.slot;
    var cs := AbandonIn(cores, p, np);
    forall q: nat | q < |cores| ensures Good(cs, init, q) {
      assert Good(cores, init, q) && (q != p ==> Apart(cores[q], cores[p]));
    }
  }

  lemma LaunchKeeps(cores: seq<Core>, init: nat, p: nat)
    requires Structure(cores, init) && p < |cores| && cores[p].kind == Live && cores[p].doing.Ready?
    ensures cores[p].doing.slot < |cores| && Structure(LaunchIn(cores, p, cores[p].doing.slot), init)
  {
    assert Good(cores, init, p);
    var cs := LaunchIn(cores, p, cores[p].doing.slot);
    forall q: nat | q < |cores| ensures Good(cs, init, q) {
      assert Good(cores, init, q);
    }
  }

  lemma ExitKeeps(cores: seq<Core>, init: nat, p: nat)
    requires Structure(cores, init) && p < |cores| && p != init && cores[p].kind == Live && cores[p].doing == Free
    ensures Structure(ExitIn(cores, p, init), init)
  {
    var cs := ExitIn(cores, p, init);
    forall q: nat | q < |cores| ensures Good(cs, init, q) {
      assert Good(cores, init, q);
    }
  }

  lemma ReapKeeps(cores: seq<Core>, init: nat, c: nat)
    requires Structure(cores, init) && c < |cores| && cores[c].kind == Dead
    ensures Structure(cores[c := GONE], init)
  {
    var cs := cores[c := GONE];
    forall q: nat | q < |cores| ensures Good(cs, init, q) {
      assert Good(cores, init, q);
    }
  }

  /** Only a process alone in its space, or one that is leaving exec, changes its exec state. */
  lemma ExecKeeps(cores: seq<Core>, init: nat, p: nat, doing: Doing)
    requires Structure(cores, init) && p < |cores| && cores[p].kind == Live && (cores[p].doing == Free || cores[p].doing.Exec?)
    requires doing == Free || (doing.Exec? && Sole(cores, p))
    requires doing.Exec? && doing.image.Some? ==> forall q :: 0 <= q < |cores| ==> !Uses(cores[q], doing.image.value)
    ensures Structure(cores[p := cores[p].(doing := doing)], init)
  {
    var cs := cores[p := cores[p].(doing := doing)];
    forall q: nat | q < |cores| ensures Good(cs, init, q) && (q != p ==> Apart(cs[q], cs[p]) && Apart(cs[p], cs[q])) {
      assert Good(cores, init, q);
      assert q != p ==> Apart(cores[q], cores[p]) && Apart(cores[p], cores[q]);
    }
  }

  lemma SwapKeeps(cores: seq<Core>, init: nat, p: nat)
    requires Structure(cores, init) && p < |cores| && cores[p].kind == Live && cores[p].doing.Exec? && cores[p].doing.image.Some?
    ensures Structure(cores[p := cores[p].(pgdir := cores[p].doing.image, doing := Free)], init)
  {
    var cs := cores[p := cores[p].(pgdir := cores[p].doing.image, doing := Free)];
    assert Good(cores, init, p);
    forall q: nat | q < |cores| ensures Good(cs, init, q) {
      assert Good(cores, init, q);
      assert q != p ==> Apart(cores[q], cores[p]);
    }
  }

  // ------------------------------------------------------------ the directories are accounted for

  /** Slot by slot the same directories are used, but for `gone`, which nobody uses any more, and
      `made`, which was in nobody's use. */
  lemma UsersMove(s: Spaces, t: Spaces, gone: set<nat>, made: set<nat>)
    requires Accounted(s) && |t.cores| == |s.cores|
    requires t.dirs == s.dirs - gone + made && t.next >= s.next && (forall d :: d in made ==> d < t.next)
    requires forall q: nat, d: nat :: q < |s.cores| && Uses(s.cores[q], d) && d !in gone ==> InUse(t.cores, d)
    requires forall q: nat, d: nat :: q < |s.cores| && Uses(t.cores[q], d) ==> d in made || (InUse(s.cores, d) && d !in gone)
    requires forall d :: d in made ==> InUse(t.cores, d)
    ensures Accounted(t)
  {
  }

  lemma QuietAccounted(s: Spaces, v: Event)
    requires Inv(s) && Enabled(s, v) && (v.Alloc? || v.Abandon? || v.Launch? || v.Exit? || v.StartExec?)
    ensures Accounted(Apply(s, v))
  {
    var t := Apply(s, v);
    assert Good(s.cores, s.init, v.p);
    if v.Abandon? { assert Good(s.cores, s.init, s.cores[v.p].doing.slot); }
    forall q: nat, d: nat | q < |s.cores| ensures Uses(s.cores[q], d) <==> Uses(t.cores[q], d) {
      assert Good(s.cores, s.init, q);
    }
    UsersMove(s, t, {}, {});
  }

  lemma AdoptAccounted(s: Spaces, p: nat)
    requires Inv(s) && Enabled(s, Adopt(p))
    ensures Accounted(Apply(s, Adopt(p)))
  {
    var t := Apply(s, Adopt(p));
    var np := s.cores[p].doing.slot;
    assert Good(s.cores, s.init, p) && Good(s.cores, s.init, np);
    forall q: nat, d: nat | q < |s.cores| && Uses(s.cores[q], d) ensures InUse(t.cores, d) { assert Uses(t.cores[q], d); }
    if s.cores[p].doing.shared {
      forall q: nat, d: nat | q < |s.cores| && Uses(t.cores[q], d) ensures InUse(s.cores, d) {
        assert Uses(s.cores[if q == np then p else q], d);
      }
      UsersMove(s, t, {}, {});
    } else {
      forall q: nat, d: nat | q < |s.cores| && Uses(t.cores[q], d) && d != s.next ensures InUse(s.cores, d) {
        assert Uses(s.cores[q], d);
      }
      assert Uses(t.cores[np], s.next);
      UsersMove(s, t, {}, {s.next});
    }
  }

  lemma ImageAccounted(s: Spaces, p: nat)
    requires Inv(s) && Enabled(s, NewImage(p))
    ensures Accounted(Apply(s, NewImage(p)))
  {
    var t := Apply(s, NewImage(p));
    forall q: nat, d: nat | q < |s.cores| && Uses(s.cores[q], d) ensures InUse(t.cores, d) { assert Uses(t.cores[q], d); }
    forall q: nat, d: nat | q < |s.cores| && Uses(t.cores[q], d) && d != s.next ensures InUse(s.cores, d) {
      assert Uses(s.cores[q], d);
    }
    assert Uses(t.cores[p], s.next);
    UsersMove(s, t, {}, {s.next});
  }

  lemma LeaveExecAccounted(s: Spaces, v: Event)
    requires Inv(s) && Enabled(s, v) && (v.FailExec? || v.DoneExec?)
    ensures Accounted(Apply(s, v))
  {
    var t := Apply(s, v);
    var f := Frees(s, v);
    assert Good(s.cores, s.init, v.p);
    forall q: nat, d: nat | q < |s.cores| && Uses(s.cores[q], d) && d !in f ensures InUse(t.cores, d) {
      assert Uses(t.cores[q], d);
    }
    forall q: nat, d: nat | q < |s.cores| && Uses(t.cores[q], d) ensures InUse(s.cores, d) && d !in f {
      assert Good(s.cores, s.init, q) && Uses(s.cores[q], d);
      assert q != v.p ==> Apart(s.cores[q], s.cores[v.p]) && Apart(s.cores[v.p], s.cores[q]);
    }
    UsersMove(s, t, f, {});
  }

  lemma ReapAccounted(s: Spaces, p: nat, c: nat)
    requires Inv(s) && Enabled(s, Reap(p, c))
    ensures Accounted(Apply(s, Reap(p, c)))
  {
    var t := Apply(s, Reap(p, c));
    var f := Frees(s, Reap(p, c));
    assert Good(s.cores, s.init, c);
    forall q: nat, d: nat | q < |s.cores| && Uses(s.cores[q], d) && d !in f ensures InUse(t.cores, d) {
      if q == c {
        var o :| 0 <= o < |s.cores| && o != c && s.cores[o].kind != Gone && s.cores[o].pgdir == s.cores[c].pgdir;
        assert Uses(t.cores[o], d);
      } else {
        assert Uses(t.cores[q], d);
      }
    }
    forall q: nat, d: nat | q < |s.cores| && Uses(t.cores[q], d) ensures InUse(s.cores, d) && d !in f {
      assert Good(s.cores, s.init, q) && Uses(s.cores[q], d);
      assert Apart(s.cores[c], s.cores[q]);
    }
    UsersMove(s, t, f, {});
  }

  /** join drops a directory without freeing it, and never the last reference to it. */
  lemma JoinAccounted(s: Spaces, p: nat, c: nat)
    requires Inv(s) && Enabled(s, Join(p, c))
    ensures Accounted(Apply(s, Join(p, c)))
    ensures p != c && s.cores[c].pgdir == s.cores[p].pgdir
  {
    var t := Apply(s, Join(p, c));
    assert Good(s.cores, s.init, c) && Good(s.cores, s.init, p);
    forall q: nat, d: nat | q < |s.cores| && Uses(s.cores[q], d) ensures InUse(t.cores, d) {
      assert Uses(t.cores[if q == c then p else q], d);
    }
    forall q: nat, d: nat | q < |s.cores| && Uses(t.cores[q], d) ensures InUse(s.cores, d) {
      assert Uses(s.cores[q], d);
    }
    UsersMove(s, t, {}, {});
  }

  /** Dropping an exited thread's directory without freeing it is right exactly when another
      process still uses it.  With a parent other than init one always does; an orphaned thread,
      which init could meet if it called join, may be the last user. */
  lemma JoinExact(s: Spaces, c: nat)
    requires Inv(s) && c < |s.cores| && s.cores[c].kind == Dead
    ensures Accounted(s.(cores := s.cores[c := GONE])) <==> !Sole(s.cores, c)
    ensures s.cores[c].thread && s.cores[c].parent.Some? && s.cores[c].parent != Some(s.init) ==> !Sole(s.cores, c)
  {
    var t := s.(cores := s.cores[c := GONE]);
    assert Good(s.cores, s.init, c);
    var d := s.cores[c].pgdir.value;
    assert Uses(s.cores[c], d);
    if Sole(s.cores, c) {
      forall q: nat | q < |t.cores| ensures !Uses(t.cores[q], d) {
        assert Good(s.cores, s.init, q) && (q != c ==> Apart(s.cores[c], s.cores[q]));
      }
      assert InUse(s.cores, d) && !InUse(t.cores, d);
    } else {
      var o :| 0 <= o < |s.cores| && o != c && s.cores[o].kind != Gone && s.cores[o].pgdir == s.cores[c].pgdir;
      forall q: nat, e: nat | q < |s.cores| && Uses(s.cores[q], e) ensures InUse(t.cores, e) {
        assert Uses(t.cores[if q == c then o else q], e);
      }
      forall q: nat, e: nat | q < |s.cores| && Uses(t.cores[q], e) ensures InUse(s.cores, e) {
        assert Uses(s.cores[q], e);
      }
      UsersMove(s, t, {}, {});
    }
  }

  // ------------------------------------------------------------ every run

  lemma StructureStep(s: Spaces, v: Event)
    requires Inv(s) && Enabled(s, v)
    ensures Structure(Apply(s, v).cores, s.init)
  {
    hide Structure, AllocIn, AdoptIn, AbandonIn, LaunchIn, ExitIn, Sole;
    match v
    case Nothing =>
    case Alloc(p, np, shared) => AllocKeeps(s.cores, s.init, p, np, shared);
    case Adopt(p) =>
      NextUnused(s);
      SlotsOk(s, p);
      if s.cores[p].doing.shared { AdoptKeeps(s.cores, s.init, p, true, s.cores[p].pgdir.value); }
      else { AdoptKeeps(s.cores, s.init, p, false, s.next); }
    case Abandon(p) => AbandonKeeps(s.cores, s.init, p);
    case Launch(p) => LaunchKeeps(s.cores, s.init, p);
    case Exit(p) => ExitKeeps(s.cores, s.init, p);
    case Reap(p, c) => ReapKeeps(s.cores, s.init, c);
    case Join(p, c) => ReapKeeps(s.cores, s.init, c);
    case StartExec(p) => ExecKeeps(s.cores, s.init, p, Exec(None));
    case NewImage(p) =>
      NextUnused(s);
      SlotsOk(s, p);
      ExecKeeps(s.cores, s.init, p, Exec(Some(s.next)));
    case FailExec(p) => ExecKeeps(s.cores, s.init, p, Free);
    case DoneExec(p) => SwapKeeps(s.cores, s.init, p);
  }

  lemma NextUnused(s: Spaces)
    requires Accounted(s)
    ensures forall q :: 0 <= q < |s.cores| ==> !Uses(s.cores[q], s.next)
  {
    if q: nat :| q < |s.cores| && Uses(s.cores[q], s.next) {
      assert InUse(s.cores, s.next);
    }
  }

  lemma SlotsOk(s: Spaces, p: nat)
    requires Inv(s) && p < |s.cores| && s.cores[p].kind == Live
    ensures s.cores[p].pgdir.Some? && (s.cores[p].doing.Exec? ==> Sole(s.cores, p))
    ensures s.cores[p].doing.Child? ==> s.cores[p].doing.slot < |s.cores| && !s.cores[s.cores[p].doing.slot].thread
  {
    assert Good(s.cores, s.init, p);
  }

  lemma StepKeeps(s: Spaces, v: Event)
    requires Inv(s) && Enabled(s, v)
    ensures Inv(Apply(s, v))
  {
    StructureStep(s, v);
    hide Structure, Accounted, AllocIn, AdoptIn, AbandonIn, LaunchIn, ExitIn, Sole;
    match v
    case Nothing =>
    case Alloc(_, _, _) => QuietAccounted(s, v);
    case Adopt(p) => AdoptAccounted(s, p);
    case Abandon(_) => QuietAccounted(s, v);
    case Launch(_) => QuietAccounted(s, v);
    case Exit(_) => QuietAccounted(s, v);
    case Reap(p, c) => ReapAccounted(s, p, c);
    case Join(p, c) => JoinAccounted(s, p, c);
    case StartExec(_) => QuietAccounted(s, v);
    case NewImage(p) => ImageAccounted(s, p);
    case FailExec(_) => LeaveExecAccounted(s, v);
    case DoneExec(_) => LeaveExecAccounted(s, v);
  }

  /** What a step frees was allocated, is free afterwards, and nobody uses it any more; and
      nothing else stops being allocated. */
  lemma FreesRight(s: Spaces, v: Event)
    requires Inv(s) && Enabled(s, v)
    ensures Frees(s, v) <= s.dirs && s.dirs - Apply(s, v).dirs == Frees(s, v)
    ensures forall d, q :: d in Frees(s, v) && 0 <= q < |s.cores| ==> !Uses(Apply(s, v).cores[q], d)
  {
    StepKeeps(s, v);
    var f, t := Frees(s, v), Apply(s, v);
    forall d | d in f ensures d in s.dirs {
      if v.Reap? {
        assert Good(s.cores, s.init, v.child) && Uses(s.cores[v.child], d);
      } else {
        assert Uses(s.cores[v.p], d);
      }
      assert InUse(s.cores, d);
    }
    assert t.dirs == s.dirs - f || f == {};
    assert s.dirs - t.dirs == f;
    forall d, q: nat | d in f && q < |s.cores| ensures !Uses(t.cores[q], d) {
      assert Uses(t.cores[q], d) ==> InUse(t.cores, d);
    }
  }

  /** While two processes have a directory, no fork copies it, no exec replaces it and nothing frees
      it: the sharing test of fork and exec still holds when they act on it. */
  lemma SharedUntouched(s: Spaces, v: Event, d: nat, a: nat, b: nat)
    requires Inv(s) && Enabled(s, v) && a < |s.cores| && b < |s.cores| && a != b
    requires s.cores[a].kind != Gone && s.cores[a].pgdir == Some(d) && s.cores[b].kind != Gone && s.cores[b].pgdir == Some(d)
    ensures (v.Adopt? || v.Abandon?) && !s.cores[v.p].doing.shared ==> s.cores[v.p].pgdir != Some(d)
    ensures d !in Frees(s, v)
  {
    if v.Adopt? || v.Abandon? || v.DoneExec? || v.FailExec? { assert Good(s.cores, s.init, v.p); }
    if v.FailExec? && v.p != a { assert Apart(s.cores[a], s.cores[v.p]); }
  }

  /** A process alone in its space stays alone whatever the others do: fork and exec may let go of the
      lock between their sharing test and what follows. */
  lemma SoleStays(s: Spaces, v: Event, p: nat)
    requires Inv(s) && Enabled(s, v) && p < |s.cores| && s.cores[p].kind == Live && Sole(s.cores, p)
    requires v.Nothing? || v.p != p
    ensures Sole(Apply(s, v).cores, p)
  {
    assert Good(s.cores, s.init, p);
    var d := s.cores[p].pgdir.value;
    assert Uses(s.cores[p], d);
    NextUnused(s);
    if !v.Nothing? {
      assert Good(s.cores, s.init, v.p) && Apart(s.cores[p], s.cores[v.p]);
      if v.Reap? || v.Join? { assert v.child != p; }
    }
    hide Structure, Accounted, InUse;
  }

  /** A directory that is gone does not come back: numbers are not used twice. */
  lemma GoneForGood(s: Spaces, v: Event, d: nat)
    requires Inv(s) && Enabled(s, v) && d < s.next && d !in s.dirs
    ensures d < Apply(s, v).next && d !in Apply(s, v).dirs && d !in Frees(s, v)
  {
    FreesRight(s, v);
  }

  ghost predicate Possible(s: Spaces, vs: seq<Event>)
    decreases |vs|
  {
    vs == [] || (Enabled(s, vs[0]) && Possible(Apply(s, vs[0]), vs[1..]))
  }

  ghost function Run(s: Spaces, vs: seq<Event>): Spaces
    requires Possible(s, vs)
    decreases |vs|
  {
    if vs == [] then s else Run(Apply(s, vs[0]), vs[1..])
  }

  /** How often a run frees directory `d`. */
  ghost function TimesFreed(s: Spaces, vs: seq<Event>, d: nat): nat
    requires Possible(s, vs)
    decreases |vs|
  {
    if vs == [] then 0 else (if d in Frees(s, vs[0]) then 1 else 0) + TimesFreed(Apply(s, vs[0]), vs[1..], d)
  }

  lemma {:induction false} NeverAgain(s: Spaces, vs: seq<Event>, d: nat)
    requires Inv(s) && Possible(s, vs) && d < s.next && d !in s.dirs
    ensures TimesFreed(s, vs, d) == 0 && d !in Run(s, vs).dirs
    decreases |vs|
  {
    if vs != [] {
      StepKeeps(s, vs[0]);
      GoneForGood(s, vs[0], d);
      NeverAgain(Apply(s, vs[0]), vs[1..], d);
    }
  }

  /** Over any run a directory that was allocated is freed exactly once if nobody uses it at the
      end, and not at all if somebody does. */
  lemma {:induction false} FreedOnce(s: Spaces, vs: seq<Event>, d: nat)
    requires Inv(s) && Possible(s, vs) && d in s.dirs
    ensures TimesFreed(s, vs, d) == if InUse(Run(s, vs).cores, d) then 0 else 1
    decreases |vs|
  {
    hide Frees, Apply, Enabled, Structure, InUse;
    if vs != [] {
      var t := Apply(s, vs[0]);
      StepKeeps(s, vs[0]);
      FreesRight(s, vs[0]);
      if d in t.dirs {
        FreedOnce(t, vs[1..], d);
      } else {
        NeverAgain(t, vs[1..], d);
        RunKeeps(t, vs[1..]);
      }
    }
  }

  lemma {:induction false} RunKeeps(s: Spaces, vs: seq<Event>)
    requires Inv(s) && Possible(s, vs)
    ensures Inv(Run(s, vs))
    decreases |vs|
  {
    if vs != [] {
      StepKeeps(s, vs[0]);
      RunKeeps(Apply(s, vs[0]), vs[1..]);
    }
  }
}
