/** Process ids, and whom kill marks.  A slot keeps its id and its mark when a fork fails, and id 0
    belongs to every slot that has been waited for, so kill can mark a slot that is in nobody's use;
    the next child that gets the slot is then born with the mark. */
module ProcKill {
  import opened Params
  import opened Options
  import opened Scheduler
  import opened Aging
  import opened ProcTable
  import opened ProcRuns
  import opened ProcTheorem
  import L = Lifetimes

  /** What kill looks at, and what it leaves behind. */
  datatype Tag = Tag(pid: nat, kind: L.Kind, killed: bool)

  function TagOf(x: Proc): Tag {
    Tag(x.pid, KindOf(x.state), x.killed)
  }

  function Tags(procs: seq<Proc>): (r: seq<Tag>)
    ensures |r| == |procs| && forall p :: 0 <= p < |procs| ==> r[p] == TagOf(procs[p])
  {
    seq(|procs|, p requires 0 <= p < |procs| => TagOf(procs[p]))
  }

  /** Ids have been given out, no two slots have the same one, and every slot in use has one. */
  predicate PidsOk(tags: seq<Tag>, nextpid: nat) {
    && nextpid > 0
    && (forall p :: 0 <= p < |tags| ==> tags[p].pid < nextpid && (tags[p].kind != L.Gone ==> tags[p].pid > 0))
    && (forall p, q :: 0 <= p < |tags| && 0 <= q < |tags| && p != q && tags[p].pid == tags[q].pid ==> tags[p].pid == 0)
  }

  /** No slot is marked that is free, or that a fork may still give back. */
  predicate Clean(tags: seq<Tag>) {
    forall p :: 0 <= p < |tags| && tags[p].kind in {L.Gone, L.Baby} ==> !tags[p].killed
  }

  /** The one slot of a step that matters here, if any, and what becomes of it. */
  function Change(s: Sys, v: Step): Option<(nat, Tag)>
    requires Enabled(s, v)
  {
    var procs := s.sched.procs;
    match v
    case Kill(pid) =>
      var r := FindPid(procs, pid, 0);
      if r.None? then None else Some((r.value, TagOf(procs[r.value]).(killed := true)))
    case StartFork(p, kstack) =>
      if UsersTo(procs, procs[p].pgdir, |procs|) > 1 then None else Taken(s, kstack)
    case StartClone(p, kstack) => Taken(s, kstack)
    case Adopt(p, ok) =>
      var np := procs[p].doing.slot;
      if procs[p].doing.shared || ok then None else Some((np, TagOf(procs[np]).(kind := L.Gone)))
    case Launch(p) => var np := procs[p].doing.slot; Some((np, TagOf(procs[np]).(kind := L.Live)))
    case Exit(p) => Some((p, TagOf(procs[p]).(kind := L.Dead)))
    case Wait(p) => Buried(procs, FirstZombie(procs, p, false, 0))
    case Join(p) => Buried(procs, FirstZombie(procs, p, true, 0))
    case _ => None
  }

  function Taken(s: Sys, kstack: bool): Option<(nat, Tag)> {
    var r := FirstUnused(s.sched.procs, 0);
    if r.None? then None
    else Some((r.value, Tag(s.nextpid, if kstack then L.Baby else L.Gone, s.sched.procs[r.value].killed)))
  }

  function Buried(procs: seq<Proc>, z: Option<nat>): Option<(nat, Tag)> {
    if z.None? then None else Some((z.value, Tag(0, L.Gone, false)))
  }

  function Changed(tags: seq<Tag>, c: Option<(nat, Tag)>): seq<Tag> {
    if c.None? || c.value.0 >= |tags| then tags else tags[c.value.0 := c.value.1]
  }

  ghost predicate Tagged(s: Sys, v: Step)
    requires Enabled(s, v)
  {
    Tags(Apply(s, v).sched.procs) == Changed(Tags(s.sched.procs), Change(s, v))
  }

  // ------------------------------------------------------------ what each step does to the tags

  lemma SetTag(procs: seq<Proc>, p: nat, x: Proc)
    requires p < |procs|
    ensures Tags(procs[p := x]) == Tags(procs)[p := TagOf(x)]
    ensures TagOf(x) == TagOf(procs[p]) ==> Tags(procs[p := x]) == Tags(procs)
  {
  }

  lemma WakeTags(s: Sched, chan: Chan, limit: nat, k: nat)
    requires Ok(s) && k <= |s.procs|
    ensures Tags(WakeTo(s, chan, limit, k).0.procs) == Tags(s.procs)
  {
    hide WakeTo, Ok;
    forall p: nat | p < |s.procs| ensures TagOf(WakeTo(s, chan, limit, k).0.procs[p]) == TagOf(s.procs[p]) {
      WakeProc(s, chan, limit, k, p);
    }
  }

  lemma {:induction false} ReparentTags(s: Sched, p: nat, init: nat, k: nat)
    requires Ok(s) && k <= |s.procs|
    ensures Tags(ReparentTo(s, p, init, k).procs) == Tags(s.procs)
  {
    hide WakeTo, Ok, Tags;
    if k > 0 {
      ReparentTags(s, p, init, k - 1);
      var t := ReparentTo(s, p, init, k - 1);
      var u := SetProc(t, k - 1, t.procs[k - 1].(parent := Some(init)));
      SetTag(t.procs, k - 1, u.procs[k - 1]);
      ReparentOk(t, k - 1, Some(init));
      WakeTags(u, OfProc(init), 0, |u.procs|);
    }
  }

  lemma ReparentOk(t: Sched, p: nat, parent: Option<nat>)
    requires Ok(t) && p < |t.procs|
    ensures Ok(SetProc(t, p, t.procs[p].(parent := parent)))
  {
  }

  lemma ExitTags(s: Sched, p: nat, init: nat)
    requires Inv(s) && p < |s.procs| && s.procs[p].state == Running
    ensures Ok(s) && Tags(ExitProc(s, p, init).procs) == Tags(s.procs)[p := TagOf(s.procs[p]).(kind := L.Dead)]
  {
    OkInv(s);
    hide Inv, WakeTo, ReparentTo, Ok, Tags, TagOf, Shape, ProcOk;
    var chan := if s.procs[p].parent.Some? then OfProc(s.procs[p].parent.value) else Nothing;
    var t := WakeAll(s, chan);
    WakeTags(s, chan, 0, |s.procs|);
    ReparentTags(t, p, init, |t.procs|);
    var u := ReparentTo(t, p, init, |t.procs|);
    SetTag(u.procs, p, u.procs[p].(state := Zombie));
    SameTag(s.procs, u.procs, p);
    DeadTag(u.procs[p]);
  }

  lemma DeadTag(x: Proc)
    ensures TagOf(x.(state := Zombie)) == TagOf(x).(kind := L.Dead)
  {
  }

  lemma SameTag(procs: seq<Proc>, after: seq<Proc>, p: nat)
    requires Tags(procs) == Tags(after) && p < |procs|
    ensures |after| == |procs| && TagOf(procs[p]) == TagOf(after[p])
  {
    assert Tags(procs)[p] == Tags(after)[p];
  }

  lemma TickTags(s: Sys, now: nat)
    requires SysInv(s) && Enabled(s, Tick(now))
    ensures Tagged(s, Tick(now))
  {
    hide L.Inv, Inv;
    var e := (now - s.aged) % UINT;
    if e >= AGING_INTERVAL {
      forall p: nat | p < |s.sched.procs| ensures TagOf(Age(s.sched, e).procs[p]) == TagOf(s.sched.procs[p]) {
        AgeProc(s.sched, |s.sched.queues|, e, p);
      }
      assert Tags(Age(s.sched, e).procs) == Tags(s.sched.procs);
    }
  }

  lemma PickTags(s: Sys, cpu: nat)
    requires SysInv(s) && Enabled(s, Pick(cpu))
    ensures Tagged(s, Pick(cpu))
  {
    hide L.Inv, Inv, Tags, FirstLevel, Source;
    DispatchKeeps(s.sched, cpu);
    var src := Source(s.sched, cpu);
    if src.Some? && FirstLevel(s.sched, src.value, 0).Some? {
      var p := s.sched.queues[src.value][FirstLevel(s.sched, src.value, 0).value][0];
      SetTag(s.sched.procs, p, Started(s.sched.procs[p], cpu));
    }
  }

  lemma QuietTags(s: Sys, v: Step)
    requires SysInv(s) && Enabled(s, v)
    requires v.Timer? || v.Yield? || v.Sleep? || v.SetPriority? || v.StartExec? || v.NewImage? || v.FailExec? || v.DoneExec?
    ensures Tagged(s, v)
  {
    hide L.Inv, Inv, Ok, Tags, UsersTo;
    SetTag(s.sched.procs, v.p, Apply(s, v).sched.procs[v.p]);
    assert s.sched.procs == s.sched.procs[v.p := s.sched.procs[v.p]];
  }

  lemma KillTags(s: Sys, pid: int)
    requires SysInv(s) && Enabled(s, Kill(pid))
    ensures Tagged(s, Kill(pid))
  {
    hide L.Inv, Inv, Ok, Tags, FindPid;
    var r := FindPid(s.sched.procs, pid, 0);
    if r.Some? {
      SetTag(s.sched.procs, r.value, KillPid(s.sched, pid).procs[r.value]);
    }
  }

  lemma AllocTags(s: Sys, p: nat, kstack: bool, shared: bool)
    requires p < |s.sched.procs| && s.sched.procs[p].state == Running
    ensures Tags(AllocChild(s, p, kstack, shared).sched.procs) == Changed(Tags(s.sched.procs), Taken(s, kstack))
  {
    hide Tags, FirstUnused;
    var procs := s.sched.procs;
    var r := FirstUnused(procs, 0);
    if r.Some? {
      var x := EmbryoOf(procs[r.value], s.nextpid);
      var y := if kstack then x else x.(state := Unused);
      SetTag(procs, r.value, y);
      SetTag(procs[r.value := y], p, procs[p].(doing := Child(r.value, shared)));
    }
  }

  lemma AdoptTags(s: Sys, p: nat, ok: bool)
    requires SysInv(s) && Enabled(s, Adopt(p, ok))
    ensures Tagged(s, Adopt(p, ok))
  {
    CoreAt(s, p);
    hide SysInv, Ok, Tags;
    var procs, t := s.sched.procs, AdoptChild(s, p, ok).sched.procs;
    var np := procs[p].doing.slot;
    SetTag(procs, np, t[np]);
    SetTag(procs[np := t[np]], p, t[p]);
  }

  lemma LaunchTags(s: Sys, p: nat)
    requires SysInv(s) && Enabled(s, Launch(p))
    ensures Tagged(s, Launch(p))
  {
    CoreAt(s, p);
    hide SysInv, Tags, LeastLoaded;
    var procs, t := s.sched.procs, LaunchChild(s.sched, p).procs;
    var np := procs[p].doing.slot;
    SetTag(procs, p, t[p]);
    SetTag(procs[p := t[p]], np, t[np]);
  }

  lemma WaitTags(s: Sys, p: nat, threads: bool)
    requires p < |s.sched.procs| && s.sched.procs[p].state == Running
    ensures Tags(WaitOnce(s, p, threads).sched.procs) == Changed(Tags(s.sched.procs), Buried(s.sched.procs, FirstZombie(s.sched.procs, p, threads, 0)))
  {
    hide Tags, FirstZombie, UsersTo;
    var procs := s.sched.procs;
    var z := FirstZombie(procs, p, threads, 0);
    if z.Some? {
      SetTag(procs, z.value, Reaped(procs[z.value]));
    } else {
      SetTag(procs, p, procs[p].(chan := OfProc(p), state := Sleeping));
    }
  }

  lemma StepTags(s: Sys, v: Step)
    requires SysInv(s) && Enabled(s, v)
    ensures Tagged(s, v)
  {
    hide SysInv, Ok, Tags, AllocChild, ExitProc, WaitOnce, WakeTo, FirstZombie, FirstUnused, UsersTo;
    match v
    case Tick(now) => TickTags(s, now);
    case Pick(cpu) => PickTags(s, cpu);
    case Timer(_, _) => QuietTags(s, v);
    case Yield(_, _) => QuietTags(s, v);
    case Sleep(_, _) => QuietTags(s, v);
    case Wakeup(chan, limit) => WakeTags(s.sched, chan, limit, |s.sched.procs|);
    case Kill(pid) => KillTags(s, pid);
    case SetPriority(_, _) => QuietTags(s, v);
    case StartFork(p, kstack) => AllocTags(s, p, kstack, false);
    case StartClone(p, kstack) => AllocTags(s, p, kstack, true);
    case Adopt(p, ok) => AdoptTags(s, p, ok);
    case Launch(p) => LaunchTags(s, p);
    case Exit(p) => InvParts(s); ExitTags(s.sched, p, s.init);
    case Wait(p) => WaitTags(s, p, false);
    case Join(p) => WaitTags(s, p, true);
    case StartExec(_) => QuietTags(s, v);
    case NewImage(_) => QuietTags(s, v);
    case FailExec(_) => QuietTags(s, v);
    case DoneExec(_) => QuietTags(s, v);
  }

  // ------------------------------------------------------------ ids are unique in every run

  lemma StepPids(s: Sys, v: Step)
    requires SysInv(s) && Enabled(s, v) && PidsOk(Tags(s.sched.procs), s.nextpid)
    ensures PidsOk(Tags(Apply(s, v).sched.procs), Apply(s, v).nextpid)
  {
    StepTags(s, v);
    ChangeFits(s, v);
    hide SysInv, Enabled, Apply, Change;
    PidsChange(Tags(s.sched.procs), s.nextpid, Apply(s, v).nextpid, Change(s, v));
  }

  /** What a step makes of a slot: its id is new, gone or as before, and a slot that becomes used
      gets one. */
  predicate Fits(tags: seq<Tag>, n: nat, m: nat, c: Option<(nat, Tag)>) {
    && n <= m
    && (c.Some? && c.value.0 < |tags| ==>
          var (p, x) := c.value;
          || (x.pid == n && m == n + 1)
          || (x.pid in {0, tags[p].pid} && (x.kind != L.Gone ==> x.pid == tags[p].pid && tags[p].kind != L.Gone)))
  }

  lemma ChangeFits(s: Sys, v: Step)
    requires SysInv(s) && Enabled(s, v)
    ensures Fits(Tags(s.sched.procs), s.nextpid, Apply(s, v).nextpid, Change(s, v))
  {
    if v.Launch? { CoreAt(s, v.p); }
    hide SysInv, WakeTo, ExitProc, LaunchChild, KillPid, UsersTo, FirstUnused, FirstZombie, FindPid;
  }

  lemma PidsChange(tags: seq<Tag>, n: nat, m: nat, c: Option<(nat, Tag)>)
    requires PidsOk(tags, n) && Fits(tags, n, m, c)
    ensures PidsOk(Changed(tags, c), m)
  {
  }

  lemma {:induction false} RunPids(s: Sys, vs: seq<Step>)
    requires SysInv(s) && PidsOk(Tags(s.sched.procs), s.nextpid) && Possible(s, vs)
    ensures SysInv(Run(s, vs)) && PidsOk(Tags(Run(s, vs).sched.procs), Run(s, vs).nextpid)
    decreases |vs|
  {
    hide SysInv, PidsOk, Apply, Enabled, Tags;
    if vs != [] {
      StepKeeps(s, vs[0]);
      StepPids(s, vs[0]);
      RunPids(Apply(s, vs[0]), vs[1..]);
    }
  }

  /** In every state of every run the ids in use are distinct, non-zero and have been given out. */
  lemma PidsUnique(nproc: nat, ncpu: nat, vs: seq<Step>)
    requires nproc > 0 && ncpu > 0 && Possible(Start(nproc, ncpu), vs)
    ensures var t := Run(Start(nproc, ncpu), vs); SysInv(t) && PidsOk(Tags(t.sched.procs), t.nextpid)
  {
    StartInv(nproc, ncpu);
    hide SysInv, Possible, Run;
    RunPids(Start(nproc, ncpu), vs);
  }

  // ------------------------------------------------------------ whom kill marks

  /** A process that is not unused has the id. */
  predicate Held(procs: seq<Proc>, pid: int) {
    exists p :: 0 <= p < |procs| && procs[p].state != Unused && procs[p].pid == pid
  }

  /** kill marks exactly one process, the one in use that has the id, and nothing else, exactly if
      the id is positive and some process in use has it.  Otherwise it marks no process in use: it
      fails, or it says that it succeeded and has marked an unused slot. */
  lemma KillExact(s: Sys, pid: int)
    requires SysInv(s) && PidsOk(Tags(s.sched.procs), s.nextpid)
    ensures Ok(s.sched)
    ensures var procs, after := s.sched.procs, KillPid(s.sched, pid).procs;
            var r := FindPid(procs, pid, 0);
            && (r.Some? && procs[r.value].state != Unused <==> pid > 0 && Held(procs, pid))
            && (r.Some? ==> procs[r.value].pid == pid && after[r.value].killed)
            && (r.None? ==> after == procs)
            && (forall p :: 0 <= p < |procs| && r != Some(p) ==> after[p] == procs[p] && (procs[p].state != Unused ==> procs[p].pid != pid))
  {
    OkInv(s.sched);
    hide SysInv, Ok;
    var procs := s.sched.procs;
    var r := FindPid(procs, pid, 0);
    forall p | 0 <= p < |procs| && procs[p].state != Unused ensures procs[p].pid > 0 {
      assert Tags(procs)[p].kind != L.Gone;
    }
    if r.Some? {
      forall p | 0 <= p < |procs| && p != r.value && procs[p].pid == pid ensures pid == 0 {
        assert Tags(procs)[p].pid == Tags(procs)[r.value].pid;
      }
    }
  }

  /** A step leaves a mark on a slot that is free or may be given back exactly if it is a kill that
      finds such a slot first. */
  lemma CleanExact(s: Sys, v: Step)
    requires SysInv(s) && Enabled(s, v) && Clean(Tags(s.sched.procs))
    ensures Clean(Tags(Apply(s, v).sched.procs)) <==> !MarksFree(s, v)
  {
    StepTags(s, v);
    ChangeMarks(s, v);
    hide SysInv, Apply, Enabled, Change, Clean, MarksFree, Tags;
    CleanChange(Tags(s.sched.procs), Change(s, v));
  }

  lemma CleanChange(tags: seq<Tag>, c: Option<(nat, Tag)>)
    requires Clean(tags) && (c.Some? ==> c.value.0 < |tags|)
    ensures Clean(Changed(tags, c)) <==> c.None? || c.value.1.kind !in {L.Gone, L.Baby} || !c.value.1.killed
  {
    if c.Some? { assert Changed(tags, c)[c.value.0] == c.value.1; }
  }

  lemma ChangeMarks(s: Sys, v: Step)
    requires SysInv(s) && Enabled(s, v) && Clean(Tags(s.sched.procs))
    ensures var c := Change(s, v);
            && (c.Some? ==> c.value.0 < |s.sched.procs|)
            && (c.Some? && c.value.1.kind in {L.Gone, L.Baby} && c.value.1.killed <==> MarksFree(s, v))
  {
    if v.Adopt? {
      CoreAt(s, v.p);
      assert Tags(s.sched.procs)[s.sched.procs[v.p].doing.slot].kind == L.Baby;
    }
    hide SysInv, Ok, UsersTo;
    var c := Change(s, v);
    if c.Some? { assert Tags(s.sched.procs)[c.value.0] == TagOf(s.sched.procs[c.value.0]); }
  }

  predicate MarksFree(s: Sys, v: Step) {
    v.Kill? &&
    var r := FindPid(s.sched.procs, v.pid, 0);
    r.Some? && s.sched.procs[r.value].state in {Unused, Embryo}
  }

  predicate NeverMarksFree(s: Sys, vs: seq<Step>)
    requires Possible(s, vs)
    decreases |vs|
  {
    vs == [] || (!MarksFree(s, vs[0]) && NeverMarksFree(Apply(s, vs[0]), vs[1..]))
  }

  /** Over any run: as long as kill is called only with ids of processes that are past their birth,
      or of none at all, nobody is born marked. */
  lemma {:induction false} BornClean(s: Sys, vs: seq<Step>)
    requires SysInv(s) && Clean(Tags(s.sched.procs)) && Possible(s, vs) && NeverMarksFree(s, vs)
    ensures Clean(Tags(Run(s, vs).sched.procs))
    decreases |vs|
  {
    hide SysInv, Clean, Apply, Enabled, Tags, MarksFree;
    if vs != [] {
      StepKeeps(s, vs[0]);
      CleanExact(s, vs[0]);
      BornClean(Apply(s, vs[0]), vs[1..]);
    }
  }

  /** A fork from start to end, by a process that is alone in its space. */
  function WholeFork(p: nat): seq<Step> {
    [StartFork(p, true), Adopt(p, true), Launch(p)]
  }

  /** The child has the mark that its slot had. */
  lemma BirthMark(s: Sys, p: nat)
    requires SysInv(s) && May(s, p, Free) && FirstUnused(s.sched.procs, 0).Some?
    requires UsersTo(s.sched.procs, s.sched.procs[p].pgdir, |s.sched.procs|) == 1
    ensures Possible(s, WholeFork(p))
    ensures var np := FirstUnused(s.sched.procs, 0).value;
            |Run(s, WholeFork(p)).sched.procs| == |s.sched.procs| &&
            TagOf(Run(s, WholeFork(p)).sched.procs[np]) == Tag(s.nextpid, L.Live, s.sched.procs[np].killed)
  {
    hide SysInv, Inv, L.Inv, UsersTo, FirstUnused, LaunchChild, Tags, Possible, Run;
    var np := FirstUnused(s.sched.procs, 0).value;
    var t := ForkStarted(s, p);
    SysOk(t);
    var u := Apply(t, Adopt(p, true));
    StepKeeps(t, Adopt(p, true));
    SysOk(u);
    LaunchTags(u, p);
    var w := Apply(u, Launch(p));
    TagAt(u, w, np);
    ThreeSteps(s, StartFork(p, true), Adopt(p, true), Launch(p));
  }

  lemma ThreeSteps(s: Sys, a: Step, b: Step, c: Step)
    requires Enabled(s, a) && Enabled(Apply(s, a), b) && Enabled(Apply(Apply(s, a), b), c)
    ensures Possible(s, [a, b, c]) && Run(s, [a, b, c]) == Apply(Apply(Apply(s, a), b), c)
  {
    TwoSteps(Apply(s, a), b, c);
    hide Enabled, Apply;
    assert [a, b, c][1..] == [b, c];
  }

  lemma ForkStarted(s: Sys, p: nat) returns (t: Sys)
    requires SysInv(s) && May(s, p, Free) && FirstUnused(s.sched.procs, 0).Some?
    requires UsersTo(s.sched.procs, s.sched.procs[p].pgdir, |s.sched.procs|) == 1
    ensures Enabled(s, StartFork(p, true)) && t == Apply(s, StartFork(p, true)) && SysInv(t)
    ensures var np := FirstUnused(s.sched.procs, 0).value;
            && |t.sched.procs| == |s.sched.procs| && p < |t.sched.procs| && p != np
            && t.sched.procs[p].state == Running && t.sched.procs[p].doing == Child(np, false)
            && TagOf(t.sched.procs[np]) == Tag(s.nextpid, L.Baby, s.sched.procs[np].killed)
  {
    hide SysInv, UsersTo, FirstUnused;
    SysOk(s);
    t := Apply(s, StartFork(p, true));
    StepKeeps(s, StartFork(p, true));
  }

  lemma SysOk(s: Sys)
    requires SysInv(s)
    ensures Ok(s.sched)
  {
    OkInv(s.sched);
  }

  lemma TagAt(u: Sys, w: Sys, np: nat)
    requires np < |u.sched.procs|
    requires Tags(w.sched.procs) == Tags(u.sched.procs)[np := TagOf(u.sched.procs[np]).(kind := L.Live)]
    ensures |w.sched.procs| == |u.sched.procs| && TagOf(w.sched.procs[np]) == TagOf(u.sched.procs[np]).(kind := L.Live)
  {
    assert Tags(w.sched.procs)[np] == TagOf(w.sched.procs[np]);
  }

  /** kill(0) while a slot is free, and a fork: the child is marked, though no kill named it. */
  lemma BornKilled()
    ensures Possible(Start(2, 1), [Kill(0), Pick(0)])
    ensures var s := Run(Start(2, 1), [Kill(0), Pick(0)]);
            && Possible(s, WholeFork(0))
            && var x := Run(s, WholeFork(0)).sched.procs; |x| == 2 && TagOf(x[1]) == Tag(2, L.Live, true)
  {
    hide Possible, Run;
    var s := MarkedStart();
    BirthMark(s, 0);
    TwoSteps(Start(2, 1), Kill(0), Pick(0));
  }

  lemma TwoSteps(s: Sys, a: Step, b: Step)
    requires Enabled(s, a) && Enabled(Apply(s, a), b)
    ensures Possible(s, [a, b]) && Run(s, [a, b]) == Apply(Apply(s, a), b)
  {
    hide Enabled, Apply;
    OneStep(Apply(s, a), b);
    assert [a, b][1..] == [b];
  }

  lemma OneStep(s: Sys, a: Step)
    requires Enabled(s, a)
    ensures Possible(s, [a]) && Run(s, [a]) == Apply(s, a)
  {
    hide Enabled, Apply;
    assert [a][1..] == [];
    assert Possible(Apply(s, a), []) && Run(Apply(s, a), []) == Apply(s, a);
  }

  lemma MarkedStart() returns (s: Sys)
    ensures Enabled(Start(2, 1), Kill(0)) && Enabled(Apply(Start(2, 1), Kill(0)), Pick(0))
    ensures s == Apply(Apply(Start(2, 1), Kill(0)), Pick(0)) && SysInv(s) && |s.sched.procs| == 2 && s.nextpid == 2
    ensures May(s, 0, Free) && FirstUnused(s.sched.procs, 0) == Some(1) && s.sched.procs[1].killed
    ensures UsersTo(s.sched.procs, s.sched.procs[0].pgdir, 2) == 1
  {
    var t := KillsFree();
    hide SysInv, Start;
    HeadFirst(t.sched);
    SysOk(t);
    StepKeeps(t, Pick(0));
    s := Apply(t, Pick(0));
  }

  lemma HeadFirst(s: Sched)
    requires Shape(s) && |s.queues| == 1
    requires forall l: nat :: l < NPRIO ==> s.queues[0][l] == if l == NPRIO / 2 then [0] else []
    ensures FirstLevel(s, 0, 0) == Some(NPRIO / 2)
  {
    assert s.queues[0][NPRIO / 2] != [];
  }

  lemma KillsFree() returns (t: Sys)
    ensures Enabled(Start(2, 1), Kill(0)) && t == Apply(Start(2, 1), Kill(0)) && SysInv(t) && Shape(t.sched) && t.nextpid == 2
    ensures |t.sched.queues| == 1 && forall l: nat :: l < NPRIO ==> t.sched.queues[0][l] == if l == NPRIO / 2 then [0] else []
    ensures var first := Start(2, 1).sched.procs[0];
            t.sched.procs == [first, BLANK.(killed := true)] && first.state == Runnable && first.doing == Free && first.pgdir == Some(0)
  {
    StartInv(2, 1);
    var a := Start(2, 1);
    SysOk(a);
    hide SysInv;
    StepKeeps(a, Kill(0));
    t := Apply(a, Kill(0));
    assert FindPid(a.sched.procs, 0, 0) == Some(1);
  }
}
