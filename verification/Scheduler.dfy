/** proc.c's per-CPU run queues with aging, on values: a queue is the sequence of the processes
    it links, first to be picked first. */
module Scheduler {
  import opened Params
  import opened Options

  datatype PState = Unused | Embryo | Sleeping | Runnable | Running | Zombie

  /** What a process sleeps on: a kernel object or a word of physical memory. */
  datatype Chan = Nothing | OfProc(slot: nat) | Kernel(id: nat) | Word(pa: nat)

  /** What a process is in the middle of, between two critical sections of one system call. */
  datatype Doing = Free | Child(slot: nat, shared: bool) | Ready(slot: nat) | Exec(image: Option<nat>)

  datatype Proc = Proc(state: PState, pid: nat, parent: Option<nat>, chan: Chan, killed: bool,
                       base: nat, prio: nat, slice: nat, waited: nat, rqcpu: nat,
                       thread: bool, pgdir: Option<nat>, doing: Doing)

  datatype Sched = Sched(procs: seq<Proc>, queues: seq<seq<seq<nat>>>)

  function Quantum(prio: nat): nat
    requires prio < NPRIO
  {
    QUANTUM_BASE * (NPRIO - prio)
  }

  // ------------------------------------------------------------ agreement

  predicate Runs(p: Proc, c: nat, l: nat) {
    p.state == Runnable && p.rqcpu == c && p.prio == l
  }

  predicate Shape(s: Sched) {
    && |s.queues| > 0
    && (forall c :: 0 <= c < |s.queues| ==> |s.queues[c]| == NPRIO)
  }

  predicate ProcOk(p: Proc, ncpu: nat) {
    && p.prio < NPRIO && p.base < NPRIO && p.rqcpu < ncpu
    && (p.state != Runnable ==> p.waited == 0)
    && (p.prio > 0 ==> p.waited < AGING_TICKS)
  }

  predicate Distinct(q: seq<nat>) {
    forall i, j :: 0 <= i < j < |q| ==> q[i] != q[j]
  }

  /** Queue `l` of CPU `c` lists exactly the runnable processes of that CPU and level, once each. */
  ghost predicate Lists(procs: seq<Proc>, q: seq<nat>, c: nat, l: nat) {
    && Distinct(q)
    && (forall p: nat :: p in q <==> p < |procs| && Runs(procs[p], c, l))
  }

  ghost predicate Inv(s: Sched) {
    && Shape(s)
    && (forall p :: 0 <= p < |s.procs| ==> ProcOk(s.procs[p], |s.queues|))
    && (forall c: nat, l: nat :: c < |s.queues| && l < NPRIO ==> Lists(s.procs, s.queues[c][l], c, l))
  }

  // ------------------------------------------------------------ operations

  function SetQueue(s: Sched, c: nat, l: nat, q: seq<nat>): Sched
    requires Shape(s) && c < |s.queues| && l < NPRIO
    ensures Shape(SetQueue(s, c, l, q))
  {
    s.(queues := s.queues[c := s.queues[c][l := q]])
  }

  function SetProc(s: Sched, p: nat, x: Proc): Sched
    requires p < |s.procs|
  {
    s.(procs := s.procs[p := x])
  }

  /** A process becomes runnable and joins the back of its level's queue on CPU `c`. */
  function Enqueue(s: Sched, p: nat, c: nat): Sched
    requires Shape(s) && p < |s.procs| && s.procs[p].prio < NPRIO && c < |s.queues|
    ensures Shape(Enqueue(s, p, c)) && |Enqueue(s, p, c).procs| == |s.procs| && |Enqueue(s, p, c).queues| == |s.queues|
  {
    var l := s.procs[p].prio;
    SetQueue(SetProc(s, p, s.procs[p].(state := Runnable, rqcpu := c)), c, l, s.queues[c][l] + [p])
  }

  /** The first level at or after `l` with someone in it. */
  function FirstLevel(s: Sched, c: nat, l: nat): (r: Option<nat>)
    requires Shape(s) && c < |s.queues| && l <= NPRIO
    ensures r.Some? ==> l <= r.value < NPRIO && s.queues[c][r.value] != []
    ensures forall k :: l <= k < (if r.Some? then r.value else NPRIO) ==> s.queues[c][k] == []
    decreases NPRIO - l
  {
    if l == NPRIO then None else if s.queues[c][l] != [] then Some(l) else FirstLevel(s, c, l + 1)
  }

  function Load(qs: seq<seq<nat>>): nat {
    if qs == [] then 0 else |qs[0]| + Load(qs[1..])
  }

  lemma {:induction false} NoLoad(qs: seq<seq<nat>>)
    requires forall l :: 0 <= l < |qs| ==> qs[l] == []
    ensures Load(qs) == 0
  {
    if qs != [] { NoLoad(qs[1..]); }
  }

  /** The least loaded of the CPUs before `n`, the first of them if there are several. */
  function LeastLoaded(s: Sched, n: nat): (r: nat)
    requires Shape(s) && 0 < n <= |s.queues|
    ensures r < n
    ensures forall c :: 0 <= c < n ==> Load(s.queues[r]) <= Load(s.queues[c])
    ensures forall c :: 0 <= c < r ==> Load(s.queues[r]) < Load(s.queues[c])
  {
    if n == 1 then 0
    else
      var b := LeastLoaded(s, n - 1);
      if Load(s.queues[n - 1]) < Load(s.queues[b]) then n - 1 else b
  }

  /** Among the CPUs before `n` other than `self`, the first with the most processes, if that is
      more than one. */
  function Victim(s: Sched, self: nat, n: nat): (r: Option<nat>)
    requires Shape(s) && n <= |s.queues|
    ensures r.Some? ==> r.value < n && r.value != self && Load(s.queues[r.value]) > 1
    ensures r.Some? ==> forall c :: 0 <= c < n && c != self ==> Load(s.queues[c]) <= Load(s.queues[r.value])
    ensures r.Some? ==> forall c :: 0 <= c < r.value && c != self ==> Load(s.queues[c]) < Load(s.queues[r.value])
    ensures r.None? ==> forall c :: 0 <= c < n && c != self ==> Load(s.queues[c]) <= 1
  {
    if n == 0 then None
    else
      var b := Victim(s, self, n - 1);
      if n - 1 != self && Load(s.queues[n - 1]) > (if b.Some? then Load(s.queues[b.value]) else 1) then Some(n - 1) else b
  }

  /** The CPU that `self` takes its next process from: its own, else one it may steal from. */
  function Source(s: Sched, self: nat): (r: Option<nat>)
    requires Shape(s) && self < |s.queues|
    ensures r.Some? ==> r.value < |s.queues|
  {
    if FirstLevel(s, self, 0).Some? then Some(self) else Victim(s, self, |s.queues|)
  }

  /** The scheduler's pick: the head of the best level of its source starts to run on `self`. */
  function Dispatch(s: Sched, self: nat): (r: (Sched, Option<nat>))
    requires Shape(s) && self < |s.queues|
    requires forall c, l :: 0 <= c < |s.queues| && 0 <= l < NPRIO && s.queues[c][l] != [] ==> s.queues[c][l][0] < |s.procs|
    ensures r.1.Some? ==> r.1.value < |s.procs|
  {
    var src := Source(s, self);
    if src.None? then (s, None)
    else
      var l := FirstLevel(s, src.value, 0);
      if l.None? then (s, None)
      else
        var q := s.queues[src.value][l.value];
        (Take(s, src.value, l.value, self), Some(q[0]))
  }

  function Take(s: Sched, c: nat, l: nat, self: nat): Sched
    requires Shape(s) && c < |s.queues| && l < NPRIO && s.queues[c][l] != [] && s.queues[c][l][0] < |s.procs|
  {
    var p := s.queues[c][l][0];
    SetQueue(SetProc(s, p, Started(s.procs[p], self)), c, l, s.queues[c][l][1..])
  }

  function Started(x: Proc, self: nat): Proc {
    x.(state := Running, rqcpu := self, prio := x.base, waited := 0, slice := if x.base < NPRIO then Quantum(x.base) else 0)
  }

  // ------------------------------------------------------------ agreement is kept

  /** A process that is in no queue before or after may change otherwise. */
  lemma SetKeeps(s: Sched, p: nat, x: Proc)
    requires Inv(s) && p < |s.procs| && s.procs[p].state != Runnable && x.state != Runnable && ProcOk(x, |s.queues|)
    ensures Inv(SetProc(s, p, x))
  {
    var t := SetProc(s, p, x);
    forall c: nat, l: nat | c < |s.queues| && l < NPRIO ensures Lists(t.procs, t.queues[c][l], c, l) {
      assert Lists(s.procs, s.queues[c][l], c, l);
    }
  }

  lemma EnqueueKeeps(s: Sched, p: nat, c: nat)
    requires Inv(s) && p < |s.procs| && s.procs[p].state != Runnable && c < |s.queues|
    ensures Inv(Enqueue(s, p, c))
  {
    var t, l := Enqueue(s, p, c), s.procs[p].prio;
    forall d: nat, m: nat | d < |s.queues| && m < NPRIO ensures Lists(t.procs, t.queues[d][m], d, m) {
      assert Lists(s.procs, s.queues[d][m], d, m);
      if d == c && m == l { assert t.queues[d][m] == s.queues[d][m] + [p]; } else { assert t.queues[d][m] == s.queues[d][m]; }
    }
  }

  lemma TakeKeeps(s: Sched, c: nat, l: nat, self: nat)
    requires Inv(s) && c < |s.queues| && l < NPRIO && s.queues[c][l] != [] && self < |s.queues|
    ensures s.queues[c][l][0] < |s.procs| && s.procs[s.queues[c][l][0]].state == Runnable
    ensures Inv(Take(s, c, l, self))
  {
    var q := s.queues[c][l];
    assert Lists(s.procs, q, c, l);
    assert q[0] in q;
    var t := Take(s, c, l, self);
    forall d: nat, m: nat | d < |s.queues| && m < NPRIO ensures Lists(t.procs, t.queues[d][m], d, m) {
      assert Lists(s.procs, s.queues[d][m], d, m);
      if d == c && m == l {
        assert t.queues[d][m] == q[1..] && q == [q[0]] + q[1..];
        forall p: nat ensures p in q[1..] <==> p in q && p != q[0] {
          assert p in q <==> p == q[0] || p in q[1..];
        }
      } else {
        assert t.queues[d][m] == s.queues[d][m];
      }
    }
  }

  lemma HeadsOk(s: Sched)
    requires Inv(s)
    ensures forall c, l :: 0 <= c < |s.queues| && 0 <= l < NPRIO && s.queues[c][l] != [] ==> s.queues[c][l][0] < |s.procs|
  {
    forall c: nat, l: nat | c < |s.queues| && l < NPRIO && s.queues[c][l] != [] ensures s.queues[c][l][0] < |s.procs| {
      assert Lists(s.procs, s.queues[c][l], c, l);
      assert s.queues[c][l][0] in s.queues[c][l];
    }
  }

  /** Whatever is picked was runnable, so the panic in scheduler cannot happen. */
  lemma DispatchKeeps(s: Sched, self: nat)
    requires Inv(s) && self < |s.queues|
    ensures forall c, l :: 0 <= c < |s.queues| && 0 <= l < NPRIO && s.queues[c][l] != [] ==> s.queues[c][l][0] < |s.procs|
    ensures var (t, r) := Dispatch(s, self);
            && Inv(t) && |t.procs| == |s.procs| && |t.queues| == |s.queues|
            && (r.Some? ==> s.procs[r.value].state == Runnable && t.procs[r.value].state == Running)
  {
    hide Lists;
    HeadsOk(s);
    var src := Source(s, self);
    if src.Some? && FirstLevel(s, src.value, 0).Some? {
      TakeKeeps(s, src.value, FirstLevel(s, src.value, 0).value, self);
    }
  }

  lemma {:induction false} DistinctBound(q: seq<nat>, n: nat)
    requires Distinct(q) && forall i :: 0 <= i < |q| ==> q[i] < n
    ensures |q| <= n
    decreases n
  {
    if q == [] {
    } else if q[0] < n && n - 1 in q {
      var i :| 0 <= i < |q| && q[i] == n - 1;
      var r := q[..i] + q[i + 1..];
      forall k | 0 <= k < |r| ensures r[k] < n - 1 {
        assert r[k] == q[if k < i then k else k + 1];
      }
      DistinctBound(r, n - 1);
    } else {
      assert q[0] < n;
      DistinctBound(q, n - 1);
    }
  }
}
