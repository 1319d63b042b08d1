/** rq_age and what it is for: a stable merge of each level with the boosted part of the next,
    and with it a bound on how long a queued process can be passed over. */
module Aging {
  import opened Params
  import opened Options
  import opened Scheduler

  predicate Boosted(x: Proc, elapsed: nat) {
    x.waited + elapsed >= AGING_TICKS && x.prio > 0
  }

  function Aged(x: Proc, elapsed: nat): Proc {
    if Boosted(x, elapsed) then x.(prio := x.prio - 1, waited := 0) else x.(waited := x.waited + elapsed)
  }

  /** Those of a queue that are not boosted, and those that are, in their order. */
  function Stay(procs: seq<Proc>, q: seq<nat>, elapsed: nat): seq<nat> {
    if q == [] then []
    else if q[0] < |procs| && Boosted(procs[q[0]], elapsed) then Stay(procs, q[1..], elapsed)
    else [q[0]] + Stay(procs, q[1..], elapsed)
  }

  function Rise(procs: seq<Proc>, q: seq<nat>, elapsed: nat): seq<nat> {
    if q == [] then []
    else if q[0] < |procs| && Boosted(procs[q[0]], elapsed) then [q[0]] + Rise(procs, q[1..], elapsed)
    else Rise(procs, q[1..], elapsed)
  }

  /** Level `l` after the pass: its own unboosted members, then the boosted ones of the next level. */
  function Merged(procs: seq<Proc>, qs: seq<seq<nat>>, elapsed: nat, l: nat): seq<nat>
    requires l < |qs|
  {
    Stay(procs, qs[l], elapsed) + if l + 1 < |qs| then Rise(procs, qs[l + 1], elapsed) else []
  }

  function AgedIn(procs: seq<Proc>, c: nat, elapsed: nat): (r: seq<Proc>)
    ensures |r| == |procs|
    ensures forall p :: 0 <= p < |procs| ==>
              r[p] == if procs[p].state == Runnable && procs[p].rqcpu == c then Aged(procs[p], elapsed) else procs[p]
  {
    seq(|procs|, p requires 0 <= p < |procs| =>
      if procs[p].state == Runnable && procs[p].rqcpu == c then Aged(procs[p], elapsed) else procs[p])
  }

  function AgeCpu(s: Sched, c: nat, elapsed: nat): (t: Sched)
    requires Shape(s) && c < |s.queues|
    ensures Shape(t) && |t.queues| == |s.queues| && |t.procs| == |s.procs|
  {
    var qs := s.queues[c];
    Sched(AgedIn(s.procs, c, elapsed),
          s.queues[c := seq(NPRIO, l requires 0 <= l < NPRIO => Merged(s.procs, qs, elapsed, l))])
  }

  /** The pass over the CPUs before `n`. */
  function AgeTo(s: Sched, n: nat, elapsed: nat): (t: Sched)
    requires Shape(s) && n <= |s.queues|
    ensures Shape(t) && |t.queues| == |s.queues| && |t.procs| == |s.procs|
  {
    if n == 0 then s else AgeCpu(AgeTo(s, n - 1, elapsed), n - 1, elapsed)
  }

  function Age(s: Sched, elapsed: nat): Sched
    requires Shape(s)
  {
    AgeTo(s, |s.queues|, elapsed)
  }

  // ------------------------------------------------------------ no process is lost or moved

  lemma {:induction false} StayHas(procs: seq<Proc>, q: seq<nat>, e: nat)
    ensures forall p: nat :: p in Stay(procs, q, e) <==> p in q && !(p < |procs| && Boosted(procs[p], e))
    ensures Distinct(q) ==> Distinct(Stay(procs, q, e))
  {
    if q != [] {
      StayHas(procs, q[1..], e);
      assert q == [q[0]] + q[1..];
    }
  }

  lemma {:induction false} RiseHas(procs: seq<Proc>, q: seq<nat>, e: nat)
    ensures forall p: nat :: p in Rise(procs, q, e) <==> p in q && p < |procs| && Boosted(procs[p], e)
    ensures Distinct(q) ==> Distinct(Rise(procs, q, e))
  {
    if q != [] {
      RiseHas(procs, q[1..], e);
      assert q == [q[0]] + q[1..];
    }
  }

  lemma MergedLists(s: Sched, c: nat, e: nat, l: nat)
    requires Inv(s) && c < |s.queues| && l < NPRIO
    ensures Lists(AgedIn(s.procs, c, e), Merged(s.procs, s.queues[c], e, l), c, l)
  {
    var qs := s.queues[c];
    assert Lists(s.procs, qs[l], c, l);
    StayHas(s.procs, qs[l], e);
    if l + 1 < NPRIO {
      assert Lists(s.procs, qs[l + 1], c, l + 1);
      RiseHas(s.procs, qs[l + 1], e);
      forall p: nat | p in Stay(s.procs, qs[l], e) ensures p !in Rise(s.procs, qs[l + 1], e) {
        assert p in qs[l] && s.procs[p].prio == l;
      }
      DistinctJoin(Stay(s.procs, qs[l], e), Rise(s.procs, qs[l + 1], e));
    }
  }

  lemma DistinctJoin(a: seq<nat>, b: seq<nat>)
    requires Distinct(a) && Distinct(b) && forall p: nat :: p in a ==> p !in b
    ensures Distinct(a + b)
  {
    forall i, j | 0 <= i < j < |a + b| ensures (a + b)[i] != (a + b)[j] {
      assert i < |a| ==> (a + b)[i] in a;
      assert j >= |a| ==> (a + b)[j] in b;
    }
  }

  lemma OtherCpuLists(s: Sched, c: nat, e: nat, d: nat, l: nat)
    requires Inv(s) && c < |s.queues| && d < |s.queues| && d != c && l < NPRIO
    ensures Lists(AgedIn(s.procs, c, e), s.queues[d][l], d, l)
  {
    assert Lists(s.procs, s.queues[d][l], d, l);
  }

  lemma AgeCpuKeeps(s: Sched, c: nat, e: nat)
    requires Inv(s) && c < |s.queues|
    ensures Inv(AgeCpu(s, c, e))
  {
    hide Lists, Merged;
    var t := AgeCpu(s, c, e);
    forall d: nat, l: nat | d < |t.queues| && l < NPRIO ensures Lists(t.procs, t.queues[d][l], d, l) {
      if d == c { MergedLists(s, c, e, l); } else { OtherCpuLists(s, c, e, d, l); }
    }
  }

  lemma {:induction false} AgeKeeps(s: Sched, n: nat, e: nat)
    requires Inv(s) && n <= |s.queues|
    ensures Inv(AgeTo(s, n, e))
  {
    hide Lists, Shape, AgeCpu, ProcOk;
    if n > 0 {
      AgeKeeps(s, n - 1, e);
      AgeCpuKeeps(AgeTo(s, n - 1, e), n - 1, e);
    }
  }

  /** A whole pass ages every queued process of the CPUs before `n` once and touches nothing else. */
  lemma {:induction false} AgeProc(s: Sched, n: nat, e: nat, p: nat)
    requires Shape(s) && n <= |s.queues| && p < |s.procs|
    ensures AgeTo(s, n, e).procs[p] == if s.procs[p].state == Runnable && s.procs[p].rqcpu < n then Aged(s.procs[p], e) else s.procs[p]
  {
    if n > 0 { AgeProc(s, n - 1, e, p); }
  }

  lemma {:induction false} AgeQueue(s: Sched, n: nat, e: nat, c: nat)
    requires Inv(s) && c < n <= |s.queues|
    ensures forall l: nat :: l < NPRIO ==> AgeTo(s, n, e).queues[c][l] == Merged(s.procs, s.queues[c], e, l)
  {
    if c < n - 1 {
      AgeQueue(s, n - 1, e, c);
    } else {
      AgeUntouched(s, n - 1, e, c);
      var t := AgeTo(s, n - 1, e);
      forall l: nat | l < NPRIO ensures Merged(t.procs, t.queues[c], e, l) == Merged(s.procs, s.queues[c], e, l) {
        assert Lists(s.procs, s.queues[c][l], c, l);
        SameSplit(s.procs, t.procs, s.queues[c][l], e);
        if l + 1 < NPRIO {
          assert Lists(s.procs, s.queues[c][l + 1], c, l + 1);
          SameSplit(s.procs, t.procs, s.queues[c][l + 1], e);
        }
      }
    }
  }

  lemma {:induction false} AgeUntouched(s: Sched, n: nat, e: nat, c: nat)
    requires Shape(s) && n <= c < |s.queues|
    ensures AgeTo(s, n, e).queues[c] == s.queues[c]
    ensures forall p :: 0 <= p < |s.procs| && s.procs[p].rqcpu == c ==> AgeTo(s, n, e).procs[p] == s.procs[p]
  {
    if n > 0 { AgeUntouched(s, n - 1, e, c); }
  }

  lemma {:induction false} SameSplit(a: seq<Proc>, b: seq<Proc>, q: seq<nat>, e: nat)
    requires |a| == |b| && forall p: nat :: p in q && p < |a| ==> a[p] == b[p]
    ensures Stay(a, q, e) == Stay(b, q, e) && Rise(a, q, e) == Rise(b, q, e)
  {
    if q != [] { SameSplit(a, b, q[1..], e); }
  }

  // ------------------------------------------------------------ no starvation

  function CeilDiv(a: nat, b: nat): nat
    requires b > 0
  {
    (a + b - 1) / b
  }

  lemma Ceil(a: nat, b: nat)
    requires b > 0
    ensures a <= CeilDiv(a, b) * b < a + b
  {
    var x := a + b - 1;
    assert x == x / b * b + x % b;
  }

  lemma CeilGrows(a: nat, c: nat, b: nat)
    requires b > 0
    ensures a <= c ==> CeilDiv(a, b) <= CeilDiv(c, b)
    ensures a + b <= c ==> CeilDiv(a, b) < CeilDiv(c, b)
    ensures a > 0 ==> CeilDiv(a, b) > 0
  {
    Ceil(a, b);
    Ceil(c, b);
    hide CeilDiv;
    var p, q := CeilDiv(a, b), CeilDiv(c, b);
    if p > q { Multiply(q + 1, p, b); Multiply(q, q + 1, b); }
    if p >= q { Multiply(q, p, b); }
  }

  function Times(n: nat, m: nat): nat {
    n * m
  }

  lemma Multiply(p: nat, q: nat, b: nat)
    requires p <= q
    ensures p * b <= q * b && (p + 1) * b == p * b + b
  {
  }

  /** Passes that take a process one level up from scratch. */
  const PASSES: nat := CeilDiv(AGING_TICKS, AGING_INTERVAL)

  /** Passes until a queued process has reached level 0. */
  function Remaining(x: Proc): nat {
    if x.prio == 0 || x.waited >= AGING_TICKS then 0
    else Times(x.prio - 1, PASSES) + CeilDiv(AGING_TICKS - x.waited, AGING_INTERVAL)
  }

  lemma RemainingAtMost(x: Proc, ncpu: nat)
    requires ProcOk(x, ncpu)
    ensures Remaining(x) <= x.prio * PASSES
    ensures Remaining(x) == 0 <==> x.prio == 0
  {
    hide CeilDiv;
    if x.prio > 0 {
      CeilGrows(AGING_TICKS - x.waited, AGING_TICKS, AGING_INTERVAL);
      Multiply(x.prio - 1, x.prio, PASSES);
    }
  }

  /** Each pass brings a queued process closer to level 0. */
  lemma AgedCloser(x: Proc, e: nat, ncpu: nat)
    requires ProcOk(x, ncpu) && e >= AGING_INTERVAL
    ensures x.prio > 0 ==> Remaining(Aged(x, e)) < Remaining(x)
    ensures x.prio == 0 ==> Remaining(Aged(x, e)) == 0 && Aged(x, e).prio == 0
  {
    hide CeilDiv;
    if x.prio > 0 {
      CeilGrows(AGING_TICKS - x.waited, AGING_TICKS, AGING_INTERVAL);
      if x.waited + e < AGING_TICKS {
        CeilGrows(AGING_TICKS - x.waited - e, AGING_TICKS - x.waited, AGING_INTERVAL);
      } else if x.prio > 1 {
        Multiply(x.prio - 2, x.prio - 1, PASSES);
      }
    }
  }

  function Index(q: seq<nat>, p: nat): (i: nat)
    requires p in q
    ensures i < |q| && q[i] == p && p !in q[..i]
  {
    if q[0] == p then 0 else 1 + Index(q[1..], p)
  }

  lemma IndexIs(q: seq<nat>, p: nat, i: nat)
    requires Distinct(q) && i < |q| && q[i] == p
    ensures Index(q, p) == i
  {
  }

  /** Nobody at level 0 is boosted, so the pass only appends there. */
  lemma {:induction false} LevelZeroStays(procs: seq<Proc>, q: seq<nat>, e: nat)
    requires forall p: nat :: p in q ==> p < |procs| && procs[p].prio == 0
    ensures Stay(procs, q, e) == q
  {
    if q != [] {
      assert q == [q[0]] + q[1..];
      assert q[0] in q;
      assert forall p: nat :: p in q[1..] ==> p in q;
      LevelZeroStays(procs, q[1..], e);
    }
  }

  /** How many are ahead of a queued process in its queue. */
  ghost function Ahead(s: Sched, p: nat): nat
    requires Inv(s) && p < |s.procs| && s.procs[p].state == Runnable
  {
    var c, l := s.procs[p].rqcpu, s.procs[p].prio;
    assert Lists(s.procs, s.queues[c][l], c, l);
    Index(s.queues[c][l], p)
  }

  /** After the pass a level-0 process has as many ahead of it as before. */
  lemma AgeAhead(s: Sched, e: nat, p: nat)
    requires Inv(s) && p < |s.procs| && s.procs[p].state == Runnable && s.procs[p].prio == 0
    ensures Inv(Age(s, e)) && Age(s, e).procs[p] == Aged(s.procs[p], e)
    ensures Ahead(Age(s, e), p) == Ahead(s, p)
  {
    var n, t, c := |s.queues|, Age(s, e), s.procs[p].rqcpu;
    AgeKeeps(s, n, e);
    AgeProc(s, n, e, p);
    AgeQueue(s, n, e, c);
    var q := s.queues[c][0];
    assert Lists(s.procs, q, c, 0);
    assert Lists(t.procs, t.queues[c][0], c, 0);
    LevelZeroStays(s.procs, q, e);
    assert t.queues[c][0][..|q|] == q;
    IndexIs(t.queues[c][0], p, Index(q, p));
  }
}
