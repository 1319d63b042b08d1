/** proc.c in its own form: the process table and the linked run queues, updated in place. */
module ProcFile {
  import opened Params
  import opened Options
  import opened Scheduler
  import opened Aging
  import opened RunQueues
  import opened ProcTable
  import opened ProcRuns
  import opened ProcEffects
  import P = ProcTheorem

  class Ptable {
    const nproc: nat
    const ncpu: nat
    const procs: array<Proc>
    const rqnext: array<int>
    const head: array2<int>
    const tail: array2<int>
    const nready: array<int>
    var lastAged: nat
    var nextpid: nat
    const init: nat
    ghost var queues: seq<seq<seq<nat>>>
    ghost var dirs: set<nat>
    var nextdir: nat  // page directories are numbered in the order they are made

    ghost function S(): Sched
      reads this`queues, procs
    {
      Sched(procs[..], queues)
    }

    ghost function Y(): Sys
      reads this, procs
    {
      Sys(S(), init, nextpid, dirs, nextdir, lastAged)
    }

    ghost predicate Sized()
      reads this`queues
    {
      && procs.Length == nproc && rqnext.Length == nproc && nready.Length == ncpu && rqnext != nready
      && head.Length0 == ncpu && head.Length1 == NPRIO && tail.Length0 == ncpu && tail.Length1 == NPRIO && head != tail
      && Shape(Sched([], queues)) && |queues| == ncpu
    }

    ghost predicate QueueOk(c: nat, l: nat)
      requires Sized() && c < ncpu && l < NPRIO
      reads this`queues, procs, rqnext, head, tail
    {
      Linked(queues[c][l], head[c, l], tail[c, l], rqnext[..]) && Placed(procs[..], queues[c][l], c, l)
    }

    ghost predicate Wired()
      reads this`queues, procs, rqnext, head, tail, nready
    {
      && Sized()
      && (forall c: nat, l: nat :: c < ncpu && l < NPRIO ==> QueueOk(c, l))
      && (forall c :: 0 <= c < ncpu ==> nready[c] == Load(queues[c]))
    }

    ghost predicate Unqueued(p: nat)
      requires Sized()
      reads this`queues
    {
      forall c: nat, l: nat :: c < ncpu && l < NPRIO ==> p !in queues[c][l]
    }

    /** Before userinit: nobody is there. */
    ghost predicate Blank()
      reads this, procs
    {
      && Y().init == 0 && nextpid == 1 && dirs == {} && nextdir == 0 && lastAged == 0
      && (forall p :: 0 <= p < procs.Length ==> procs[p] == P.BLANK)
      && (forall c: nat, l: nat :: c < |queues| && l < |queues[c]| ==> queues[c][l] == [])
    }

    constructor (nproc: nat, ncpu: nat)
      requires nproc > 0 && ncpu > 0
      ensures Valid() && this.nproc == nproc && this.ncpu == ncpu && Blank()
      ensures fresh(procs) && fresh(rqnext) && fresh(head) && fresh(tail) && fresh(nready)
    {
      this.nproc, this.ncpu, init, lastAged, nextpid, dirs, nextdir := nproc, ncpu, 0, 0, 1, {}, 0;
      procs := new Proc[nproc](_ => P.BLANK);
      rqnext := new int[nproc](_ => NIL);
      head := new int[ncpu, NPRIO]((_, _) => NIL);
      tail := new int[ncpu, NPRIO]((_, _) => NIL);
      nready := new int[ncpu](_ => 0);
      queues := seq(ncpu, _ => seq(NPRIO, _ => []));
      new;
      hide Load;
      assert forall c: nat, l: nat :: c < ncpu && l < NPRIO ==> QueueOk(c, l);
      forall c | 0 <= c < ncpu ensures Load(queues[c]) == 0 {
        NoLoad(queues[c]);
      }
      NobodyThere(S());
    }

    /** rq_push of a process that is in no queue. */
    method RqPush(cpu: nat, p: nat)
      requires Wired() && cpu < ncpu && p < nproc && procs[p].prio < NPRIO && Unqueued(p)
      modifies this`queues, procs, rqnext, head, tail, nready
      ensures Wired() && procs[..] == old(procs[..])[p := old(procs[p]).(rqcpu := cpu)]
      ensures queues == old(queues)[cpu := old(queues)[cpu][old(procs[p]).prio := old(queues)[cpu][old(procs[p]).prio] + [p]]]
    {
      hide Linked, Placed, Distinct, Load;
      var prio := procs[p].prio;
      ghost var q, nx, ps := queues[cpu][prio], rqnext[..], procs[..];
      assert QueueOk(cpu, prio);
      EndIs(q, head[cpu, prio], tail[cpu, prio], nx);
      PlacedAppend(ps, q, cpu, prio, p);
      LinkedAppend(q, head[cpu, prio], tail[cpu, prio], nx, p);
      rqnext[p] := NIL;
      procs[p] := procs[p].(rqcpu := cpu);
      if tail[cpu, prio] != NIL {
        rqnext[tail[cpu, prio]] := p;
      } else {
        head[cpu, prio] := p;
      }
      tail[cpu, prio] := p;
      nready[cpu] := nready[cpu] + 1;
      LoadSet(queues[cpu], prio, q + [p]);
      queues := queues[cpu := queues[cpu][prio := q + [p]]];
      assert rqnext[..] == if q == [] then nx[p := NIL] else nx[p := NIL][q[|q| - 1] := p];
      assert procs[..] == ps[p := ps[p].(rqcpu := cpu)];
      forall c: nat, l: nat | c < ncpu && l < NPRIO ensures QueueOk(c, l) {
        if c != cpu || l != prio {
          assert old(QueueOk(c, l)) && old(Unqueued(p));
          PushOther(ps, q, nx, p, queues[c][l], cpu, prio, c, l, head[c, l], tail[c, l]);
          PlacedOther(ps, queues[c][l], c, l, p, procs[p]);
        }
      }
    }

    /** rq_pop: the head of the first level that has one. */
    method RqPop(cpu: nat) returns (r: Option<nat>)
      requires Wired() && cpu < ncpu
      modifies this`queues, rqnext, head, tail, nready
      ensures Wired()
      ensures var l := FirstLevel(old(S()), cpu, 0);
              if l.None? then r.None? && queues == old(queues)
              else r == Some(old(queues)[cpu][l.value][0]) && r.value < nproc && Unqueued(r.value) &&
                   queues == old(queues)[cpu := old(queues)[cpu][l.value := old(queues)[cpu][l.value][1..]]]
    {
      hide Linked, Placed, Distinct, Load;
      var prio := 0;
      while prio < NPRIO
        invariant 0 <= prio <= NPRIO && Wired() && queues == old(queues) && rqnext[..] == old(rqnext[..])
        invariant FirstLevel(S(), cpu, prio) == FirstLevel(S(), cpu, 0)
      {
        assert QueueOk(cpu, prio);
        EndIs(queues[cpu][prio], head[cpu, prio], tail[cpu, prio], rqnext[..]);
        if head[cpu, prio] != NIL {
          var p := TakeHead(cpu, prio);
          r := Some(p);
          return;
        }
        prio := prio + 1;
      }
      return None;
    }

    /** least_loaded_cpu. */
    method LeastLoadedCpu() returns (best: nat)
      requires Wired() && ncpu > 0
      ensures best == LeastLoaded(S(), ncpu)
    {
      best := 0;
      var bestn := nready[0];
      var i := 1;
      while i < ncpu
        invariant 1 <= i <= ncpu && best == LeastLoaded(S(), i) && bestn == nready[best]
      {
        if nready[i] < bestn {
          bestn := nready[i];
          best := i;
        }
        i := i + 1;
      }
    }

    /** The search of rq_steal. */
    method FindVictim(self: nat) returns (best: int)
      requires Wired()
      ensures Victim(S(), self, ncpu) == if best < 0 then None else Some(best)
    {
      best := -1;
      var bestn := 1;
      var i := 0;
      while i < ncpu
        invariant 0 <= i <= ncpu && -1 <= best < ncpu
        invariant Victim(S(), self, i) == if best < 0 then None else Some(best)
        invariant bestn == if best < 0 then 1 else nready[best]
      {
        if i != self && nready[i] > bestn {
          bestn := nready[i];
          best := i;
        }
        i := i + 1;
      }
    }

    /** The first half of an aging pass over a CPU: its queues are emptied, best level first. */
    method Drain(c: nat) returns (pending: array<nat>, n: nat)
      requires Wired() && c < ncpu
      modifies this`queues, rqnext, head, tail, nready
      ensures Wired() && fresh(pending) && n <= pending.Length && pending[..n] == Flat(old(queues)[c])
      ensures forall l: nat :: l < NPRIO ==> queues[c][l] == []
      ensures forall d :: 0 <= d < ncpu && d != c ==> queues[d] == old(queues)[d]
    {
      hide Linked, Placed, Distinct, Load, QueueOk, Flat;
      ghost var all := Flat(queues[c]);
      FlatFits(c);
      pending := new nat[nproc];
      n := 0;
      var more := true;
      while n < nproc && more
        invariant 0 <= n <= nproc == pending.Length && Wired()
        invariant pending[..n] + Flat(queues[c]) == all
        invariant !more ==> Flat(queues[c]) == []
        invariant forall d :: 0 <= d < ncpu && d != c ==> queues[d] == old(queues)[d]
        decreases nproc - n, more
      {
        ghost var qs, l := queues[c], FirstLevel(S(), c, 0);
        if l.Some? { FlatPop(qs, l.value); } else { FlatNone(qs); }
        var r := RqPop(c);
        if r.Some? {
          pending[n] := r.value;
          n := n + 1;
        } else {
          more := false;
        }
      }
      FlatEmpty(queues[c]);
    }

    lemma FlatFits(c: nat)
      requires Wired() && c < ncpu
      ensures |Flat(queues[c])| <= nproc && Distinct(Flat(queues[c]))
      ensures forall i :: 0 <= i < |Flat(queues[c])| ==> Flat(queues[c])[i] < nproc && procs[Flat(queues[c])[i]].rqcpu == c
      ensures forall m: nat :: m < NPRIO ==> AtLevel(procs[..], queues[c][m], m)
    {
      var qs := queues[c];
      forall m: nat | m < NPRIO ensures Placed(procs[..], qs[m], c, m) {
        assert QueueOk(c, m);
      }
      hide Placed, Flat, Linked, Load, AtLevel;
      FlatDistinct(procs[..], qs, c, 0);
      PlacedLevels(procs[..], qs, c);
      assert qs[0..] == qs;
      DistinctBound(Flat(qs), nproc);
    }

    /** The second half: everybody is aged and pushed back, in the order of the drain. */
    method Refill(c: nat, pending: seq<nat>, elapsed: nat)
      requires Wired() && c < ncpu && Distinct(pending)
      requires forall l: nat :: l < NPRIO ==> queues[c][l] == []
      requires forall i :: 0 <= i < |pending| ==> pending[i] < nproc && Turn(procs[pending[i]], c)
      requires forall i :: 0 <= i < |pending| ==> Unqueued(pending[i])
      modifies this`queues, procs, rqnext, head, tail, nready
      ensures Wired()
      ensures forall l: nat :: l < NPRIO ==> queues[c][l] == SentTo(old(procs[..]), pending, elapsed, l)
      ensures forall d :: 0 <= d < ncpu && d != c ==> queues[d] == old(queues)[d]
      ensures forall p: nat :: p < nproc ==> procs[p] == if p in pending then Aged(old(procs[p]), elapsed) else old(procs[p])
    {
      hide Linked, Placed, Load, QueueOk, SentTo;
      ghost var ps := procs[..];
      forall l: nat | l < NPRIO ensures SentTo(ps, [], elapsed, l) == [] { SentNone(ps, elapsed, l); }
      var i := 0;
      while i < |pending|
        invariant 0 <= i <= |pending| && Wired()
        invariant forall l: nat :: l < NPRIO ==> queues[c][l] == SentTo(ps, pending[..i], elapsed, l)
        invariant forall d :: 0 <= d < ncpu && d != c ==> queues[d] == old(queues)[d]
        invariant forall p: nat :: p < nproc ==> procs[p] == if p in pending[..i] then Aged(ps[p], elapsed) else ps[p]
        invariant forall k :: i <= k < |pending| ==> Unqueued(pending[k])
      {
        var p := pending[i];
        NotYet(pending, i);
        assert Unqueued(p) && procs[p] == ps[p];
        ghost var before := queues[c];
        PushAged(c, p, elapsed);
        forall l: nat | l < NPRIO ensures queues[c][l] == SentTo(ps, pending[..i + 1], elapsed, l) {
          assert queues[c][l] == if l == Aged(ps[p], elapsed).prio then before[l] + [p] else before[l];
          SentNext(ps, pending, elapsed, l, i);
        }
        assert pending[..i + 1] == pending[..i] + [p];
        i := i + 1;
      }
      assert pending[..i] == pending;
    }

    method PushAged(c: nat, p: nat, elapsed: nat)
      requires Wired() && c < ncpu && p < nproc && Turn(procs[p], c) && Unqueued(p)
      modifies this`queues, procs, rqnext, head, tail, nready
      ensures Wired() && procs[..] == old(procs[..])[p := Aged(old(procs[p]), elapsed)]
      ensures var l := Aged(old(procs[p]), elapsed).prio; queues == old(queues)[c := old(queues)[c][l := old(queues)[c][l] + [p]]]
    {
      hide Linked, Placed, Load, QueueOk;
      var w := procs[p].waited + elapsed;
      if w >= AGING_TICKS && procs[p].prio > 0 {
        Rewrite(p, procs[p].(prio := procs[p].prio - 1, waited := 0));
      } else {
        Rewrite(p, procs[p].(waited := w));
      }
      RqPush(c, p);
    }

    /** The fields of a process in no queue are rewritten. */
    method Rewrite(p: nat, x: Proc)
      requires Wired() && p < nproc && Unqueued(p)
      modifies procs
      ensures Wired() && procs[..] == old(procs[..])[p := x]
    {
      hide Linked, Placed, Load;
      procs[p] := x;
      forall c: nat, l: nat | c < ncpu && l < NPRIO ensures QueueOk(c, l) {
        assert old(QueueOk(c, l)) && p !in queues[c][l];
        PlacedOther(old(procs[..]), queues[c][l], c, l, p, x);
      }
    }

    ghost predicate Valid()
      reads this`queues, procs, rqnext, head, tail, nready
    {
      Wired() && Inv(S())
    }

    /** One CPU's turn in rq_age: the stable merge of Aging. */
    method AgeOneCpu(c: nat, elapsed: nat)
      requires Valid() && c < ncpu
      modifies this`queues, procs, rqnext, head, tail, nready
      ensures Valid() && S() == AgeCpu(old(S()), c, elapsed)
    {
      hide Linked, Placed, Load, QueueOk, Inv, SentTo, Flat, Merged, Distinct;
      ghost var s := S();
      AgeCpuKeeps(s, c, elapsed);
      FlatFits(c);
      FlatTurns(s, c);
      var pending, n := Drain(c);
      var list := pending[..n];
      Drained(s, c, list);
      Refill(c, list, elapsed);
      forall l: nat | l < NPRIO ensures queues[c][l] == Merged(s.procs, s.queues[c], elapsed, l) {
        RefillIsMerge(s.procs, s.queues[c], elapsed, l);
      }
      assert procs[..] == AgedIn(s.procs, c, elapsed);
      assert queues[c] == AgeCpu(s, c, elapsed).queues[c];
      assert forall d :: 0 <= d < ncpu ==> queues[d] == AgeCpu(s, c, elapsed).queues[d];
      assert S() == AgeCpu(s, c, elapsed);
    }

    /** After the drain the drained are in no queue. */
    lemma Drained(s: Sched, c: nat, list: seq<nat>)
      requires Wired() && Inv(s) && c < ncpu && |s.queues| == ncpu && s.procs == procs[..] && list == Flat(s.queues[c])
      requires forall l: nat :: l < NPRIO ==> queues[c][l] == []
      requires forall d :: 0 <= d < ncpu && d != c ==> queues[d] == s.queues[d]
      requires forall i :: 0 <= i < |list| ==> list[i] < nproc && procs[list[i]].rqcpu == c
      ensures forall i :: 0 <= i < |list| ==> Unqueued(list[i])
    {
      forall i, d: nat, l: nat | 0 <= i < |list| && d < ncpu && l < NPRIO ensures list[i] !in queues[d][l] {
        if d != c { assert Lists(s.procs, s.queues[d][l], d, l); }
      }
    }

    method TakeHead(cpu: nat, prio: nat) returns (p: nat)
      requires Wired() && cpu < ncpu && prio < NPRIO && queues[cpu][prio] != []
      modifies this`queues, rqnext, head, tail, nready
      ensures Wired() && p == old(queues)[cpu][prio][0] && p < nproc && Unqueued(p)
      ensures queues == old(queues)[cpu := old(queues)[cpu][prio := old(queues)[cpu][prio][1..]]]
    {
      hide Linked, Placed, Distinct, Load;
      ghost var q, nx, ps := queues[cpu][prio], rqnext[..], procs[..];
      assert QueueOk(cpu, prio);
      EndIs(q, head[cpu, prio], tail[cpu, prio], nx);
      PlacedTail(ps, q, cpu, prio);
      LinkedTail(q, head[cpu, prio], tail[cpu, prio], nx);
      p := head[cpu, prio];
      head[cpu, prio] := rqnext[p];
      if head[cpu, prio] == NIL {
        tail[cpu, prio] := NIL;
      }
      rqnext[p] := NIL;
      nready[cpu] := nready[cpu] - 1;
      LoadSet(queues[cpu], prio, q[1..]);
      queues := queues[cpu := queues[cpu][prio := q[1..]]];
      assert rqnext[..] == nx[p := NIL];
      forall c: nat, l: nat | c < ncpu && l < NPRIO ensures QueueOk(c, l) && p !in queues[c][l] {
        if c != cpu || l != prio {
          assert old(QueueOk(c, l));
          PopOther(ps, q, nx, queues[c][l], cpu, prio, c, l, head[c, l], tail[c, l]);
          PlacedApart(ps, q, queues[c][l], cpu, prio, c, l);
        }
      }
    }

    /** rq_age. */
    method RqAge(elapsed: nat)
      requires Valid()
      modifies this`queues, procs, rqnext, head, tail, nready
      ensures Valid() && S() == Age(old(S()), elapsed)
    {
      hide QueueOk, Load, AgeCpu, Lists;
      var c := 0;
      while c < ncpu
        invariant 0 <= c <= ncpu == |queues| && Valid() && Shape(old(S())) && |old(queues)| == ncpu
        invariant S() == AgeTo(old(S()), c, elapsed)
      {
        AgeOneCpu(c, elapsed);
        c := c + 1;
      }
    }

    /** scheduler_tick, in 32-bit arithmetic. */
    method SchedulerTick(now: nat)
      requires Valid() && now < UINT
      modifies this`lastAged, this`queues, procs, rqnext, head, tail, nready
      ensures Valid() && Y() == TickAt(old(Y()), now)
    {
      var elapsed := (now - lastAged) % UINT;
      if elapsed < AGING_INTERVAL {
        return;
      }
      lastAged := now;
      RqAge(elapsed);
    }

    /** One turn of scheduler, up to the switch; what it picks is runnable. */
    method Pick(self: nat) returns (r: Option<nat>)
      requires Valid() && self < ncpu
      modifies this`queues, procs, rqnext, head, tail, nready
      ensures Valid() && old(Enabled(Y(), ProcTable.Pick(self))) && (S(), r) == Dispatch(old(S()), self)
      ensures r.Some? ==> r.value < nproc && var x, y := old(procs[..])[r.value], procs[r.value];
                y == x.(state := Running, rqcpu := self, prio := x.base, waited := 0, slice := y.slice) && y.slice == QUANTUM_BASE * (NPRIO - x.base)
    {
      hide Linked, Placed, Load, QueueOk, Inv, Distinct;
      ghost var s := S();
      DispatchKeeps(s, self);
      OkInv(s);
      r := RqPop(self);
      if r.None? {
        var best := FindVictim(self);
        if best >= 0 {
          r := RqPop(best);
        }
      }
      if r.Some? {
        var p := r.value;
        assert procs[p].state == Runnable;
        Rewrite(p, procs[p].(rqcpu := self, prio := procs[p].base, waited := 0, slice := Quantum(procs[p].base), state := Running));
      }
    }

    /** A process leaves sleep, run or embryo state for the queue of CPU `c`. */
    method MakeRunnable(p: nat, c: nat)
      requires Valid() && p < nproc && c < ncpu && procs[p].state != Runnable
      modifies this`queues, procs, rqnext, head, tail, nready
      ensures Valid() && S() == Enqueue(old(S()), p, c)
    {
      NotQueued(p);
      InvProc(S(), p);
      EnqueueKeeps(S(), p, c);
      hide Linked, Placed, Load, QueueOk, Inv;
      Rewrite(p, procs[p].(state := Runnable));
      RqPush(c, p);
    }

    lemma NotQueued(p: nat)
      requires Valid() && p < nproc && procs[p].state != Runnable
      ensures Unqueued(p)
    {
      forall c: nat, l: nat | c < ncpu && l < NPRIO ensures p !in queues[c][l] {
        assert Lists(procs[..], queues[c][l], c, l);
      }
    }

    /** Fields that the queues do not depend on, of any process. */
    method Touch(p: nat, x: Proc)
      requires Valid() && p < nproc && SameTurn(procs[p], x)
      modifies procs
      ensures Valid() && S() == SetProc(old(S()), p, x)
    {
      SetOther(S(), p, x);
      ghost var ps := procs[..];
      hide Linked, Load, Inv;
      procs[p] := x;
      assert procs[..] == ps[p := x];
      forall c: nat, l: nat | c < ncpu && l < NPRIO ensures QueueOk(c, l) {
        assert old(QueueOk(c, l));
      }
    }

    /** A process that is in no queue, before and after. */
    method Change(p: nat, x: Proc)
      requires Valid() && p < nproc && procs[p].state != Runnable && x.state != Runnable && ProcOk(x, ncpu)
      modifies procs
      ensures Valid() && S() == SetProc(old(S()), p, x)
    {
      NotQueued(p);
      SetKeeps(S(), p, x);
      hide Linked, Placed, Load, QueueOk, Inv;
      Rewrite(p, x);
    }

    /** wakeup1 (`limit` 0) and the loop of futex_wake. */
    method Wake(chan: Chan, limit: nat) returns (woken: nat)
      requires Valid()
      modifies this`queues, procs, rqnext, head, tail, nready
      ensures Valid() && old(Ok(S())) && (S(), woken) == WakeTo(old(S()), chan, limit, nproc)
      ensures WokenFirst(old(procs[..]), procs[..], chan, limit, woken)
    {
      hide Inv, QueueOk, Load, Ok, WakeTo, Enqueue, WokenFirst;
      OkInv(S());
      ghost var s := S();
      WakeSaid(s, chan, limit);
      WakeNone(s, chan, limit);
      woken := 0;
      var i := 0;
      while i < nproc
        invariant 0 <= i <= nproc && Valid()
        invariant (S(), woken) == WakeTo(s, chan, limit, i)
        invariant limit > 0 ==> woken < limit
      {
        WakeNext(s, chan, limit, i);
        if procs[i].state == Sleeping && procs[i].chan == chan {
          MakeRunnable(i, procs[i].rqcpu);
          woken := woken + 1;
          if limit > 0 && woken >= limit {
            EnoughWoken(s, chan, limit, i + 1, nproc);
            return;
          }
        }
        i := i + 1;
      }
    }

    method Kill(pid: int) returns (found: bool)
      requires Valid()
      modifies this`queues, procs, rqnext, head, tail, nready
      ensures Valid() && old(Ok(S())) && S() == KillPid(old(S()), pid)
      ensures found == FindPid(old(procs[..]), pid, 0).Some?
    {
      OkInv(S());
      hide Inv, QueueOk, Load;
      ghost var s := S();
      var i := 0;
      while i < nproc
        invariant 0 <= i <= nproc && Valid() && S() == s
        invariant FindPid(s.procs, pid, i) == FindPid(s.procs, pid, 0)
      {
        if procs[i].pid == pid {
          Touch(i, procs[i].(killed := true));
          if procs[i].state == Sleeping {
            InvProc(S(), i);
            MakeRunnable(i, procs[i].rqcpu);
          }
          return true;
        }
        i := i + 1;
      }
      return false;
    }

    /** A timer interrupt while `p` runs on CPU `cpu`. */
    method Timer(p: nat, cpu: nat)
      requires Valid() && p < nproc && cpu < ncpu && procs[p].state == Running
      modifies this`queues, procs, rqnext, head, tail, nready
      ensures Valid() && old(Ok(S())) && S() == Charge(old(S()), p, cpu)
    {
      OkInv(S());
      InvProc(S(), p);
      var left := procs[p].slice as int - 1;
      Change(p, procs[p].(slice := if left < 0 then 0 else left));
      if left <= 0 {
        MakeRunnable(p, cpu);
      }
    }

    /** yield of the running process `p` on CPU `cpu`, up to the switch. */
    method Yield(p: nat, cpu: nat)
      requires Valid() && p < nproc && cpu < ncpu && procs[p].state == Running
      modifies this`queues, procs, rqnext, head, tail, nready
      ensures Valid() && S() == Enqueue(old(S()), p, cpu)
    {
      MakeRunnable(p, cpu);
    }

    /** sleep, up to the switch. */
    method Sleep(p: nat, chan: Chan)
      requires Valid() && p < nproc && procs[p].state == Running
      modifies procs
      ensures Valid() && S() == SleepOn(old(S()), p, chan)
    {
      InvProc(S(), p);
      Change(p, procs[p].(chan := chan, state := Sleeping));
    }

    method PgdirUsers(d: Option<nat>) returns (n: nat)
      requires Valid()
      ensures n == UsersTo(procs[..], d, nproc)
    {
      n := 0;
      if d.None? {
        return;
      }
      var i := 0;
      while i < nproc
        invariant 0 <= i <= nproc && n == UsersTo(procs[..], d, i)
      {
        if procs[i].state != Unused && procs[i].pgdir == d {
          n := n + 1;
        }
        i := i + 1;
      }
    }

    /** allocproc; `kstack` says whether there was memory for a kernel stack. */
    method Allocproc(kstack: bool) returns (np: Option<nat>)
      requires Valid()
      modifies this`nextpid, procs
      ensures Valid() && np == if kstack then FirstUnused(old(procs[..]), 0) else None
      ensures FirstUnused(old(procs[..]), 0).None? ==> Y() == old(Y())
      ensures var r := FirstUnused(old(procs[..]), 0);
              r.Some? ==>
                var x := EmbryoOf(old(procs[..])[r.value], old(nextpid));
                S() == SetProc(old(S()), r.value, if kstack then x else x.(state := Unused)) && nextpid == old(nextpid) + 1
    {
      hide Inv, QueueOk, Load;
      ghost var s := S();
      var i := 0;
      while i < nproc && procs[i].state != Unused
        invariant 0 <= i <= nproc && FirstUnused(s.procs, i) == FirstUnused(s.procs, 0)
      {
        i := i + 1;
      }
      if i == nproc {
        return None;
      }
      InvProc(s, i);
      Change(i, EmbryoOf(procs[i], nextpid));
      nextpid := nextpid + 1;
      if !kstack {
        Change(i, procs[i].(state := Unused));
        return None;
      }
      return Some(i);
    }

    /** userinit gives the start state of every run. */
    method Userinit()
      requires Valid() && Blank() && nproc > 0 && ncpu > 0
      modifies this`nextpid, this`dirs, this`nextdir, this`queues, procs, rqnext, head, tail, nready
      ensures Valid() && Y() == P.Start(nproc, ncpu)
    {
      hide Inv, QueueOk, Load;
      var p := Allocproc(true);
      InvProc(S(), p.value);
      Change(p.value, procs[p.value].(pgdir := Some(nextdir)));
      dirs, nextdir := dirs + {nextdir}, nextdir + 1;
      NobodyQueued(S());
      var c := LeastLoadedCpu();
      ghost var s := S();
      MakeRunnable(p.value, c);
      StartSched(s, nproc, ncpu);
    }

    /** The first critical section of fork or clone by `p`. */
    method Alloc(p: nat, kstack: bool, shared: bool) returns (np: Option<nat>)
      requires Valid() && p < nproc && procs[p].state == Running
      modifies this`nextpid, procs
      ensures Valid() && Y() == AllocChild(old(Y()), p, kstack, shared)
      ensures np == if kstack then FirstUnused(old(procs[..]), 0) else None
    {
      hide Inv, QueueOk, Load, FirstUnused;
      InvProc(S(), p);
      np := Allocproc(kstack);
      if np.Some? {
        Change(p, procs[p].(doing := Child(np.value, shared)));
      }
    }

    /** fork's cowuvm (`ok` says whether it succeeded), or clone's sharing, and the fields that
        the child takes from its parent `p`. */
    method Adopt(p: nat, ok: bool)
      requires Valid() && p < nproc && procs[p].state == Running && procs[p].doing.Child?
      requires procs[p].doing.slot < nproc && procs[p].doing.slot != p && procs[procs[p].doing.slot].state == Embryo
      modifies this`dirs, this`nextdir, procs
      ensures Valid() && Y() == AdoptChild(old(Y()), p, ok)
    {
      var x := procs[p];
      var np := x.doing.slot;
      var y := procs[np];
      InvProc(S(), p);
      InvProc(S(), np);
      hide Inv, QueueOk, Load;
      if x.doing.shared {
        Change(np, y.(parent := Some(p), thread := true, pgdir := x.pgdir, base := x.base, prio := x.base));
        Change(p, x.(doing := Ready(np)));
      } else if ok {
        Change(np, y.(parent := Some(p), pgdir := Some(nextdir), base := x.base, prio := x.base));
        Change(p, x.(doing := Ready(np)));
        dirs, nextdir := dirs + {nextdir}, nextdir + 1;
      } else {
        Change(np, y.(state := Unused));
        Change(p, x.(doing := Free));
      }
    }

    /** The end of fork and clone. */
    method Launch(p: nat)
      requires Valid() && p < nproc && procs[p].state == Running && procs[p].doing.Ready?
      requires procs[p].doing.slot < nproc && procs[p].doing.slot != p && procs[procs[p].doing.slot].state == Embryo
      modifies this`queues, procs, rqnext, head, tail, nready
      ensures Valid() && old(Ok(S())) && S() == LaunchChild(old(S()), p)
    {
      OkInv(S());
      InvProc(S(), p);
      hide Inv, QueueOk, Load, Ok;
      var np := procs[p].doing.slot;
      Touch(p, procs[p].(doing := Free));
      var c := LeastLoadedCpu();
      MakeRunnable(np, c);
    }

    /** exit, after its files are closed and up to the switch. */
    method Exit(p: nat)
      requires Valid() && p < nproc && procs[p].state == Running
      modifies this`queues, procs, rqnext, head, tail, nready
      ensures Valid() && old(Ok(S())) && S() == ExitProc(old(S()), p, init)
    {
      ghost var s := S();
      OkInv(s);
      hide Inv, QueueOk, Load, Ok, WakeTo, ReparentTo;
      var chan := if procs[p].parent.Some? then OfProc(procs[p].parent.value) else Nothing;
      var woken := Wake(chan, 0);
      WakeProc(s, chan, 0, nproc, p);
      Reparent(p);
      ReparentState(WakeAll(s, chan), p, init, nproc, p);
      InvProc(S(), p);
      Change(p, procs[p].(state := Zombie));
    }

    /** The loop of exit. */
    method Reparent(p: nat)
      requires Valid()
      modifies this`queues, procs, rqnext, head, tail, nready
      ensures Valid() && old(Ok(S())) && S() == ReparentTo(old(S()), p, init, nproc)
    {
      ghost var s := S();
      OkInv(s);
      hide Inv, QueueOk, Load, Ok, WakeTo;
      var i := 0;
      while i < nproc
        invariant 0 <= i <= nproc && Valid() && S() == ReparentTo(s, p, init, i)
      {
        if procs[i].parent == Some(p) {
          Touch(i, procs[i].(parent := Some(init)));
          if procs[i].state == Zombie {
            var woken := Wake(OfProc(init), 0);
          }
        }
        i := i + 1;
      }
    }

    /** One turn of the loop of wait, or with `threads` of join: the pid of a reaped child, -1, or
        nothing yet because `p` went to sleep. */
    method WaitTurn(p: nat, threads: bool) returns (r: Option<int>)
      requires Valid() && p < nproc && procs[p].state == Running
      modifies this`dirs, procs
      ensures Valid() && Y() == WaitOnce(old(Y()), p, threads)
      ensures var z := FirstZombie(old(procs[..]), p, threads, 0);
              r == if z.Some? then Option<int>.Some(old(procs[..])[z.value].pid)
                   else if !HasChild(old(procs[..]), p, threads) || old(procs[p].killed) then Option<int>.Some(-1) else None
      ensures r.None? || r.value < 0 <==> NoneDead(old(procs[..]), p, threads)
    {
      hide Inv, QueueOk, Load, NoneDead;
      ghost var s := S();
      NoneDeadIs(s.procs, p, threads);
      var have := false;
      var i := 0;
      while i < nproc
        invariant 0 <= i <= nproc && S() == s && Valid()
        invariant FirstZombie(s.procs, p, threads, i) == FirstZombie(s.procs, p, threads, 0)
        invariant have <==> exists k :: 0 <= k < i && ChildOf(s.procs[k], p, threads)
      {
        if procs[i].parent == Some(p) && (threads ==> procs[i].thread) {
          have := true;
          if procs[i].state == Zombie {
            var n := PgdirUsers(procs[i].pgdir);
            if !threads && procs[i].pgdir.Some? && n == 1 {
              dirs := dirs - {procs[i].pgdir.value};
            }
            r := Some(procs[i].pid);
            InvProc(S(), i);
            Change(i, Reaped(procs[i]));
            return;
          }
        }
        i := i + 1;
      }
      if !have || procs[p].killed {
        return Some(-1);
      }
      Sleep(p, OfProc(p));
      return None;
    }
  }

  predicate Turn(x: Proc, c: nat) {
    x.rqcpu == c && x.prio < NPRIO
  }

  /** The queued processes of a CPU are its runnable ones. */
  lemma FlatTurns(s: Sched, c: nat)
    requires Inv(s) && c < |s.queues|
    ensures forall p: nat :: p < |s.procs| ==> (p in Flat(s.queues[c]) <==> s.procs[p].state == Runnable && s.procs[p].rqcpu == c)
    ensures forall p: nat :: p in Flat(s.queues[c]) ==> p < |s.procs| && s.procs[p].prio < NPRIO
  {
    FlatHas(s.queues[c]);
    forall p: nat | p in Flat(s.queues[c]) ensures p < |s.procs| && s.procs[p].state == Runnable && s.procs[p].rqcpu == c && s.procs[p].prio < NPRIO {
      var l :| 0 <= l < |s.queues[c]| && p in s.queues[c][l];
      assert Lists(s.procs, s.queues[c][l], c, l);
    }
    forall p: nat | p < |s.procs| && s.procs[p].state == Runnable && s.procs[p].rqcpu == c ensures p in Flat(s.queues[c]) {
      assert Lists(s.procs, s.queues[c][s.procs[p].prio], c, s.procs[p].prio);
    }
  }

  lemma WakeNone(s: Sched, chan: Chan, limit: nat)
    requires Ok(s)
    ensures WakeTo(s, chan, limit, 0) == (s, 0)
  {
  }

  lemma WakeNext(s: Sched, chan: Chan, limit: nat, i: nat)
    requires Ok(s) && i < |s.procs|
    ensures var (t, n) := WakeTo(s, chan, limit, i);
            && Shape(t) && t.procs[i].prio < NPRIO && t.procs[i].rqcpu < |t.queues|
            && WakeTo(s, chan, limit, i + 1) ==
                 if !(limit > 0 && n >= limit) && Wakes(t.procs[i], chan) then (Enqueue(t, i, t.procs[i].rqcpu), n + 1) else (t, n)
  {
  }

  lemma {:induction false} EnoughWoken(s: Sched, chan: Chan, limit: nat, k: nat, n: nat)
    requires Ok(s) && k <= n <= |s.procs| && limit > 0 && WakeTo(s, chan, limit, k).1 >= limit
    ensures WakeTo(s, chan, limit, n) == WakeTo(s, chan, limit, k)
    decreases n
  {
    if k < n { EnoughWoken(s, chan, limit, k, n - 1); }
  }

  lemma NotYet(q: seq<nat>, i: nat)
    requires Distinct(q) && i < |q|
    ensures q[i] !in q[..i] && q[i] !in q[i + 1..]
  {
  }

  lemma SentNext(procs: seq<Proc>, q: seq<nat>, e: nat, l: nat, i: nat)
    requires i < |q| && q[i] < |procs|
    ensures SentTo(procs, q[..i + 1], e, l) == if Aged(procs[q[i]], e).prio == l then SentTo(procs, q[..i], e, l) + [q[i]] else SentTo(procs, q[..i], e, l)
  {
    assert q[..i + 1][..i] == q[..i];
  }

  lemma PlacedTail(procs: seq<Proc>, q: seq<nat>, c: nat, l: nat)
    requires Placed(procs, q, c, l) && q != []
    ensures Distinct(q) && q[0] < |procs| && q[0] !in q[1..] && Placed(procs, q[1..], c, l)
  {
  }

  lemma PlacedApart(procs: seq<Proc>, q: seq<nat>, r: seq<nat>, c: nat, l: nat, d: nat, m: nat)
    requires Placed(procs, q, c, l) && Placed(procs, r, d, m) && (c != d || l != m) && q != []
    ensures q[0] !in r
  {
  }

  lemma NobodyThere(s: Sched)
    requires Shape(s) && forall c: nat, l: nat :: c < |s.queues| && l < |s.queues[c]| ==> s.queues[c][l] == []
    requires forall p :: 0 <= p < |s.procs| ==> s.procs[p] == P.BLANK
    ensures Inv(s)
  {
  }

  lemma NobodyQueued(s: Sched)
    requires Shape(s) && forall c: nat, l: nat :: c < |s.queues| && l < |s.queues[c]| ==> s.queues[c][l] == []
    ensures LeastLoaded(s, |s.queues|) == 0
  {
    forall c | 0 <= c < |s.queues| ensures Load(s.queues[c]) == 0 { NoLoad(s.queues[c]); }
    var r := LeastLoaded(s, |s.queues|);
    assert Load(s.queues[0]) == Load(s.queues[r]);
  }

  /** The first process, queued on the first CPU. */
  lemma StartSched(s: Sched, nproc: nat, ncpu: nat)
    requires nproc > 0 && ncpu > 0 && Shape(s) && |s.queues| == ncpu && |s.procs| == nproc
    requires forall c: nat, l: nat :: c < |s.queues| && l < |s.queues[c]| ==> s.queues[c][l] == []
    requires s.procs[0] == EmbryoOf(P.BLANK, 1).(pgdir := Some(0)) && forall p :: 1 <= p < nproc ==> s.procs[p] == P.BLANK
    ensures Enqueue(s, 0, 0) == P.Start(nproc, ncpu).sched
  {
    var t, u := Enqueue(s, 0, 0), P.Start(nproc, ncpu).sched;
    forall c: nat | c < ncpu ensures t.queues[c] == u.queues[c] {
      forall l: nat | l < NPRIO ensures t.queues[c][l] == u.queues[c][l] {
        assert s.queues[c][l] == [];
      }
    }
    assert t.procs == u.procs && t.queues == u.queues;
  }

  lemma EndIs(q: seq<nat>, head: int, tail: int, next: seq<int>)
    requires Linked(q, head, tail, next)
    ensures q == [] <==> tail == NIL
    ensures q != [] ==> tail == q[|q| - 1]
    ensures q == [] <==> head == NIL
    ensures q != [] ==> head == q[0]
  {
  }

  lemma PlacedAppend(procs: seq<Proc>, q: seq<nat>, c: nat, l: nat, p: nat)
    requires Placed(procs, q, c, l) && p < |procs| && p !in q && procs[p].prio == l
    ensures Distinct(q) && Placed(procs[p := procs[p].(rqcpu := c)], q + [p], c, l)
  {
  }
}
