/** The way of one thread through uthread.c: what mutex_lock, mutex_trylock, cond_wait, cond_signal and
    cond_broadcast have done when they return, and when they sleep. */
module FutexPaths {
  import opened Params
  import opened Options
  import opened Futex

  /** Inside mutex_lock, or inside cond_wait once it is back from its sleep. */
  predicate Locking(p: Pc) {
    p.Try? || p.Check? || p.Lock? || p.Sleepy? || p.Asleep?
  }

  /** Inside mutex_lock or cond_wait, which return with the mutex. */
  predicate Owes(p: Pc) {
    Locking(p) || HasTicket(p)
  }

  // ------------------------------------------------------------ program order

  /** Whoever takes the step, a waiter keeps its ticket until it goes back to the mutex; a ticket has the
      value and the number of increments at its snapshot. */
  lemma WaiterStep(s: State, v: Step, i: nat)
    requires Enabled(s, v) && i < |s.pcs|
    ensures var u := Apply(s, v); var p, q := s.pcs[i], u.pcs[i];
            && (HasTicket(p) ==> q == Try || (HasTicket(q) && TicketOf(q) == TicketOf(p)))
            && (HasTicket(q) && !HasTicket(p) ==> p == Held && v == Snapshot(i) && TicketOf(q) == Ticket(s.seqno, s.total))
  {
  }

  /** A thread that is after the mutex stays so until it has it, when it was free. */
  lemma LockerStep(s: State, v: Step, i: nat)
    requires Enabled(s, v) && i < |s.pcs|
    ensures var u := Apply(s, v); var p, q := s.pcs[i], u.pcs[i];
            Locking(p) ==> Locking(q) || (q == Held && s.word == 0 && u.word == 1)
  {
  }

  /** A holder holds until it releases; a signal stays a signal, a broadcast a broadcast. */
  lemma HolderStep(s: State, v: Step, i: nat)
    requires Enabled(s, v) && i < |s.pcs|
    ensures var u := Apply(s, v); var p, q := s.pcs[i], u.pcs[i];
            && (Holding(p) ==> Holding(q) || (v == Release(i) && q.Unlocked? && u.word == 0))
            && (p.Unlocked? && p.next.None? ==> q == p || q == Out)
            && (p.Bump? ==> q == p || (v == WriteSeq(i) && q == Bumped(p.all) && u.total == s.total + 1))
            && (p.Bumped? ==> q == p || (q == Held && if p.all then v == WakeAll(i) else v.WakeOne?))
            && (q.Bump? && !p.Bump? ==> v == ReadSeq(i, q.all))
  {
  }

  /** A step moves one thread, and those that it wakes; whoever is woken tries for the mutex. */
  lemma OthersStay(s: State, v: Step, i: nat)
    requires Enabled(s, v) && i < |s.pcs| && i != v.t && Apply(s, v).pcs[i] != s.pcs[i]
    ensures Apply(s, v).pcs[i] == Try
    ensures (s.pcs[i].Asleep? && v == WakeMutex(v.t, Some(i))) || (s.pcs[i].CondAsleep? && (v == WakeOne(v.t, Some(i)) || v.WakeAll?))
  {
  }

  lemma OwesStep(s: State, v: Step, i: nat)
    requires Enabled(s, v) && i < |s.pcs| && Owes(s.pcs[i])
    ensures |Apply(s, v).pcs| == |s.pcs| && (Owes(Apply(s, v).pcs[i]) || Apply(s, v).pcs[i] == Held)
  {
    SameThreads(s, v);
    WaiterStep(s, v, i);
    LockerStep(s, v, i);
    hide Apply, Enabled, HasTicket;
  }

  // ------------------------------------------------------------ runs

  lemma {:induction false} Prefix(s: State, vs: seq<Step>, k: nat)
    requires Possible(s, vs) && k <= |vs|
    ensures Possible(s, vs[..k]) && |Run(s, vs[..k]).pcs| == |s.pcs|
    decreases k
  {
    hide Apply, Enabled;
    if k > 0 {
      SameThreads(s, vs[0]);
      Prefix(Apply(s, vs[0]), vs[1..], k - 1);
      assert vs[..k][1..] == vs[1..][..k - 1];
    }
  }

  lemma SameThreads(s: State, v: Step)
    requires Enabled(s, v)
    ensures |Apply(s, v).pcs| == |s.pcs|
  {
  }

  /** mutex_lock and cond_wait return only with the mutex: a thread that is in one of them and is out
      later has held the mutex in between. */
  lemma {:induction false} ReturnsHolding(s: State, vs: seq<Step>, i: nat) returns (k: nat)
    requires Possible(s, vs) && i < |s.pcs| && Owes(s.pcs[i])
    requires |Run(s, vs).pcs| == |s.pcs| && !Owes(Run(s, vs).pcs[i])
    ensures 0 < k <= |vs| && Possible(s, vs[..k]) && |Run(s, vs[..k]).pcs| == |s.pcs| && Run(s, vs[..k]).pcs[i] == Held
    decreases |vs|
  {
    hide Apply, Enabled, Owes;
    assert vs != [];
    var t := Apply(s, vs[0]);
    OwesStep(s, vs[0], i);
    if Owes(t.pcs[i]) {
      k := ReturnsHolding(t, vs[1..], i);
      k := k + 1;
      Prefix(s, vs, k);
      assert vs[..k][1..] == vs[1..][..k - 1];
    } else {
      k := 1;
      Prefix(s, vs, 1);
      assert vs[..1] == [vs[0]] && [vs[0]][1..] == [];
      assert Run(t, []) == t;
    }
  }

  /** Increments of the sequence word in a run. */
  function Bumps(vs: seq<Step>): nat {
    if vs == [] then 0 else (if vs[0].WriteSeq? then 1 else 0) + Bumps(vs[1..])
  }

  /** The thread is in one and the same cond_wait all along. */
  predicate Waits(s: State, vs: seq<Step>, i: nat)
    requires Possible(s, vs)
    decreases |vs|
  {
    i < |s.pcs| && HasTicket(s.pcs[i]) && (vs == [] || Waits(Apply(s, vs[0]), vs[1..], i))
  }

  lemma {:induction false} SameTicket(s: State, vs: seq<Step>, i: nat)
    requires Possible(s, vs) && Waits(s, vs, i)
    ensures Run(s, vs).total == s.total + Bumps(vs)
    ensures i < |Run(s, vs).pcs| && HasTicket(Run(s, vs).pcs[i]) && TicketOf(Run(s, vs).pcs[i]) == TicketOf(s.pcs[i])
    decreases |vs|
  {
    if vs != [] {
      WaiterStep(s, vs[0], i);
      TotalStep(s, vs[0]);
      hide Apply, Enabled, HasTicket, TicketOf;
      SameTicket(Apply(s, vs[0]), vs[1..], i);
    }
  }

  lemma TotalStep(s: State, v: Step)
    requires Enabled(s, v)
    ensures Apply(s, v).total == s.total + if v.WriteSeq? then 1 else 0
  {
  }

  /** The looks of a waiter, `n` increments after its snapshot. */
  lemma Looks(s: State, t: nat, n: nat)
    requires Tickets(s) && t < |s.pcs| && HasTicket(s.pcs[t]) && s.total == TicketOf(s.pcs[t]).at + n
    ensures var k := TicketOf(s.pcs[t]);
            && (Enabled(s, FirstLook(t)) ==> Apply(s, FirstLook(t)).pcs[t] == if n % UINT == 0 then CondLock(k) else Try)
            && (Enabled(s, SecondLook(t)) ==> Apply(s, SecondLook(t)).pcs[t] == if n % UINT == 0 then CondSleepy(k) else Try)
            && (Enabled(s, Sleep(t)) ==> Apply(s, Sleep(t)).pcs[t] == CondAsleep(k))
  {
    hide Turned;
    assert TicketOk(s, s.pcs[t]);
    ModGap(TicketOf(s.pcs[t]).at, s.total);
  }

  /** cond_wait between its snapshot and one of its looks at the word, while others run: it goes on
      towards sleep exactly if they signalled a multiple of 2^32 times, and else back to the mutex. */
  lemma SleepsUnlessSignalled(n: nat, before: seq<Step>, t: nat, vs: seq<Step>)
    requires Possible(Start(n), before)
    requires var s := Run(Start(n), before); Enabled(s, Snapshot(t)) && Possible(Apply(s, Snapshot(t)), vs) && Waits(Apply(s, Snapshot(t)), vs, t)
    ensures var s := Run(Apply(Run(Start(n), before), Snapshot(t)), vs);
            && t < |s.pcs| && HasTicket(s.pcs[t])
            && (Enabled(s, FirstLook(t)) ==> Apply(s, FirstLook(t)).pcs[t] == if Bumps(vs) % UINT == 0 then CondLock(TicketOf(s.pcs[t])) else Try)
            && (Enabled(s, SecondLook(t)) ==> Apply(s, SecondLook(t)).pcs[t] == if Bumps(vs) % UINT == 0 then CondSleepy(TicketOf(s.pcs[t])) else Try)
            && (Enabled(s, Sleep(t)) ==> Apply(s, Sleep(t)).pcs[t] == CondAsleep(TicketOf(s.pcs[t])))
  {
    StartInv(n);
    RunKeeps(Start(n), before);
    var a := Run(Start(n), before);
    var b := Apply(a, Snapshot(t));
    StepKeeps(a, Snapshot(t));
    TotalStep(a, Snapshot(t));
    WaiterStep(a, Snapshot(t), t);
    SameTicket(b, vs, t);
    RunKeeps(b, vs);
    assert a.pcs[t] == Held && HasTicket(b.pcs[t]);
    hide Tickets, Exclusive, LockHeld, NotForgotten, Possible, Run, Waits, Apply, Enabled;
    Looks(Run(b, vs), t, Bumps(vs));
  }

  // ------------------------------------------------------------ when the mutex is taken, and when it is waited for

  /** mutex_trylock, and each exchange of mutex_lock, get the mutex exactly if nobody holds it, and the
      two looks of futex_wait lead to sleep exactly while somebody does. */
  lemma TakenIff(n: nat, vs: seq<Step>, t: nat)
    requires Possible(Start(n), vs)
    ensures var s := Run(Start(n), vs); var busy := exists i :: 0 <= i < |s.pcs| && Holding(s.pcs[i]);
            && (Enabled(s, TryLock(t)) ==> Apply(s, TryLock(t)).pcs[t] == if busy then Out else Held)
            && (Enabled(s, Exchange(t)) ==> Apply(s, Exchange(t)).pcs[t] == if busy then Check else Held)
            && (Enabled(s, FirstLook(t)) && s.pcs[t].Check? ==> Apply(s, FirstLook(t)).pcs[t] == if busy then Lock else Try)
            && (Enabled(s, SecondLook(t)) && s.pcs[t].Lock? ==> Apply(s, SecondLook(t)).pcs[t] == if busy then Sleepy else Try)
            && (Enabled(s, Sleep(t)) && s.pcs[t].Sleepy? ==> Apply(s, Sleep(t)).pcs[t] == Asleep)
  {
    MutualExclusion(n, vs);
    var s := Run(Start(n), vs);
    hide Possible, Run;
    if i :| 0 <= i < |s.pcs| && Holding(s.pcs[i]) { assert Is(s.pcs[i], Holder); }
    if i :| 0 <= i < |s.pcs| && Is(s.pcs[i], Holder) { assert Holding(s.pcs[i]); }
  }

  // ------------------------------------------------------------ who is woken

  /** How many sleep on the mutex. */
  function MutexSleepers(pcs: seq<Pc>): nat {
    if pcs == [] then 0 else (if pcs[0].Asleep? then 1 else 0) + MutexSleepers(pcs[1..])
  }

  lemma {:induction false} MutexSleepersSet(pcs: seq<Pc>, i: nat, p: Pc)
    requires i < |pcs|
    ensures MutexSleepers(pcs[i := p]) == MutexSleepers(pcs) - (if pcs[i].Asleep? then 1 else 0) + (if p.Asleep? then 1 else 0)
    ensures pcs[i].Asleep? ==> MutexSleepers(pcs) > 0
  {
    if i > 0 {
      MutexSleepersSet(pcs[1..], i - 1, p);
      assert pcs[i := p][1..] == pcs[1..][i - 1 := p];
    } else {
      assert pcs[0 := p][1..] == pcs[1..];
    }
  }

  lemma {:induction false} NoMutexSleepers(pcs: seq<Pc>)
    requires forall w :: 0 <= w < |pcs| ==> !pcs[w].Asleep?
    ensures MutexSleepers(pcs) == 0
  {
    if pcs != [] { NoMutexSleepers(pcs[1..]); }
  }

  /** mutex_unlock wakes one of those asleep on the mutex if there are any, and nobody else. */
  lemma UnlockWakesOne(s: State, t: nat, who: Option<nat>)
    requires Enabled(s, WakeMutex(t, who))
    ensures MutexSleepers(Apply(s, WakeMutex(t, who)).pcs) == if MutexSleepers(s.pcs) > 0 then MutexSleepers(s.pcs) - 1 else 0
    ensures forall i :: 0 <= i < |s.pcs| && i != t ==> Apply(s, WakeMutex(t, who)).pcs[i] == if who == Some(i) then Try else s.pcs[i]
  {
    var q := Apply(s, WakeMutex(t, who)).pcs[t];
    if who.Some? {
      MutexSleepersSet(s.pcs, who.value, Try);
      MutexSleepersSet(s.pcs[who.value := Try], t, q);
    } else {
      MutexSleepersSet(s.pcs, t, q);
      assert forall w :: 0 <= w < |s.pcs| ==> !Is(s.pcs[w], Sleeper) && !s.pcs[w].Asleep?;
      NoMutexSleepers(s.pcs);
    }
  }

  /** cond_broadcast sends everybody who sleeps on the condition after the mutex, and nobody else. */
  lemma BroadcastWakesAll(s: State, t: nat)
    requires Enabled(s, WakeAll(t))
    ensures forall i :: 0 <= i < |s.pcs| && i != t ==> Apply(s, WakeAll(t)).pcs[i] == if s.pcs[i].CondAsleep? then Try else s.pcs[i]
    ensures CondSleepers(Apply(s, WakeAll(t)).pcs) == 0
  {
    var u := Apply(s, WakeAll(t));
    forall i | 0 <= i < |u.pcs| ensures !Is(u.pcs[i], CondSleeper) { }
    NoSleepers(u.pcs);
  }
}
