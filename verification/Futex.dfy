/** The mutex and the condition variable of uthread.c over futex_wait and futex_wake, for any
    number of threads.  A step is one atomic action: an exchange, a read of a word, or what a
    thread does while it holds the process table's lock. */
module Futex {
  import opened Params
  import opened Options

  /** What cond_wait read from the sequence word: the value, and how many increments had been
      made by then. */
  datatype Ticket = Ticket(value: nat, at: nat)

  /** Where a thread is.  `Sleepy` is futex_wait between its second look at the word and sleeping,
      with the table lock held. */
  datatype Pc =
    | Out
    | Try
    | Check
    | Lock
    | Sleepy
    | Asleep
    | Held
    | Snapped(ticket: Ticket)
    | Unlocked(next: Option<Ticket>)
    | CondCheck(ticket: Ticket)
    | CondLock(ticket: Ticket)
    | CondSleepy(ticket: Ticket)
    | CondAsleep(ticket: Ticket)
    | Bump(read: nat, all: bool)
    | Bumped(all: bool)

  /** `total` counts the increments of the sequence word; `cleared` is its value at the last
      increment whose broadcast is complete. */
  datatype State = State(word: nat, seqno: nat, klock: Option<nat>, pcs: seq<Pc>, total: nat, cleared: nat)

  datatype Step =
    | Enter(t: nat)
    | TryLock(t: nat)
    | Exchange(t: nat)
    | FirstLook(t: nat)
    | SecondLook(t: nat)
    | Sleep(t: nat)
    | Release(t: nat)
    | WakeMutex(t: nat, who: Option<nat>)
    | Snapshot(t: nat)
    | ReadSeq(t: nat, all: bool)
    | WriteSeq(t: nat)
    | WakeOne(t: nat, who: Option<nat>)
    | WakeAll(t: nat)

  predicate Holding(p: Pc) {
    p.Held? || p.Snapped? || p.Bump? || p.Bumped?
  }

  datatype Role = Holder | Waker | Contender | Sleeper | Dozer | CondSleeper

  predicate Is(p: Pc, role: Role) {
    match role
    case Holder => Holding(p)
    case Waker => p.Unlocked?
    case Contender => p.Try? || p.Check? || p.Lock?
    case Sleeper => p.Asleep?
    case Dozer => p.Sleepy?
    case CondSleeper => p.CondAsleep?
  }

  ghost predicate Someone(pcs: seq<Pc>, role: Role) {
    exists i :: 0 <= i < |pcs| && Is(pcs[i], role)
  }

  predicate HasTicket(p: Pc) {
    p.Snapped? || p.CondCheck? || p.CondLock? || p.CondSleepy? || p.CondAsleep? || (p.Unlocked? && p.next.Some?)
  }

  function TicketOf(p: Pc): Ticket
    requires HasTicket(p)
  {
    if p.Unlocked? then p.next.value else p.ticket
  }

  function Start(n: nat): State {
    State(0, 0, None, seq(n, _ => Out), 0, 0)
  }

  /** A wake of one sleeper: whoever it is, and nobody only if there is none. */
  predicate Wakes(pcs: seq<Pc>, role: Role, who: Option<nat>) {
    match who
    case Some(w) => w < |pcs| && Is(pcs[w], role)
    case None => forall w :: 0 <= w < |pcs| ==> !Is(pcs[w], role)
  }

  predicate Enabled(s: State, v: Step) {
    && v.t < |s.pcs|
    && var p := s.pcs[v.t];
       match v
       case Enter(_) => p.Out?
       case TryLock(_) => p.Out?
       case Exchange(_) => p.Try?
       case FirstLook(_) => p.Check? || p.CondCheck?
       case SecondLook(_) => s.klock.None? && (p.Lock? || p.CondLock?)
       case Sleep(_) => p.Sleepy? || p.CondSleepy?
       case Release(_) => p.Held? || p.Snapped?
       case WakeMutex(_, who) => s.klock.None? && p.Unlocked? && Wakes(s.pcs, Sleeper, who)
       case Snapshot(_) => p.Held?
       case ReadSeq(_, _) => p.Held?
       case WriteSeq(_) => p.Bump?
       case WakeOne(_, who) => s.klock.None? && p.Bumped? && !p.all && Wakes(s.pcs, CondSleeper, who)
       case WakeAll(_) => s.klock.None? && p.Bumped? && p.all
  }

  function Set(s: State, t: nat, p: Pc): State
    requires t < |s.pcs|
  {
    s.(pcs := s.pcs[t := p])
  }

  /** A thread that futex_wait lets go tries for the mutex (again). */
  function Rouse(pcs: seq<Pc>, who: Option<nat>): seq<Pc>
    requires who.Some? ==> who.value < |pcs|
  {
    if who.Some? then pcs[who.value := Try] else pcs
  }

  function RouseAll(pcs: seq<Pc>): (r: seq<Pc>)
    ensures |r| == |pcs|
    ensures forall i :: 0 <= i < |pcs| ==> r[i] == if pcs[i].CondAsleep? then Try else pcs[i]
  {
    seq(|pcs|, i requires 0 <= i < |pcs| => if pcs[i].CondAsleep? then Try else pcs[i])
  }

  function Apply(s: State, v: Step): State
    requires Enabled(s, v)
  {
    var t, p := v.t, s.pcs[v.t];
    match v
    case Enter(_) => Set(s, t, Try)
    case TryLock(_) => Set(s, t, if s.word == 0 then Held else Out).(word := 1)
    case Exchange(_) => Set(s, t, if s.word == 0 then Held else Check).(word := 1)
    case FirstLook(_) =>
      if p.Check? then Set(s, t, if s.word != 1 then Try else Lock)
      else Set(s, t, if s.seqno != p.ticket.value then Try else CondLock(p.ticket))
    case SecondLook(_) =>
      if p.Lock? then
        if s.word != 1 then Set(s, t, Try) else Set(s, t, Sleepy).(klock := Some(t))
      else
        if s.seqno != p.ticket.value then Set(s, t, Try) else Set(s, t, CondSleepy(p.ticket)).(klock := Some(t))
    case Sleep(_) => Set(s, t, if p.Sleepy? then Asleep else CondAsleep(p.ticket)).(klock := None)
    case Release(_) => Set(s, t, Unlocked(if p.Held? then None else Some(p.ticket))).(word := 0)
    case WakeMutex(_, who) =>
      s.(pcs := Rouse(s.pcs, who)[t := if p.next.None? then Out else CondCheck(p.next.value)])
    case Snapshot(_) => Set(s, t, Snapped(Ticket(s.seqno, s.total)))
    case ReadSeq(_, all) => Set(s, t, Bump(s.seqno, all))
    case WriteSeq(_) => Set(s, t, Bumped(p.all)).(seqno := (p.read + 1) % UINT, total := s.total + 1)
    case WakeOne(_, who) => s.(pcs := Rouse(s.pcs, who)[t := Held])
    case WakeAll(_) => s.(pcs := RouseAll(s.pcs)[t := Held], cleared := s.total)
  }

  // ------------------------------------------------------------ what every step keeps

  /** The word is 1 exactly while one thread holds the mutex. */
  ghost predicate Exclusive(s: State) {
    && s.word <= 1
    && (s.word == 1 <==> Someone(s.pcs, Holder))
    && (forall i, j :: 0 <= i < |s.pcs| && 0 <= j < |s.pcs| && Holding(s.pcs[i]) && Holding(s.pcs[j]) ==> i == j)
  }

  ghost predicate LockHeld(s: State) {
    forall i :: 0 <= i < |s.pcs| ==> (s.pcs[i].Sleepy? || s.pcs[i].CondSleepy? <==> s.klock == Some(i))
  }

  /** A thread asleep on the mutex, or about to be, is not forgotten: the holder will release, or
      a thread that has released will wake, or a contender that is awake will try again. */
  ghost predicate NotForgotten(s: State) {
    Someone(s.pcs, Sleeper) || Someone(s.pcs, Dozer) ==>
      Someone(s.pcs, Holder) || Someone(s.pcs, Waker) || Someone(s.pcs, Contender)
  }

  ghost predicate Tickets(s: State) {
    && s.seqno == s.total % UINT && s.cleared <= s.total
    && (forall i :: 0 <= i < |s.pcs| ==> TicketOk(s, s.pcs[i]))
  }

  function Turn(at: nat, k: nat): nat {
    at + k * UINT
  }

  /** Some whole number of turns of the counter after `at` falls between the last broadcast and now. */
  ghost predicate Turned(at: nat, cleared: nat, total: nat) {
    exists k: nat :: cleared <= Turn(at, k) <= total
  }

  /** Whoever sleeps, or is about to, went to sleep after the last broadcast, when the word had the
      value of the snapshot. */
  ghost predicate TicketOk(s: State, p: Pc) {
    && (HasTicket(p) ==> TicketOf(p).at <= s.total && TicketOf(p).value == TicketOf(p).at % UINT)
    && (p.Bump? ==> p.read == s.seqno)
    && (p.CondSleepy? || p.CondAsleep? ==> Turned(TicketOf(p).at, s.cleared, s.total))
  }

  ghost predicate Inv(s: State) {
    Exclusive(s) && LockHeld(s) && NotForgotten(s) && Tickets(s)
  }

  // ------------------------------------------------------------ steps that change one thread

  /** Changing one thread keeps the roles of the others. */
  lemma RoleKept(pcs: seq<Pc>, t: nat, p: Pc, role: Role)
    requires t < |pcs|
    ensures Is(p, role) ==> Someone(pcs[t := p], role)
    ensures !Is(pcs[t], role) && Someone(pcs, role) ==> Someone(pcs[t := p], role)
    ensures !Is(p, role) && Someone(pcs[t := p], role) ==> Someone(pcs, role)
  {
    if Is(p, role) { assert Is(pcs[t := p][t], role); }
    if i :| 0 <= i < |pcs| && Is(pcs[i], role) { assert i != t ==> Is(pcs[t := p][i], role); }
  }

  lemma AllRolesKept(pcs: seq<Pc>, t: nat, p: Pc)
    requires t < |pcs|
    ensures forall role :: Is(p, role) ==> Someone(pcs[t := p], role)
    ensures forall role :: !Is(pcs[t], role) && Someone(pcs, role) ==> Someone(pcs[t := p], role)
    ensures forall role :: !Is(p, role) && Someone(pcs[t := p], role) ==> Someone(pcs, role)
  {
    forall role ensures (Is(p, role) ==> Someone(pcs[t := p], role))
                     && (!Is(pcs[t], role) && Someone(pcs, role) ==> Someone(pcs[t := p], role))
                     && (!Is(p, role) && Someone(pcs[t := p], role) ==> Someone(pcs, role)) {
      RoleKept(pcs, t, p, role);
    }
  }

  /** The only holder lets go. */
  lemma LastHolder(s: State, t: nat, p: Pc)
    requires Exclusive(s) && t < |s.pcs| && Holding(s.pcs[t]) && !Holding(p)
    ensures !Someone(s.pcs[t := p], Holder)
  {
    var pcs := s.pcs[t := p];
    forall i | 0 <= i < |pcs| ensures !Is(pcs[i], Holder) {
      assert i != t ==> pcs[i] == s.pcs[i];
    }
  }

  predicate Single(v: Step) {
    !v.WakeMutex? && !v.WakeOne? && !v.WakeAll?
  }

  lemma SingleExclusive(s: State, v: Step)
    requires Inv(s) && Enabled(s, v) && Single(v)
    ensures Exclusive(Apply(s, v))
  {
    var t := v.t;
    var p := Apply(s, v).pcs[t];
    AllRolesKept(s.pcs, t, p);
    assert Is(s.pcs[t], Holder) <==> Holding(s.pcs[t]);
    if Holding(s.pcs[t]) && !Holding(p) { LastHolder(s, t, p); }
    if Holding(s.pcs[t]) { assert Someone(s.pcs, Holder); }
  }

  lemma SingleNotForgotten(s: State, v: Step)
    requires Inv(s) && Enabled(s, v) && Single(v)
    ensures NotForgotten(Apply(s, v))
  {
    var t := v.t;
    var p := Apply(s, v).pcs[t];
    AllRolesKept(s.pcs, t, p);
    if Is(s.pcs[t], Dozer) { assert Someone(s.pcs, Dozer); }
  }

  lemma SingleLock(s: State, v: Step)
    requires LockHeld(s) && Enabled(s, v) && Single(v)
    ensures LockHeld(Apply(s, v))
  {
  }

  lemma NextMod(a: nat)
    ensures (a % UINT + 1) % UINT == (a + 1) % UINT
  {
    var q, r := a / UINT, a % UINT;
    assert a + 1 == q * UINT + (r + 1);
    if r + 1 == UINT {
      assert a + 1 == (q + 1) * UINT;
    }
  }

  /** A ticket whose value is the word's is a whole number of turns old. */
  lemma WholeTurns(at: nat, cleared: nat, total: nat)
    requires at <= total && cleared <= total && at % UINT == total % UINT
    ensures Turned(at, cleared, total)
  {
    ModGap(at, total);
    assert Turn(at, (total - at) / UINT) == total;
  }

  /** The clause only gets weaker as the word is incremented. */
  lemma TurnedLater(at: nat, cleared: nat, total: nat)
    requires Turned(at, cleared, total)
    ensures Turned(at, cleared, total + 1)
  {
    var k: nat :| cleared <= Turn(at, k) <= total;
    assert cleared <= Turn(at, k) <= total + 1;
  }

  /** With less than a turn since the snapshot, there was no broadcast since. */
  lemma NotTurned(at: nat, cleared: nat, total: nat)
    requires Turned(at, cleared, total) && total - at < UINT
    ensures cleared <= at
  {
    var k: nat :| cleared <= Turn(at, k) <= total;
    assert k > 0 ==> Turn(at, k) >= at + UINT;
  }

  lemma SingleTickets(s: State, v: Step)
    requires Exclusive(s) && Tickets(s) && Enabled(s, v) && Single(v)
    ensures Tickets(Apply(s, v))
  {
    hide Holding, Turned, Turn;
    var t, u := v.t, Apply(s, v);
    assert TicketOk(s, s.pcs[t]);
    if v.WriteSeq? {
      NextMod(s.total);
      forall i | 0 <= i < |s.pcs| ensures TicketOk(u, u.pcs[i]) {
        BumpsAlone(s, t, i);
        assert TicketOk(s, s.pcs[i]);
        if s.pcs[i].CondSleepy? || s.pcs[i].CondAsleep? { TurnedLater(TicketOf(s.pcs[i]).at, s.cleared, s.total); }
      }
    } else if v.SecondLook? && s.pcs[t].CondLock? && s.seqno == s.pcs[t].ticket.value {
      WholeTurns(s.pcs[t].ticket.at, s.cleared, s.total);
    }
    forall i | 0 <= i < |s.pcs| ensures TicketOk(u, u.pcs[i]) {
      assert TicketOk(s, s.pcs[i]);
    }
  }

  lemma BumpsAlone(s: State, t: nat, i: nat)
    requires Exclusive(s) && t < |s.pcs| && i < |s.pcs| && s.pcs[t].Bump?
    ensures s.pcs[i].Bump? ==> i == t
  {
  }

  // ------------------------------------------------------------ wakes

  /** Exclusion depends only on who holds. */
  lemma SameHolders(s: State, u: State)
    requires Exclusive(s) && u.word == s.word && |u.pcs| == |s.pcs|
    requires forall i :: 0 <= i < |s.pcs| ==> (Holding(u.pcs[i]) <==> Holding(s.pcs[i]))
    ensures Exclusive(u)
  {
    if i :| 0 <= i < |s.pcs| && Is(s.pcs[i], Holder) { assert Is(u.pcs[i], Holder); }
    if i :| 0 <= i < |s.pcs| && Is(u.pcs[i], Holder) { assert Is(s.pcs[i], Holder); }
  }

  lemma WakeMutexKeeps(s: State, t: nat, who: Option<nat>)
    requires Inv(s) && Enabled(s, WakeMutex(t, who))
    ensures Inv(Apply(s, WakeMutex(t, who)))
  {
    var u := Apply(s, WakeMutex(t, who));
    SameHolders(s, u);
    forall i | 0 <= i < |s.pcs| ensures TicketOk(u, u.pcs[i]) {
      assert TicketOk(s, s.pcs[i]);
      assert u.pcs[i] == s.pcs[i] || i == t || who == Some(i);
    }
    if who.Some? {
      assert Is(u.pcs[who.value], Contender);
    } else {
      forall i | 0 <= i < |u.pcs| ensures !Is(u.pcs[i], Sleeper) && !Is(u.pcs[i], Dozer) {
        assert !Is(s.pcs[i], Sleeper);
      }
    }
  }

  lemma WakeOneKeeps(s: State, t: nat, who: Option<nat>)
    requires Inv(s) && Enabled(s, WakeOne(t, who))
    ensures Inv(Apply(s, WakeOne(t, who)))
  {
    var u := Apply(s, WakeOne(t, who));
    SameHolders(s, u);
    forall i | 0 <= i < |s.pcs| ensures TicketOk(u, u.pcs[i]) {
      assert TicketOk(s, s.pcs[i]);
    }
    assert Is(u.pcs[t], Holder);
  }

  lemma WakeAllKeeps(s: State, t: nat)
    requires Inv(s) && Enabled(s, WakeAll(t))
    ensures Inv(Apply(s, WakeAll(t)))
  {
    var u := Apply(s, WakeAll(t));
    SameHolders(s, u);
    forall i | 0 <= i < |s.pcs| ensures TicketOk(u, u.pcs[i]) {
      assert TicketOk(s, s.pcs[i]);
    }
    assert Is(u.pcs[t], Holder);
  }

  lemma StepKeeps(s: State, v: Step)
    requires Inv(s) && Enabled(s, v)
    ensures Inv(Apply(s, v))
  {
    if v.WakeMutex? {
      WakeMutexKeeps(s, v.t, v.who);
    } else if v.WakeOne? {
      WakeOneKeeps(s, v.t, v.who);
    } else if v.WakeAll? {
      WakeAllKeeps(s, v.t);
    } else {
      hide Exclusive, LockHeld, NotForgotten, Tickets, Apply, Enabled;
      SingleExclusive(s, v);
      SingleLock(s, v);
      SingleNotForgotten(s, v);
      SingleTickets(s, v);
    }
  }

  // ------------------------------------------------------------ every run

  predicate Possible(s: State, vs: seq<Step>)
    decreases |vs|
  {
    vs == [] || (Enabled(s, vs[0]) && Possible(Apply(s, vs[0]), vs[1..]))
  }

  function Run(s: State, vs: seq<Step>): State
    requires Possible(s, vs)
    decreases |vs|
  {
    if vs == [] then s else Run(Apply(s, vs[0]), vs[1..])
  }

  lemma {:induction false} RunKeeps(s: State, vs: seq<Step>)
    requires Inv(s) && Possible(s, vs)
    ensures Inv(Run(s, vs))
    decreases |vs|
  {
    hide Inv, Apply, Enabled;
    if vs != [] {
      StepKeeps(s, vs[0]);
      RunKeeps(Apply(s, vs[0]), vs[1..]);
    }
  }

  lemma StartInv(n: nat)
    ensures Inv(Start(n))
  {
  }

  /** In every state of every run the word is 1 exactly if some thread holds the mutex, and no two
      threads hold it. */
  lemma MutualExclusion(n: nat, vs: seq<Step>)
    requires Possible(Start(n), vs)
    ensures Exclusive(Run(Start(n), vs))
  {
    StartInv(n);
    RunKeeps(Start(n), vs);
  }

  /** And whenever a thread is asleep on the mutex, somebody is going to wake it or to take the
      mutex: no wakeup is lost. */
  lemma NoLostWakeup(n: nat, vs: seq<Step>)
    requires Possible(Start(n), vs)
    ensures NotForgotten(Run(Start(n), vs))
  {
    StartInv(n);
    RunKeeps(Start(n), vs);
  }

  /** What a contender does next. */
  function Retry(p: Pc, t: nat): Step
    requires Is(p, Contender)
  {
    if p.Try? then Exchange(t) else if p.Check? then FirstLook(t) else SecondLook(t)
  }

  /** A contender that is awake gets the free mutex by its own next steps alone, at most two. */
  lemma RetrySucceeds(s: State, t: nat)
    requires t < |s.pcs| && Is(s.pcs[t], Contender) && s.word == 0 && s.klock.None?
    ensures Enabled(s, Retry(s.pcs[t], t))
    ensures var u := Apply(s, Retry(s.pcs[t], t));
            u.pcs[t] == Held || (u.pcs[t] == Try && u.word == 0 && Apply(u, Exchange(t)).pcs[t] == Held)
  {
  }

  // ------------------------------------------------------------ condition variables

  /** After a broadcast nobody whose snapshot is older, but not 2^32 increments old, is asleep on
      the condition, or can still fall asleep in that cond_wait while this is so: its next look at
      the word sends it back to the mutex. */
  lemma BroadcastReachesAll(n: nat, vs: seq<Step>, i: nat)
    requires Possible(Start(n), vs) && i < |Run(Start(n), vs).pcs|
    requires HasTicket(Run(Start(n), vs).pcs[i]) && TicketOf(Run(Start(n), vs).pcs[i]).at < Run(Start(n), vs).cleared
    requires Run(Start(n), vs).total - TicketOf(Run(Start(n), vs).pcs[i]).at < UINT
    ensures var s := Run(Start(n), vs);
            && !s.pcs[i].CondAsleep? && !s.pcs[i].CondSleepy?
            && (s.pcs[i].CondLock? && s.klock.None? ==> Enabled(s, SecondLook(i)) && Apply(s, SecondLook(i)).pcs[i] == Try)
  {
    StartInv(n);
    RunKeeps(Start(n), vs);
    var s := Run(Start(n), vs);
    assert TicketOk(s, s.pcs[i]);
    var at := TicketOf(s.pcs[i]).at;
    if s.pcs[i].CondAsleep? || s.pcs[i].CondSleepy? { NotTurned(at, s.cleared, s.total); }
    ModGap(at, s.total);
  }

  /** The second look sends a thread to sleep exactly if the number of increments since its
      snapshot is a multiple of 2^32: with fewer than that, exactly if there was none. */
  lemma SleepsIff(n: nat, vs: seq<Step>, t: nat)
    requires Possible(Start(n), vs) && t < |Run(Start(n), vs).pcs| && Run(Start(n), vs).pcs[t].CondLock?
    requires Run(Start(n), vs).klock.None?
    ensures var s := Run(Start(n), vs); var k := s.pcs[t].ticket;
            && k.at <= s.total && Enabled(s, SecondLook(t))
            && (Apply(s, SecondLook(t)).pcs[t].CondSleepy? <==> (s.total - k.at) % UINT == 0)
            && (s.total - k.at < UINT ==> (Apply(s, SecondLook(t)).pcs[t].CondSleepy? <==> s.total == k.at))
  {
    StartInv(n);
    RunKeeps(Start(n), vs);
    var s := Run(Start(n), vs);
    assert TicketOk(s, s.pcs[t]);
    ModGap(s.pcs[t].ticket.at, s.total);
  }

  lemma ModGap(a: nat, b: nat)
    requires a <= b
    ensures a % UINT == b % UINT <==> (b - a) % UINT == 0
  {
    var q, r := a / UINT, b / UINT;
    assert a == q * UINT + a % UINT && b == r * UINT + b % UINT;
    assert a % UINT == b % UINT ==> b - a == (r - q) * UINT;
    if (b - a) % UINT == 0 {
      var k := (b - a) / UINT;
      assert b == (q + k) * UINT + a % UINT;
    }
  }

  // ------------------------------------------------------------ the broadcast that is missed

  /** One cond_broadcast under the mutex, by thread 1. */
  function Broadcast(): seq<Step> {
    [TryLock(1), ReadSeq(1, true), WriteSeq(1), WakeAll(1), Release(1), WakeMutex(1, None)]
  }

  function Broadcasts(m: nat): seq<Step> {
    if m == 0 then [] else Broadcasts(m - 1) + Broadcast()
  }

  /** Thread 0 up to the second look of its cond_wait. */
  function WaitSteps(): seq<Step> {
    [TryLock(0), Snapshot(0), Release(0), WakeMutex(0, None), FirstLook(0)]
  }

  /** Thread 0 is still there after `m` broadcasts. */
  function Late(m: nat): State {
    State(0, m % UINT, None, [CondLock(Ticket(0, 0)), Out], m, m)
  }

  lemma {:induction false} RunOn(s: State, a: seq<Step>, b: seq<Step>)
    requires Possible(s, a) && Possible(Run(s, a), b)
    ensures Possible(s, a + b) && Run(s, a + b) == Run(Run(s, a), b)
    decreases |a|
  {
    hide Apply, Enabled;
    if a == [] {
      assert a + b == b;
    } else {
      RunOn(Apply(s, a[0]), a[1..], b);
      assert (a + b)[1..] == a[1..] + b;
    }
  }

  lemma OneBroadcast(m: nat)
    ensures Possible(Late(m), Broadcast()) && Run(Late(m), Broadcast()) == Late(m + 1)
  {
    NextMod(m);
    var a := Apply(Apply(Late(m), TryLock(1)), ReadSeq(1, true));
    var b := Apply(Apply(a, WriteSeq(1)), WakeAll(1));
    assert a == State(1, m % UINT, None, [CondLock(Ticket(0, 0)), Bump(m % UINT, true)], m, m);
    assert b.pcs == [CondLock(Ticket(0, 0)), Held];
    assert b == State(1, (m + 1) % UINT, None, [CondLock(Ticket(0, 0)), Held], m + 1, m + 1);
    var c := Apply(b, Release(1));
    assert c.pcs == [CondLock(Ticket(0, 0)), Unlocked(None)];
    assert Apply(c, WakeMutex(1, None)) == Late(m + 1);
    var vs := Broadcast();
    SixSteps(Late(m), vs[0], vs[1], vs[2], vs[3], vs[4], vs[5]);
  }

  lemma SixSteps(s: State, a: Step, b: Step, c: Step, d: Step, e: Step, f: Step)
    requires Enabled(s, a) && Enabled(Apply(s, a), b) && Enabled(Apply(Apply(s, a), b), c)
    requires var t := Apply(Apply(Apply(s, a), b), c); Enabled(t, d) && Enabled(Apply(t, d), e) && Enabled(Apply(Apply(t, d), e), f)
    ensures Possible(s, [a, b, c, d, e, f])
    ensures Run(s, [a, b, c, d, e, f]) == Apply(Apply(Apply(Apply(Apply(Apply(s, a), b), c), d), e), f)
  {
    hide Apply, Enabled;
    var t := Apply(Apply(Apply(s, a), b), c);
    ThreeSteps(s, a, b, c);
    ThreeSteps(t, d, e, f);
    RunOn(s, [a, b, c], [d, e, f]);
    assert [a, b, c] + [d, e, f] == [a, b, c, d, e, f];
  }

  lemma ThreeSteps(s: State, a: Step, b: Step, c: Step)
    requires Enabled(s, a) && Enabled(Apply(s, a), b) && Enabled(Apply(Apply(s, a), b), c)
    ensures Possible(s, [a, b, c]) && Run(s, [a, b, c]) == Apply(Apply(Apply(s, a), b), c)
  {
    hide Apply, Enabled;
    var t := Apply(Apply(s, a), b);
    assert Possible(t, [c]) && Run(t, [c]) == Apply(t, c) by { assert [c][1..] == []; }
    assert [b, c][1..] == [c] && [a, b, c][1..] == [b, c];
  }

  lemma {:induction false} ManyBroadcasts(m: nat)
    ensures Possible(Late(0), Broadcasts(m)) && Run(Late(0), Broadcasts(m)) == Late(m)
  {
    hide Late, Broadcast;
    if m > 0 {
      ManyBroadcasts(m - 1);
      OneBroadcast(m - 1);
      RunOn(Late(0), Broadcasts(m - 1), Broadcast());
    }
  }

  lemma GetsToWait()
    ensures Possible(Start(2), WaitSteps()) && Run(Start(2), WaitSteps()) == Late(0)
  {
    var s := Start(2);
    assert s.pcs == [Out, Out];
    var a := Apply(Apply(Apply(s, TryLock(0)), Snapshot(0)), Release(0));
    assert a == State(0, 0, None, [Unlocked(Some(Ticket(0, 0))), Out], 0, 0);
    var b := Apply(a, WakeMutex(0, None));
    assert b == State(0, 0, None, [CondCheck(Ticket(0, 0)), Out], 0, 0);
    assert Apply(b, FirstLook(0)) == Late(0);
    ThreeSteps(s, TryLock(0), Snapshot(0), Release(0));
    TwoSteps(a, WakeMutex(0, None), FirstLook(0));
    RunOn(s, [TryLock(0), Snapshot(0), Release(0)], [WakeMutex(0, None), FirstLook(0)]);
    assert WaitSteps() == [TryLock(0), Snapshot(0), Release(0)] + [WakeMutex(0, None), FirstLook(0)];
  }

  lemma TwoSteps(s: State, a: Step, b: Step)
    requires Enabled(s, a) && Enabled(Apply(s, a), b)
    ensures Possible(s, [a, b]) && Run(s, [a, b]) == Apply(Apply(s, a), b)
  {
    hide Apply, Enabled;
    assert Possible(Apply(s, a), [b]) && Run(Apply(s, a), [b]) == Apply(Apply(s, a), b) by { assert [b][1..] == []; }
    assert [a, b][1..] == [b];
  }

  /** A run in which a thread falls asleep although every increment since its snapshot was followed
      by a broadcast: there were 2^32 of them between its snapshot and its second look. */
  lemma MissedBroadcast(m: nat)
    requires m == UINT
    ensures var vs := WaitSteps() + Broadcasts(m) + [SecondLook(0), Sleep(0)];
            && Possible(Start(2), vs)
            && var s := Run(Start(2), vs); s.pcs == [CondAsleep(Ticket(0, 0)), Out] && s.cleared == s.total == m
  {
    GetsToWait();
    ManyBroadcasts(m);
    RunOn(Start(2), WaitSteps(), Broadcasts(m));
    TwoSteps(Late(m), SecondLook(0), Sleep(0));
    hide WaitSteps, Broadcasts;
    RunOn(Start(2), WaitSteps() + Broadcasts(m), [SecondLook(0), Sleep(0)]);
  }

  /** How many sleep on the condition. */
  function CondSleepers(pcs: seq<Pc>): nat {
    if pcs == [] then 0 else (if pcs[0].CondAsleep? then 1 else 0) + CondSleepers(pcs[1..])
  }

  /** cond_signal wakes one of the sleepers if there are any, and nobody else. */
  lemma SignalWakesOne(s: State, t: nat, who: Option<nat>)
    requires Enabled(s, WakeOne(t, who))
    ensures CondSleepers(Apply(s, WakeOne(t, who)).pcs) == if CondSleepers(s.pcs) > 0 then CondSleepers(s.pcs) - 1 else 0
    ensures forall i :: 0 <= i < |s.pcs| && i != t ==> Apply(s, WakeOne(t, who)).pcs[i] == if who == Some(i) then Try else s.pcs[i]
  {
    if who.Some? {
      SleepersSet(s.pcs, who.value, Try);
      SleepersSet(s.pcs[who.value := Try], t, Held);
    } else {
      SleepersSet(s.pcs, t, Held);
      NoSleepers(s.pcs);
    }
  }

  lemma {:induction false} SleepersSet(pcs: seq<Pc>, i: nat, p: Pc)
    requires i < |pcs|
    ensures CondSleepers(pcs[i := p]) == CondSleepers(pcs) - (if pcs[i].CondAsleep? then 1 else 0) + (if p.CondAsleep? then 1 else 0)
    ensures pcs[i].CondAsleep? ==> CondSleepers(pcs) > 0
  {
    if i > 0 {
      SleepersSet(pcs[1..], i - 1, p);
      assert pcs[i := p][1..] == pcs[1..][i - 1 := p];
    } else {
      assert pcs[0 := p][1..] == pcs[1..];
    }
  }

  lemma {:induction false} NoSleepers(pcs: seq<Pc>)
    requires forall w :: 0 <= w < |pcs| ==> !Is(pcs[w], CondSleeper)
    ensures CondSleepers(pcs) == 0
  {
    if pcs != [] {
      assert !Is(pcs[0], CondSleeper);
      NoSleepers(pcs[1..]);
    }
  }
}
