/** The linked form of a run queue, and the drain-and-refill form of an aging pass. */
module RunQueues {
  import opened Options
  import opened Scheduler
  import opened Aging

  const NIL: int := -1

  function After(q: seq<nat>, i: nat): int {
    if i + 1 < |q| then q[i + 1] else NIL
  }

  /** `head`, `tail` and the next links hold exactly the queue `q`. */
  ghost predicate Linked(q: seq<nat>, head: int, tail: int, next: seq<int>) {
    && (forall i :: 0 <= i < |q| ==> q[i] < |next|)
    && head == (if q == [] then NIL else q[0])
    && tail == (if q == [] then NIL else q[|q| - 1])
    && (forall i :: 0 <= i < |q| ==> next[q[i]] == After(q, i))
  }

  lemma LinkedOther(q: seq<nat>, head: int, tail: int, next: seq<int>, p: nat, x: int)
    requires Linked(q, head, tail, next) && p < |next| && p !in q
    ensures Linked(q, head, tail, next[p := x])
  {
  }

  lemma LinkedAppend(q: seq<nat>, head: int, tail: int, next: seq<int>, p: nat)
    requires Linked(q, head, tail, next) && Distinct(q) && p < |next| && p !in q
    ensures q != [] ==> 0 <= tail < |next|
    ensures Linked(q + [p], if q == [] then p else head, p, if q == [] then next[p := NIL] else next[p := NIL][tail := p])
  {
    var nx := if q == [] then next[p := NIL] else next[p := NIL][tail := p];
    forall i | 0 <= i < |q + [p]| ensures nx[(q + [p])[i]] == After(q + [p], i) {
      assert i < |q| ==> q[i] != p && (i != |q| - 1 ==> q[i] != tail);
    }
  }

  lemma LinkedTail(q: seq<nat>, head: int, tail: int, next: seq<int>)
    requires Linked(q, head, tail, next) && Distinct(q) && q != []
    ensures 0 <= head < |next|
    ensures Linked(q[1..], next[head], if next[head] == NIL then NIL else tail, next[head := NIL])
  {
    var r, nx := q[1..], next[head := NIL];
    assert next[q[0]] == After(q, 0);
    forall i | 0 <= i < |r| ensures nx[r[i]] == After(r, i) {
      assert r[i] == q[i + 1] && q[i + 1] != q[0] && next[q[i + 1]] == After(q, i + 1);
    }
  }

  // ------------------------------------------------------------ drain and refill

  function Flat(qs: seq<seq<nat>>): seq<nat> {
    if qs == [] then [] else qs[0] + Flat(qs[1..])
  }

  lemma {:induction false} FlatPop(qs: seq<seq<nat>>, l: nat)
    requires l < |qs| && qs[l] != [] && forall k :: 0 <= k < l ==> qs[k] == []
    ensures Flat(qs) == [qs[l][0]] + Flat(qs[l := qs[l][1..]])
  {
    if l == 0 {
      assert qs[0 := qs[0][1..]][1..] == qs[1..];
      assert qs[0] == [qs[0][0]] + qs[0][1..];
    } else {
      FlatPop(qs[1..], l - 1);
      assert qs[1..][l - 1 := qs[l][1..]] == qs[l := qs[l][1..]][1..];
    }
  }

  lemma {:induction false} FlatNone(qs: seq<seq<nat>>)
    requires forall k :: 0 <= k < |qs| ==> qs[k] == []
    ensures Flat(qs) == []
  {
    if qs != [] { FlatNone(qs[1..]); }
  }

  lemma {:induction false} FlatEmpty(qs: seq<seq<nat>>)
    requires Flat(qs) == []
    ensures forall k :: 0 <= k < |qs| ==> qs[k] == []
  {
    if qs != [] {
      assert |Flat(qs)| == |qs[0]| + |Flat(qs[1..])|;
      FlatEmpty(qs[1..]);
      assert forall k :: 0 < k < |qs| ==> qs[k] == qs[1..][k - 1];
    }
  }

  lemma {:induction false} FlatHas(qs: seq<seq<nat>>)
    ensures forall p: nat :: p in Flat(qs) <==> exists l :: 0 <= l < |qs| && p in qs[l]
  {
    if qs != [] {
      FlatHas(qs[1..]);
      forall p: nat ensures p in Flat(qs) <==> exists l :: 0 <= l < |qs| && p in qs[l] {
        if l :| 0 <= l < |qs| && p in qs[l] {
          assert l > 0 ==> p in qs[1..][l - 1];
        }
        if p in Flat(qs[1..]) {
          var l :| 0 <= l < |qs[1..]| && p in qs[1..][l];
          assert p in qs[l + 1];
        }
        assert p in qs[0] ==> exists l :: 0 <= l < |qs| && p in qs[l];
      }
    }
  }

  /** Those a refill sends to level `l`, in order. */
  function SentTo(procs: seq<Proc>, q: seq<nat>, elapsed: nat, l: nat): seq<nat> {
    if q == [] then []
    else
      var r := SentTo(procs, q[..|q| - 1], elapsed, l);
      var p := q[|q| - 1];
      if p < |procs| && Aged(procs[p], elapsed).prio == l then r + [p] else r
  }

  lemma {:induction false} SentJoin(procs: seq<Proc>, a: seq<nat>, b: seq<nat>, e: nat, l: nat)
    ensures SentTo(procs, a + b, e, l) == SentTo(procs, a, e, l) + SentTo(procs, b, e, l)
    decreases |b|
  {
    if b == [] {
      assert a + b == a;
    } else {
      var c := b[..|b| - 1];
      SentJoin(procs, a, c, e, l);
      assert (a + b)[..|a + b| - 1] == a + c;
    }
  }

  predicate AtLevel(procs: seq<Proc>, q: seq<nat>, k: nat) {
    forall i :: 0 <= i < |q| ==> q[i] < |procs| && procs[q[i]].prio == k
  }

  /** All of one level: they stay, or rise by one. */
  lemma {:induction false} SentLevel(procs: seq<Proc>, q: seq<nat>, e: nat, k: nat, l: nat)
    requires AtLevel(procs, q, k)
    ensures SentTo(procs, q, e, l) == if l == k then Stay(procs, q, e) else if l + 1 == k then Rise(procs, q, e) else []
    decreases |q|
  {
    hide SentTo;
    SentNone(procs, e, l);
    if q != [] {
      SentLevel(procs, q[1..], e, k, l);
      assert q == [q[0]] + q[1..];
      SentJoin(procs, [q[0]], q[1..], e, l);
      SentOne(procs, q[0], e, l);
    }
  }

  lemma SentNone(procs: seq<Proc>, e: nat, l: nat)
    ensures SentTo(procs, [], e, l) == []
  {
  }

  lemma SentOne(procs: seq<Proc>, p: nat, e: nat, l: nat)
    ensures SentTo(procs, [p], e, l) == if p < |procs| && Aged(procs[p], e).prio == l then [p] else []
  {
    assert [p][..0] == [];
  }

  /** Levels `k` and up of the queues, refilled. */
  lemma {:induction false} SentFrom(procs: seq<Proc>, qs: seq<seq<nat>>, e: nat, k: nat, l: nat)
    requires k <= |qs| && l < |qs|
    requires forall m: nat :: m < |qs| ==> AtLevel(procs, qs[m], m)
    ensures SentTo(procs, Flat(qs[k..]), e, l)
         == (if k <= l then Stay(procs, qs[l], e) else []) + (if k <= l + 1 < |qs| then Rise(procs, qs[l + 1], e) else [])
    decreases |qs| - k
  {
    hide Stay, Rise, AtLevel, SentTo, Flat;
    FlatStep(qs, k);
    SentNone(procs, e, l);
    if k < |qs| {
      SentFrom(procs, qs, e, k + 1, l);
      SentJoin(procs, qs[k], Flat(qs[k + 1..]), e, l);
      SentLevel(procs, qs[k], e, k, l);
    }
  }

  lemma FlatStep(qs: seq<seq<nat>>, k: nat)
    requires k <= |qs|
    ensures Flat(qs[k..]) == if k < |qs| then qs[k] + Flat(qs[k + 1..]) else []
  {
    if k < |qs| {
      assert qs[k..][0] == qs[k] && qs[k..][1..] == qs[k + 1..];
    }
  }

  /** Popping everybody and pushing them back with their new levels is the stable merge. */
  lemma RefillIsMerge(procs: seq<Proc>, qs: seq<seq<nat>>, e: nat, l: nat)
    requires l < |qs|
    requires forall m: nat :: m < |qs| ==> AtLevel(procs, qs[m], m)
    ensures SentTo(procs, Flat(qs), e, l) == Merged(procs, qs, e, l)
  {
    SentFrom(procs, qs, e, 0, l);
    assert qs[0..] == qs;
  }

  // ------------------------------------------------------------ all queues at once

  /** Everybody in the queue has the CPU and the level of the queue, and is in it once. */
  predicate Placed(procs: seq<Proc>, q: seq<nat>, c: nat, l: nat) {
    && Distinct(q)
    && (forall i :: 0 <= i < |q| ==> q[i] < |procs| && procs[q[i]].rqcpu == c && procs[q[i]].prio == l)
  }

  lemma PlacedOther(procs: seq<Proc>, q: seq<nat>, c: nat, l: nat, p: nat, x: Proc)
    requires Placed(procs, q, c, l) && p < |procs| && p !in q
    ensures Placed(procs[p := x], q, c, l)
  {
  }

  lemma {:induction false} LoadSet(qs: seq<seq<nat>>, l: nat, q: seq<nat>)
    requires l < |qs|
    ensures Load(qs[l := q]) == Load(qs) - |qs[l]| + |q|
  {
    if l > 0 {
      LoadSet(qs[1..], l - 1, q);
      assert qs[l := q][1..] == qs[1..][l - 1 := q];
    } else {
      assert qs[0 := q][1..] == qs[1..];
    }
  }

  /** What pushing `p` writes into the next links leaves every other queue linked. */
  lemma PushOther(procs: seq<Proc>, q: seq<nat>, next: seq<int>, p: nat, r: seq<nat>, c: nat, l: nat, d: nat, m: nat, h: int, t: int)
    requires Placed(procs, q, c, l) && Placed(procs, r, d, m) && (c != d || l != m) && |next| == |procs|
    requires p < |procs| && p !in q && p !in r && Linked(r, h, t, next)
    ensures Linked(r, h, t, if q == [] then next[p := NIL] else next[p := NIL][q[|q| - 1] := p])
  {
    LinkedOther(r, h, t, next, p, NIL);
    if q != [] {
      assert q[|q| - 1] !in r;
      LinkedOther(r, h, t, next[p := NIL], q[|q| - 1], p);
    }
  }

  /** And popping the head of one leaves every other queue linked. */
  lemma PopOther(procs: seq<Proc>, q: seq<nat>, next: seq<int>, r: seq<nat>, c: nat, l: nat, d: nat, m: nat, h: int, t: int)
    requires Placed(procs, q, c, l) && Placed(procs, r, d, m) && (c != d || l != m) && |next| == |procs| && q != []
    requires Linked(r, h, t, next)
    ensures Linked(r, h, t, next[q[0] := NIL])
  {
    assert q[0] !in r;
    LinkedOther(r, h, t, next, q[0], NIL);
  }

  /** The levels of one CPU share no process. */
  lemma {:induction false} FlatDistinct(procs: seq<Proc>, qs: seq<seq<nat>>, c: nat, k: nat)
    requires k <= |qs| && forall m: nat :: m < |qs| ==> Placed(procs, qs[m], c, m)
    ensures Distinct(Flat(qs[k..]))
    ensures forall i :: 0 <= i < |Flat(qs[k..])| ==> Flat(qs[k..])[i] < |procs| && procs[Flat(qs[k..])[i]].prio >= k && procs[Flat(qs[k..])[i]].rqcpu == c
    decreases |qs| - k
  {
    if k < |qs| {
      FlatDistinct(procs, qs, c, k + 1);
      assert qs[k..][0] == qs[k] && qs[k..][1..] == qs[k + 1..];
      var a, b := qs[k], Flat(qs[k + 1..]);
      assert Placed(procs, a, c, k);
      forall i, j | 0 <= i < j < |a + b| ensures (a + b)[i] != (a + b)[j] {
        assert i < |a| ==> (a + b)[i] == a[i];
        assert j >= |a| ==> (a + b)[j] == b[j - |a|];
      }
    }
  }

  lemma PlacedLevels(procs: seq<Proc>, qs: seq<seq<nat>>, c: nat)
    requires forall m: nat :: m < |qs| ==> Placed(procs, qs[m], c, m)
    ensures forall m: nat :: m < |qs| ==> AtLevel(procs, qs[m], m)
  {
    forall m: nat | m < |qs| ensures AtLevel(procs, qs[m], m) {
      assert Placed(procs, qs[m], c, m);
    }
  }
}
