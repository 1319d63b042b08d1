/** begin_op, log_write and end_op: reservation of log space by concurrent operations.  The
    operations in progress are listed with the blocks each has logged so far. */
module LogOps {
  import opened Params
  import opened Sets
  import opened Options
  import opened LogDisk

  datatype Log = Log(lh: seq<nat>, ops: seq<set<nat>>, committing: bool)

  datatype Step = Begin | Write(j: nat, b: nat) | End(j: nat) | Committed

  const Start := Log([], [], false)

  /** Space still promised to the operations in progress. */
  function Unspent(ops: seq<set<nat>>): int {
    if ops == [] then 0 else (MAXOPBLOCKS - |ops[0]|) + Unspent(ops[1..])
  }

  ghost predicate Inv(l: Log) {
    && (forall i, j :: 0 <= i < j < |l.lh| ==> l.lh[i] != l.lh[j])
    && (forall k :: 0 <= k < |l.ops| ==> |l.ops[k]| <= MAXOPBLOCKS)
    && (forall k, b :: 0 <= k < |l.ops| && b in l.ops[k] ==> b in l.lh)
    && |l.lh| + Unspent(l.ops) <= LOGSIZE
    && (l.committing ==> l.ops == [])
    && (l.ops == [] && !l.committing ==> l.lh == [])
  }

  /** begin_op does not sleep. */
  predicate Admits(l: Log) {
    !l.committing && |l.lh| + (|l.ops| + 1) * MAXOPBLOCKS <= LOGSIZE
  }

  /** log_write's first test, made before it looks whether the block is already logged. */
  predicate TooBig(l: Log, size: nat) {
    |l.lh| >= LOGSIZE || |l.lh| >= size - 1
  }

  /** The step can be taken by operations that log at most MAXOPBLOCKS distinct blocks each. */
  predicate Enabled(l: Log, s: Step) {
    match s
    case Begin => Admits(l)
    case Write(j, b) => j < |l.ops| && |l.ops[j] + {b}| <= MAXOPBLOCKS
    case End(j) => j < |l.ops|
    case Committed => l.committing
  }

  /** The effect of a step that does not panic. */
  function Apply(l: Log, s: Step): Log
    requires Enabled(l, s)
  {
    match s
    case Begin => l.(ops := l.ops + [{}])
    case Write(j, b) => l.(lh := if b in l.lh then l.lh else l.lh + [b], ops := l.ops[j := l.ops[j] + {b}])
    case End(j) => l.(ops := l.ops[..j] + l.ops[j + 1..], committing := |l.ops| == 1)
    case Committed => Log([], [], false)
  }

  lemma {:induction false} UnspentAppend(ops: seq<set<nat>>, s: set<nat>)
    ensures Unspent(ops + [s]) == Unspent(ops) + MAXOPBLOCKS - |s|
  {
    if ops == [] {
      assert ops + [s] == [s];
    } else {
      UnspentAppend(ops[1..], s);
      assert (ops + [s])[1..] == ops[1..] + [s];
    }
  }

  lemma {:induction false} UnspentUpdate(ops: seq<set<nat>>, j: nat, s: set<nat>)
    requires j < |ops|
    ensures Unspent(ops[j := s]) == Unspent(ops) + |ops[j]| - |s|
  {
    if j > 0 {
      UnspentUpdate(ops[1..], j - 1, s);
      assert ops[j := s][1..] == ops[1..][j - 1 := s];
    }
  }

  lemma {:induction false} UnspentRemove(ops: seq<set<nat>>, j: nat)
    requires j < |ops|
    ensures Unspent(ops[..j] + ops[j + 1..]) == Unspent(ops) - (MAXOPBLOCKS - |ops[j]|)
  {
    if j == 0 {
      assert ops[..0] + ops[1..] == ops[1..];
    } else {
      UnspentRemove(ops[1..], j - 1);
      assert (ops[..j] + ops[j + 1..])[1..] == ops[1..][..j - 1] + ops[1..][j..];
    }
  }

  lemma {:induction false} UnspentAtMost(ops: seq<set<nat>>)
    requires forall k :: 0 <= k < |ops| ==> |ops[k]| <= MAXOPBLOCKS
    ensures 0 <= Unspent(ops) <= |ops| * MAXOPBLOCKS
    ensures forall k :: 0 <= k < |ops| ==> MAXOPBLOCKS - |ops[k]| <= Unspent(ops)
  {
    if ops != [] {
      UnspentAtMost(ops[1..]);
      assert forall k :: 0 < k < |ops| ==> ops[k] == ops[1..][k - 1];
    }
  }

  /** Whatever the interleaving, the logged blocks and the promised space fit the log, no block
      is listed twice, and a commit runs only while no operation is in progress. */
  lemma StepKeeps(l: Log, s: Step)
    requires Inv(l) && Enabled(l, s)
    ensures Inv(Apply(l, s))
  {
    hide Inv, Apply;
    match s
    case Begin => BeginKeeps(l);
    case Write(j, b) => WriteKeeps(l, j, b);
    case End(j) => EndKeeps(l, j);
    case Committed => CommittedKeeps(l);
  }

  /** What begin_op's test adds to a reservation within `k` shares is one share more. */
  lemma OneShareMore(n: nat, k: nat, u: int)
    requires n + (k + 1) * MAXOPBLOCKS <= LOGSIZE && u <= k * MAXOPBLOCKS
    ensures n + u + MAXOPBLOCKS <= LOGSIZE
  {
    assert (k + 1) * MAXOPBLOCKS == k * MAXOPBLOCKS + MAXOPBLOCKS;
  }

  lemma BeginKeeps(l: Log)
    requires Inv(l) && Admits(l)
    ensures Inv(Apply(l, Begin))
  {
    UnspentAtMost(l.ops);
    UnspentAppend(l.ops, {});
    OneShareMore(|l.lh|, |l.ops|, Unspent(l.ops));
    hide Admits, Unspent;
  }

  lemma EndKeeps(l: Log, j: nat)
    requires Inv(l) && j < |l.ops|
    ensures Inv(Apply(l, End(j)))
  {
    UnspentRemove(l.ops, j);
    hide Unspent;
  }

  lemma CommittedKeeps(l: Log)
    requires l.committing
    ensures Inv(Apply(l, Committed))
  {
  }

  lemma WriteKeeps(l: Log, j: nat, b: nat)
    requires Inv(l) && j < |l.ops| && |l.ops[j] + {b}| <= MAXOPBLOCKS
    ensures Inv(Apply(l, Write(j, b)))
  {
    var s := l.ops[j] + {b};
    UnspentUpdate(l.ops, j, s);
    if b in l.ops[j] {
      assert s == l.ops[j];
    } else {
      assert |s| == |l.ops[j]| + 1;
    }
  }

  /** Where a run of steps leads, if each is enabled. */
  function Run(run: seq<Step>): Option<Log>
    decreases |run|
  {
    if run == [] then Some(Start)
    else
      var k := Run(run[..|run| - 1]);
      if k.Some? && Enabled(k.value, run[|run| - 1]) then Some(Apply(k.value, run[|run| - 1])) else None
  }

  predicate Reachable(l: Log, run: seq<Step>) {
    Run(run) == Some(l)
  }

  lemma {:induction false} ReachableInv(l: Log, run: seq<Step>)
    requires Reachable(l, run)
    ensures Inv(l)
    decreases |run|
  {
    hide Inv, Apply, Enabled;
    if run == [] {
      StartInv();
    } else {
      var k := Run(run[..|run| - 1]).value;
      ReachableInv(k, run[..|run| - 1]);
      StepKeeps(k, run[|run| - 1]);
    }
  }

  lemma StartInv()
    ensures Inv(Start)
  {
  }

  /** A waiting begin_op is always waiting for something that will happen: an operation in
      progress will end, or a commit will finish; with neither it is admitted. */
  lemma NoDeadlock(l: Log, run: seq<Step>)
    requires Reachable(l, run)
    ensures Admits(l) || l.ops != [] || l.committing
  {
    ReachableInv(l, run);
  }

  /** With more log blocks than LOGSIZE, no operation within its budget meets the panic when it
      logs a block it has not logged before. */
  lemma GuardNotReached(l: Log, run: seq<Step>, j: nat, b: nat, size: nat)
    requires Reachable(l, run) && Enabled(l, Write(j, b)) && b !in l.ops[j] && size > LOGSIZE
    ensures !TooBig(l, size)
  {
    ReachableInv(l, run);
    UnspentAtMost(l.ops);
    assert |l.ops[j] + {b}| == |l.ops[j]| + 1;
  }

  // ------------------------------------------------------------ and without them

  /** Of three operations, the one that logs block `b`, and the first block of operation `j`. */
  function Who(b: nat): nat {
    if b < MAXOPBLOCKS then 0 else if b < 2 * MAXOPBLOCKS then 1 else 2
  }

  function First(j: nat): nat {
    if j == 0 then 0 else if j == 1 then MAXOPBLOCKS else if j == 2 then 2 * MAXOPBLOCKS else LOGSIZE
  }

  /** Three operations, the first `m` distinct blocks between them. */
  function FillRun(m: nat): seq<Step> {
    if m == 0 then [Begin, Begin, Begin] else FillRun(m - 1) + [Write(Who(m - 1), m - 1)]
  }

  function Share(m: nat, j: nat): set<nat> {
    Span(First(j), Min(m, First(j + 1)))
  }

  function FillLog(m: nat): Log {
    Log(seq(m, (i: nat) => i), [Share(m, 0), Share(m, 1), Share(m, 2)], false)
  }

  lemma {:induction false} FillReaches(m: nat)
    requires m <= LOGSIZE
    ensures Reachable(FillLog(m), FillRun(m))
  {
    hide FillLog, Apply, Enabled;
    if m == 0 {
      FillStart();
    } else {
      FillReaches(m - 1);
      FillStep(m);
      assert FillRun(m)[..|FillRun(m)| - 1] == FillRun(m - 1);
    }
  }

  lemma FillStart()
    ensures Reachable(FillLog(0), FillRun(0))
  {
    var a := Apply(Start, Begin);
    var b := Apply(a, Begin);
    assert Reachable(Start, []);
    assert [Begin][..0] == [];
    assert Reachable(a, [Begin]);
    assert [Begin, Begin][..1] == [Begin];
    assert Reachable(b, [Begin, Begin]);
    assert [Begin, Begin, Begin][..2] == [Begin, Begin];
    assert FillLog(0) == Apply(b, Begin) by {
      SpanSize(0, 0);
      assert Share(0, 0) == {} && Share(0, 1) == {} && Share(0, 2) == {};
    }
  }

  lemma FillStep(m: nat)
    requires 0 < m <= LOGSIZE
    ensures Enabled(FillLog(m - 1), Write(Who(m - 1), m - 1))
    ensures FillLog(m) == Apply(FillLog(m - 1), Write(Who(m - 1), m - 1))
  {
    FillOps(m);
    FillList(m);
    ShareSize(m, Who(m - 1));
    hide Share;
  }

  lemma FillList(m: nat)
    requires 0 < m
    ensures m - 1 !in FillLog(m - 1).lh && FillLog(m - 1).lh + [m - 1] == FillLog(m).lh
  {
  }

  lemma FillOps(m: nat)
    requires 0 < m <= LOGSIZE
    ensures var ops, j := FillLog(m - 1).ops, Who(m - 1); ops[j] + {m - 1} == Share(m, j) && ops[j := Share(m, j)] == FillLog(m).ops
  {
    hide Share;
    ShareNext(m, 0);
    ShareNext(m, 1);
    ShareNext(m, 2);
    assert Share(m - 1, 0) + {} == Share(m - 1, 0) && Share(m - 1, 1) + {} == Share(m - 1, 1) && Share(m - 1, 2) + {} == Share(m - 1, 2);
  }

  lemma ShareSize(m: nat, j: nat)
    requires j < 3
    ensures |Share(m, j)| <= MAXOPBLOCKS
  {
    SpanSize(First(j), Min(m, First(j + 1)));
  }

  lemma ShareNext(m: nat, j: nat)
    requires 0 < m <= LOGSIZE && j < 3
    ensures Share(m, j) == Share(m - 1, j) + if j == Who(m - 1) then {m - 1} else {}
  {
    hide Span;
    assert Share(m - 1, j) + {} == Share(m - 1, j);
    assert j == Who(m - 1) <==> First(j) <= m - 1 < First(j + 1);
    if j == Who(m - 1) {
      assert forall b :: b in Share(m, j) <==> b in Share(m - 1, j) || b == m - 1;
    } else {
      assert forall b :: b in Share(m, j) <==> b in Share(m - 1, j);
    }
  }

  /** With LOGSIZE log blocks or fewer, as mkfs makes them, operations that all keep to their
      budget can be admitted together and still meet the panic.  So the guard is unreachable for
      them if and only if the log has more than LOGSIZE blocks. */
  lemma GuardExact(size: nat)
    requires size > 0
    ensures size > LOGSIZE <==>
      forall l: Log, run: seq<Step>, j: nat, b: nat ::
        Reachable(l, run) && Enabled(l, Write(j, b)) && b !in l.ops[j] ==> !TooBig(l, size)
  {
    if size > LOGSIZE {
      forall l: Log, run: seq<Step>, j: nat, b: nat | Reachable(l, run) && Enabled(l, Write(j, b)) && b !in l.ops[j]
        ensures !TooBig(l, size)
      {
        GuardNotReached(l, run, j, b, size);
      }
    } else {
      var m := size - 1;
      FillReaches(m);
      FillStep(m + 1);
      assert Reachable(FillLog(m), FillRun(m)) && Enabled(FillLog(m), Write(Who(m), m));
      assert m !in FillLog(m).ops[Who(m)];
      assert TooBig(FillLog(m), size);
    }
  }

  /** Because the test comes before absorption, even a block that is already in a full log is
      refused: with any log size there is a run of budget-keeping operations that ends so. */
  lemma AbsorbedWriteCanPanic(size: nat)
    ensures exists l: Log, run: seq<Step>, j: nat, b: nat ::
              Reachable(l, run) && Enabled(l, Write(j, b)) && b in l.lh && TooBig(l, size)
  {
    hide Span, FillRun, Run;
    FillReaches(LOGSIZE);
    var l := FillLog(LOGSIZE);
    SpanSize(0, MAXOPBLOCKS);
    assert Share(LOGSIZE, 0) + {0} == Share(LOGSIZE, 0);
    assert Reachable(l, FillRun(LOGSIZE)) && Enabled(l, Write(0, 0)) && l.lh[0] == 0 && TooBig(l, size);
  }
}
