/** Counting finite sets. */
module Sets {
  /** The numbers from `lo` to `hi` - 1. */
  function Span(lo: nat, hi: nat): (s: set<nat>)
    ensures forall b :: b in s <==> lo <= b < hi
  {
    if lo >= hi then {} else Span(lo, hi - 1) + {hi - 1}
  }

  lemma {:induction false} SpanSize(lo: nat, hi: nat)
    ensures |Span(lo, hi)| == if lo <= hi then hi - lo else 0
    decreases hi
  {
    if lo < hi {
      SpanSize(lo, hi - 1);
    }
  }

  lemma Subset(a: set<nat>, b: set<nat>)
    requires a <= b
    ensures |a| <= |b|
  {
    assert b == a + (b - a);
  }

  lemma {:induction false} UnionSize(a: set<nat>, b: set<nat>)
    ensures |a + b| <= |a| + |b|
  {
    if b == {} {
      assert a + b == a;
    } else {
      var x :| x in b;
      UnionSize(a, b - {x});
      assert a + b == (a + (b - {x})) + {x};
    }
  }

  lemma {:induction false} InRange(xs: set<nat>, lo: nat, n: nat)
    requires forall b :: b in xs ==> lo <= b < lo + n
    ensures |xs| <= n
  {
    if n > 0 {
      InRange(xs - {lo + n - 1}, lo, n - 1);
      assert xs <= (xs - {lo + n - 1}) + {lo + n - 1};
    } else {
      assert xs == {};
    }
  }

  /** A list without repetitions is no longer than a set that has its members. */
  lemma {:induction false} ListLength(list: seq<nat>, xs: set<nat>)
    requires (forall b :: b in list ==> b in xs) && (forall i, j :: 0 <= i < j < |list| ==> list[i] != list[j])
    ensures |list| <= |xs|
  {
    if list != [] {
      assert forall b :: b in list[1..] ==> b in list;
      assert list[0] in list && list[0] !in list[1..];
      ListLength(list[1..], xs - {list[0]});
    }
  }
}
