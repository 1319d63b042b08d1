/** The circular, address-ordered free list of umalloc.c on values.  Addresses count headers. */
module FreeList {

  datatype Header = Header(ptr: nat, size: nat)

  /** Memory, as far as headers have been written to it. */
  type Memory = map<nat, Header>

  function At(m: Memory, a: nat): Header {
    if a in m then m[a] else Header(0, 0)
  }

  function Size(m: Memory, a: nat): nat {
    At(m, a).size
  }

  /** The ring visits `fl` in order of addresses, beginning with the empty block `base`; blocks do
      not overlap.  `strict` says that no two of them touch. */
  ghost predicate Ring(fl: seq<nat>, m: Memory, base: nat, strict: bool) {
    && |fl| > 0 && fl[0] == base
    && (forall i :: 0 <= i < |fl| ==> Node(fl, m, i))
    && (forall i, j :: 0 <= i < j < |fl| ==> Before(m, fl[i], fl[j], strict))
  }

  predicate Node(fl: seq<nat>, m: Memory, i: nat) {
    i < |fl| && At(m, fl[i]).ptr == After(fl, i) && (Size(m, fl[i]) == 0 <==> i == 0)
  }

  function After(fl: seq<nat>, i: nat): nat
    requires i < |fl|
  {
    if i + 1 < |fl| then fl[i + 1] else fl[0]
  }

  predicate Before(m: Memory, a: nat, b: nat, strict: bool) {
    a < b && (if strict then a + Size(m, a) < b else a + Size(m, a) <= b)
  }

  ghost predicate InFree(fl: seq<nat>, m: Memory, u: nat) {
    exists i :: 0 <= i < |fl| && Within(m, fl[i], u)
  }

  predicate Within(m: Memory, a: nat, u: nat) {
    a <= u < a + Size(m, a)
  }

  ghost predicate InLive(live: map<nat, nat>, u: nat) {
    exists a :: a in live && Spans(live, a, u)
  }

  predicate Spans(live: map<nat, nat>, a: nat, u: nat)
    requires a in live
  {
    a <= u < a + live[a]
  }

  predicate Off(a: nat, n: nat, b: nat, k: nat) {
    a + n <= b || b + k <= a
  }

  /** Live blocks have their sizes in their headers and are apart from each other and from the
      free blocks. */
  ghost predicate Apart(fl: seq<nat>, m: Memory, live: map<nat, nat>, base: nat) {
    Headers(m, live, base) && LiveApart(live) && FreeApart(fl, m, live)
  }

  ghost predicate Headers(m: Memory, live: map<nat, nat>, base: nat) {
    forall a :: a in live ==> Size(m, a) == live[a] && live[a] > 0 && base < a
  }

  ghost predicate LiveApart(live: map<nat, nat>) {
    forall a, b :: a in live && b in live && a != b ==> Off(a, live[a], b, live[b])
  }

  ghost predicate FreeApart(fl: seq<nat>, m: Memory, live: map<nat, nat>) {
    forall a, i :: a in live && 0 <= i < |fl| ==> fl[i] != a && Off(a, live[a], fl[i], Size(m, fl[i]))
  }

  /** Each unit got from sbrk is in a free block or in a live one. */
  ghost predicate Covers(fl: seq<nat>, m: Memory, live: map<nat, nat>, heap: set<nat>) {
    forall u: nat :: u in heap <==> InFree(fl, m, u) || InLive(live, u)
  }

  ghost predicate Heap(fl: seq<nat>, m: Memory, live: map<nat, nat>, heap: set<nat>, base: nat, strict: bool) {
    Ring(fl, m, base, strict) && Apart(fl, m, live, base) && Covers(fl, m, live, heap)
  }

  // ------------------------------------------------------------ a live block enters the list

  function Insert(fl: seq<nat>, k: nat, b: nat): seq<nat>
    requires k < |fl|
  {
    fl[..k + 1] + [b] + fl[k + 1..]
  }

  function Link(fl: seq<nat>, m: Memory, k: nat, b: nat): Memory
    requires k < |fl|
  {
    m[b := Header(After(fl, k), Size(m, b))][fl[k] := Header(b, Size(m, fl[k]))]
  }

  /** `b` belongs right after position `k`. */
  predicate Place(fl: seq<nat>, k: nat, b: nat) {
    k < |fl| && fl[k] < b && (k + 1 < |fl| ==> b < fl[k + 1])
  }

  /** The old member that is at `i` after the insertion, if that is not the new one. */
  function Old(k: nat, i: nat): nat {
    if i <= k then i else i - 1
  }

  lemma InsertAt(fl: seq<nat>, k: nat, b: nat, i: nat)
    requires k < |fl| && i < |fl| + 1
    ensures |Insert(fl, k, b)| == |fl| + 1 && Insert(fl, k, b)[i] == if i == k + 1 then b else fl[Old(k, i)]
  {
  }

  lemma LinkSizes(fl: seq<nat>, m: Memory, k: nat, b: nat, a: nat)
    requires k < |fl|
    ensures Size(Link(fl, m, k, b), a) == Size(m, a)
  {
  }

  /** Where the list's members are relative to the place. */
  lemma InsertOrder(fl: seq<nat>, m: Memory, live: map<nat, nat>, base: nat, k: nat, b: nat, i: nat)
    requires Ring(fl, m, base, true) && Apart(fl, m, live, base) && b in live && Place(fl, k, b) && i < |fl|
    ensures fl[i] != b && if i <= k then Before(m, fl[i], b, false) else Before(m, b, fl[i], false)
  {
    if i <= k {
      assert i < k ==> Before(m, fl[i], fl[k], true);
    } else {
      assert i > k + 1 ==> Before(m, fl[k + 1], fl[i], true);
    }
    assert Off(b, live[b], fl[i], Size(m, fl[i]));
  }

  lemma InsertAfter(fl: seq<nat>, m: Memory, k: nat, b: nat, i: nat)
    requires k < |fl| && i < |fl| + 1 && b != fl[k]
    requires i != k + 1 ==> fl[Old(k, i)] != b && (Old(k, i) != k ==> fl[Old(k, i)] != fl[k]) && At(m, fl[Old(k, i)]).ptr == After(fl, Old(k, i))
    ensures var r, w := Insert(fl, k, b), Link(fl, m, k, b); |r| == |fl| + 1 && At(w, r[i]).ptr == After(r, i)
  {
    InsertAt(fl, k, b, i);
    InsertAt(fl, k, b, 0);
    if i < |fl| { InsertAt(fl, k, b, i + 1); }
    hide Insert;
  }

  lemma InsertNode(fl: seq<nat>, m: Memory, live: map<nat, nat>, base: nat, k: nat, b: nat, i: nat)
    requires Ring(fl, m, base, true) && Apart(fl, m, live, base) && b in live && Place(fl, k, b) && i < |fl| + 1
    ensures var r, w := Insert(fl, k, b), Link(fl, m, k, b); |r| == |fl| + 1 && At(w, r[i]).ptr == After(r, i)
  {
    if i != k + 1 {
      var o := Old(k, i);
      InsertOrder(fl, m, live, base, k, b, o);
      assert Node(fl, m, o);
      assert o < k ==> Before(m, fl[o], fl[k], true);
      assert o > k ==> Before(m, fl[k], fl[o], true);
    }
    hide Insert, Link, After;
    InsertAfter(fl, m, k, b, i);
  }

  lemma InsertBefore(fl: seq<nat>, m: Memory, live: map<nat, nat>, base: nat, k: nat, b: nat, i: nat, j: nat)
    requires Ring(fl, m, base, true) && Apart(fl, m, live, base) && b in live && Place(fl, k, b) && i < j < |fl| + 1
    ensures var r, w := Insert(fl, k, b), Link(fl, m, k, b);
            |r| == |fl| + 1 && Before(w, r[i], r[j], i != k + 1 && j != k + 1)
  {
    InsertAt(fl, k, b, i);
    InsertAt(fl, k, b, j);
    LinkSizes(fl, m, k, b, Insert(fl, k, b)[i]);
    var o, q := Old(k, i), Old(k, j);
    if i == k + 1 {
      InsertOrder(fl, m, live, base, k, b, q);
    } else if j == k + 1 {
      InsertOrder(fl, m, live, base, k, b, o);
    } else {
      assert Before(m, fl[o], fl[q], true);
    }
  }

  lemma InsertRing(fl: seq<nat>, m: Memory, live: map<nat, nat>, base: nat, k: nat, b: nat)
    requires Ring(fl, m, base, true) && Apart(fl, m, live, base) && b in live && Place(fl, k, b)
    ensures Ring(Insert(fl, k, b), Link(fl, m, k, b), base, false)
  {
    var r, w := Insert(fl, k, b), Link(fl, m, k, b);
    InsertAt(fl, k, b, 0);
    forall i: nat | i < |r| ensures Node(r, w, i) {
      InsertNode(fl, m, live, base, k, b, i);
      InsertAt(fl, k, b, i);
      LinkSizes(fl, m, k, b, r[i]);
      if i != k + 1 { assert Node(fl, m, Old(k, i)); }
    }
    forall i: nat, j: nat | i < j < |r| ensures Before(w, r[i], r[j], false) {
      InsertBefore(fl, m, live, base, k, b, i, j);
    }
  }

  /** As a ring, except that the member at `q` may touch its neighbours. */
  ghost predicate Loose(fl: seq<nat>, m: Memory, base: nat, q: nat) {
    && Ring(fl, m, base, false)
    && (forall i, j :: 0 <= i < j < |fl| && i != q && j != q ==> Before(m, fl[i], fl[j], true))
  }

  predicate Touch(m: Memory, a: nat, b: nat) {
    a + Size(m, a) == b
  }

  lemma InsertLoose(fl: seq<nat>, m: Memory, live: map<nat, nat>, base: nat, k: nat, b: nat)
    requires Ring(fl, m, base, true) && Apart(fl, m, live, base) && b in live && Place(fl, k, b)
    ensures Loose(Insert(fl, k, b), Link(fl, m, k, b), base, k + 1)
  {
    InsertRing(fl, m, live, base, k, b);
    var r, w := Insert(fl, k, b), Link(fl, m, k, b);
    forall i: nat, j: nat | i < j < |r| && i != k + 1 && j != k + 1 ensures Before(w, r[i], r[j], true) {
      InsertBefore(fl, m, live, base, k, b, i, j);
    }
  }

  lemma InsertApart(fl: seq<nat>, m: Memory, live: map<nat, nat>, base: nat, k: nat, b: nat)
    requires Apart(fl, m, live, base) && b in live && k < |fl|
    ensures Apart(Insert(fl, k, b), Link(fl, m, k, b), live - {b}, base)
  {
    var r, w, l := Insert(fl, k, b), Link(fl, m, k, b), live - {b};
    forall a, i: nat | a in l && i < |r| ensures r[i] != a && Off(a, l[a], r[i], Size(w, r[i])) {
      InsertAt(fl, k, b, i);
      LinkSizes(fl, m, k, b, r[i]);
    }
    forall a | a in l ensures Size(w, a) == l[a] { LinkSizes(fl, m, k, b, a); }
  }

  lemma {:induction false} InsertUnits(fl: seq<nat>, m: Memory, k: nat, b: nat, u: nat)
    requires k < |fl|
    ensures InFree(Insert(fl, k, b), Link(fl, m, k, b), u) <==> InFree(fl, m, u) || Within(m, b, u)
  {
    var r, w := Insert(fl, k, b), Link(fl, m, k, b);
    forall i: nat | i < |r| ensures Within(w, r[i], u) <==> Within(m, if i == k + 1 then b else fl[Old(k, i)], u) {
      InsertAt(fl, k, b, i);
      LinkSizes(fl, m, k, b, r[i]);
    }
    InsertAt(fl, k, b, 0);
    hide Insert, Link, Size;
    if i: nat :| i < |r| && Within(w, r[i], u) {
      assert i != k + 1 ==> Within(m, fl[Old(k, i)], u);
    }
    if i: nat :| i < |fl| && Within(m, fl[i], u) {
      var j := if i <= k then i else i + 1;
      assert Old(k, j) == i && Within(w, r[j], u);
    }
    if Within(m, b, u) { assert Within(w, r[k + 1], u); }
  }

  lemma InsertLive(fl: seq<nat>, m: Memory, live: map<nat, nat>, base: nat, heap: set<nat>, k: nat, b: nat)
    requires Apart(fl, m, live, base) && Covers(fl, m, live, heap) && b in live && k < |fl|
    ensures Apart(Insert(fl, k, b), Link(fl, m, k, b), live - {b}, base)
    ensures Covers(Insert(fl, k, b), Link(fl, m, k, b), live - {b}, heap)
  {
    InsertApart(fl, m, live, base, k, b);
    var l := live - {b};
    assert Size(m, b) == live[b];
    hide Insert, Link, InFree, Apart;
    forall u: nat ensures InFree(Insert(fl, k, b), Link(fl, m, k, b), u) || InLive(l, u) <==> InFree(fl, m, u) || InLive(live, u) {
      InsertUnits(fl, m, k, b, u);
      if a :| a in live && Spans(live, a, u) { assert a != b ==> Spans(l, a, u); }
      if a :| a in l && Spans(l, a, u) { assert Spans(live, a, u); }
      if Within(m, b, u) { assert Spans(live, b, u); }
    }
  }

  // ------------------------------------------------------------ two blocks that touch become one

  function Join(fl: seq<nat>, i: nat): seq<nat>
    requires i + 1 < |fl|
  {
    fl[..i + 1] + fl[i + 2..]
  }

  function Merge(fl: seq<nat>, m: Memory, i: nat): Memory
    requires i + 1 < |fl|
  {
    m[fl[i] := Header(At(m, fl[i + 1]).ptr, Size(m, fl[i]) + Size(m, fl[i + 1]))]
  }

  /** The old member at `j` after the join. */
  function Was(i: nat, j: nat): nat {
    if j <= i then j else j + 1
  }

  lemma JoinAt(fl: seq<nat>, i: nat, j: nat)
    requires i + 1 < |fl| && j < |fl| - 1
    ensures |Join(fl, i)| == |fl| - 1 && Join(fl, i)[j] == fl[Was(i, j)]
  {
  }

  lemma JoinNode(fl: seq<nat>, m: Memory, base: nat, i: nat, j: nat)
    requires Ring(fl, m, base, false) && 0 < i && i + 1 < |fl| && j < |fl| - 1
    ensures var r, w := Join(fl, i), Merge(fl, m, i);
            |r| == |fl| - 1 && Node(r, w, j)
  {
    JoinAt(fl, i, j);
    JoinAt(fl, i, 0);
    if j + 1 < |fl| - 1 { JoinAt(fl, i, j + 1); }
    var o := Was(i, j);
    assert Node(fl, m, o) && Node(fl, m, i) && Node(fl, m, i + 1);
    assert o < i ==> Before(m, fl[o], fl[i], false);
    assert o > i ==> Before(m, fl[i], fl[o], false);
    hide Ring, Join;
  }

  lemma JoinBefore(fl: seq<nat>, m: Memory, base: nat, i: nat, j: nat, l: nat, strict: bool)
    requires Ring(fl, m, base, false) && 0 < i && i + 1 < |fl| && j < l < |fl| - 1 && Touch(m, fl[i], fl[i + 1])
    requires Before(m, fl[if j == i then i + 1 else Was(i, j)], fl[Was(i, l)], strict)
    ensures var r, w := Join(fl, i), Merge(fl, m, i); |r| == |fl| - 1 && Before(w, r[j], r[l], strict)
  {
    JoinAt(fl, i, j);
    JoinAt(fl, i, l);
    var o := Was(i, j);
    assert o < i ==> Before(m, fl[o], fl[i], false);
    assert o > i ==> Before(m, fl[i], fl[o], false);
    hide Ring, Join;
  }

  lemma JoinRing(fl: seq<nat>, m: Memory, base: nat, i: nat)
    requires Ring(fl, m, base, false) && 0 < i && i + 1 < |fl| && Touch(m, fl[i], fl[i + 1])
    ensures Ring(Join(fl, i), Merge(fl, m, i), base, false)
  {
    var r, w := Join(fl, i), Merge(fl, m, i);
    JoinAt(fl, i, 0);
    forall j: nat | j < |r| ensures Node(r, w, j) {
      JoinNode(fl, m, base, i, j);
    }
    forall j: nat, l: nat | j < l < |r| ensures Before(w, r[j], r[l], false) {
      assert Before(m, fl[if j == i then i + 1 else Was(i, j)], fl[Was(i, l)], false);
      JoinBefore(fl, m, base, i, j, l, false);
    }
  }

  /** Joining the loose member with the one above it. */
  lemma JoinUp(fl: seq<nat>, m: Memory, base: nat, q: nat)
    requires Loose(fl, m, base, q) && 0 < q && q + 1 < |fl| && Touch(m, fl[q], fl[q + 1])
    ensures Loose(Join(fl, q), Merge(fl, m, q), base, q)
    ensures var r, w := Join(fl, q), Merge(fl, m, q); q < |r| && (q + 1 < |r| ==> !Touch(w, r[q], r[q + 1]))
    ensures var r, w := Join(fl, q), Merge(fl, m, q); r[q - 1] == fl[q - 1] && r[q] == fl[q] && Size(w, r[q - 1]) == Size(m, fl[q - 1])
  {
    JoinRing(fl, m, base, q);
    var r, w := Join(fl, q), Merge(fl, m, q);
    JoinAt(fl, q, q);
    JoinAt(fl, q, q - 1);
    assert Before(m, fl[q - 1], fl[q], false);
    forall j: nat, l: nat | j < l < |r| && j != q && l != q ensures Before(w, r[j], r[l], true) {
      assert Before(m, fl[Was(q, j)], fl[Was(q, l)], true);
      JoinBefore(fl, m, base, q, j, l, true);
    }
    if q + 1 < |r| {
      assert Before(m, fl[q + 1], fl[q + 2], true);
      JoinBefore(fl, m, base, q, q, q + 1, true);
    }
  }

  /** Joining it with the one below it; it does not touch the one above. */
  lemma JoinLow(fl: seq<nat>, m: Memory, base: nat, q: nat)
    requires Loose(fl, m, base, q) && 1 < q < |fl| && Touch(m, fl[q - 1], fl[q]) && (q + 1 < |fl| ==> !Touch(m, fl[q], fl[q + 1]))
    ensures Ring(Join(fl, q - 1), Merge(fl, m, q - 1), base, true)
  {
    JoinRing(fl, m, base, q - 1);
    var r, w := Join(fl, q - 1), Merge(fl, m, q - 1);
    forall j: nat, l: nat | j < l < |r| ensures Before(w, r[j], r[l], true) {
      if j == q - 1 {
        LooseStrict(fl, m, base, q, q, Was(q - 1, l));
      } else {
        assert Before(m, fl[Was(q - 1, j)], fl[Was(q - 1, l)], true);
      }
      JoinBefore(fl, m, base, q - 1, j, l, true);
    }
  }

  /** A loose member that touches neither neighbour touches nobody. */
  lemma {:induction false} LooseStrict(fl: seq<nat>, m: Memory, base: nat, q: nat, i: nat, j: nat)
    requires Loose(fl, m, base, q) && i < j < |fl| && 0 < q < |fl|
    requires i == q && q + 1 < |fl| ==> !Touch(m, fl[q], fl[q + 1])
    requires j == q ==> !Touch(m, fl[q - 1], fl[q])
    ensures Before(m, fl[i], fl[j], true)
  {
    hide Loose;
    if i == q {
      LoosePair(fl, m, base, q, q, j);
      LoosePair(fl, m, base, q, q, q + 1);
      if j > q + 1 { LoosePair(fl, m, base, q, q + 1, j); }
    } else if j == q {
      LoosePair(fl, m, base, q, q - 1, q);
      LoosePair(fl, m, base, q, i, q);
      if i < q - 1 { LoosePair(fl, m, base, q, i, q - 1); }
    } else {
      LoosePair(fl, m, base, q, i, j);
    }
  }

  lemma LoosePair(fl: seq<nat>, m: Memory, base: nat, q: nat, i: nat, j: nat)
    requires Loose(fl, m, base, q) && i < j < |fl|
    ensures Before(m, fl[i], fl[j], i != q && j != q)
  {
  }

  lemma Tight(fl: seq<nat>, m: Memory, base: nat, q: nat)
    requires Loose(fl, m, base, q) && 0 < q < |fl| && (q + 1 < |fl| ==> !Touch(m, fl[q], fl[q + 1])) && !Touch(m, fl[q - 1], fl[q])
    ensures Ring(fl, m, base, true)
  {
    forall i: nat, j: nat | i < j < |fl| ensures Before(m, fl[i], fl[j], true) {
      LooseStrict(fl, m, base, q, i, j);
    }
  }

  lemma JoinLive(fl: seq<nat>, m: Memory, live: map<nat, nat>, base: nat, heap: set<nat>, i: nat)
    requires Ring(fl, m, base, false) && Apart(fl, m, live, base) && Covers(fl, m, live, heap)
    requires 0 < i && i + 1 < |fl| && Touch(m, fl[i], fl[i + 1])
    ensures Apart(Join(fl, i), Merge(fl, m, i), live, base) && Covers(Join(fl, i), Merge(fl, m, i), live, heap)
  {
    var r, w := Join(fl, i), Merge(fl, m, i);
    forall a, j: nat | a in live && j < |r| ensures r[j] != a && Off(a, live[a], r[j], Size(w, r[j])) {
      JoinAt(fl, i, j);
      var o := Was(i, j);
      assert fl[o] != a && Off(a, live[a], fl[o], Size(m, fl[o])) && Off(a, live[a], fl[i + 1], Size(m, fl[i + 1]));
      assert o < i ==> Before(m, fl[o], fl[i], false);
      assert o > i ==> Before(m, fl[i], fl[o], false);
    }
    forall u: nat ensures InFree(r, w, u) <==> InFree(fl, m, u) {
      JoinUnits(fl, m, base, i, u);
    }
  }

  lemma {:induction false} JoinUnits(fl: seq<nat>, m: Memory, base: nat, i: nat, u: nat)
    requires Ring(fl, m, base, false) && 0 < i && i + 1 < |fl| && Touch(m, fl[i], fl[i + 1])
    ensures InFree(Join(fl, i), Merge(fl, m, i), u) <==> InFree(fl, m, u)
  {
    var r, w := Join(fl, i), Merge(fl, m, i);
    forall j: nat | j < |r|
      ensures Within(w, r[j], u) <==> Within(m, fl[Was(i, j)], u) || (j == i && Within(m, fl[i + 1], u))
    {
      JoinAt(fl, i, j);
      var o := Was(i, j);
      assert o < i ==> Before(m, fl[o], fl[i], false);
      assert o > i ==> Before(m, fl[i], fl[o], false);
    }
    JoinAt(fl, i, 0);
    hide Join, Merge, Size, Ring;
    if j: nat :| j < |r| && Within(w, r[j], u) {
      assert Within(m, fl[Was(i, j)], u) || Within(m, fl[i + 1], u);
    }
    if o: nat :| o < |fl| && Within(m, fl[o], u) {
      var j := if o <= i then o else o - 1;
      assert Within(w, r[j], u);
    }
  }

  // ------------------------------------------------------------ free

  /** The blocks that block `b` joins, above and below. */
  predicate Up(fl: seq<nat>, m: Memory, k: nat, b: nat)
    requires k < |fl|
  {
    k + 1 < |fl| && Touch(m, b, fl[k + 1])
  }

  predicate Low(fl: seq<nat>, m: Memory, k: nat, b: nat)
    requires k < |fl|
  {
    k > 0 && Touch(m, fl[k], b)
  }

  /** The list after free of `b` at its place. */
  function FreedList(fl: seq<nat>, m: Memory, k: nat, b: nat): seq<nat>
    requires k < |fl|
  {
    fl[..k + 1] + (if Low(fl, m, k, b) then [] else [b]) + fl[if Up(fl, m, k, b) then k + 2 else k + 1..]
  }

  /** The headers after it. */
  function FreedMemory(fl: seq<nat>, m: Memory, k: nat, b: nat): Memory
    requires k < |fl|
  {
    var p, n := fl[k], After(fl, k);
    var w := if Up(fl, m, k, b) then m[b := Header(At(m, n).ptr, Size(m, b) + Size(m, n))] else m[b := Header(n, Size(m, b))];
    if Low(fl, m, k, b) then w[p := Header(At(w, b).ptr, Size(w, p) + Size(w, b))] else w[p := Header(b, Size(w, p))]
  }

  /** After the insertion and the join above, if there is one. */
  lemma FreeUpper(fl: seq<nat>, m: Memory, live: map<nat, nat>, heap: set<nat>, base: nat, k: nat, b: nat) returns (r: seq<nat>, w: Memory)
    requires Heap(fl, m, live, heap, base, true) && b in live && Place(fl, k, b)
    ensures r == fl[..k + 1] + [b] + fl[if Up(fl, m, k, b) then k + 2 else k + 1..]
    ensures At(w, fl[k]) == Header(b, Size(m, fl[k])) && Size(w, fl[k]) == Size(m, fl[k])
    ensures w == (if Up(fl, m, k, b) then m[b := Header(At(m, fl[k + 1]).ptr, Size(m, b) + Size(m, fl[k + 1]))] else m[b := Header(After(fl, k), Size(m, b))])[fl[k] := Header(b, Size(m, fl[k]))]
    ensures Loose(r, w, base, k + 1) && Apart(r, w, live - {b}, base) && Covers(r, w, live - {b}, heap)
    ensures k + 2 < |r| ==> !Touch(w, b, r[k + 2])
  {
    r, w := Insert(fl, k, b), Link(fl, m, k, b);
    InsertLoose(fl, m, live, base, k, b);
    InsertLive(fl, m, live, base, heap, k, b);
    InsertAt(fl, k, b, k + 1);
    if k + 1 < |fl| { InsertAt(fl, k, b, k + 2); }
    LinkSizes(fl, m, k, b, b);
    if Up(fl, m, k, b) {
      FreeUp(fl, m, live, base, k, b);
      JoinUp(r, w, base, k + 1);
      JoinLive(r, w, live - {b}, base, heap, k + 1);
      r, w := Join(r, k + 1), Merge(r, w, k + 1);
    }
  }

  lemma FreeUp(fl: seq<nat>, m: Memory, live: map<nat, nat>, base: nat, k: nat, b: nat)
    requires Ring(fl, m, base, true) && Apart(fl, m, live, base) && b in live && Place(fl, k, b) && Up(fl, m, k, b)
    ensures Join(Insert(fl, k, b), k + 1) == fl[..k + 1] + [b] + fl[k + 2..]
    ensures Merge(Insert(fl, k, b), Link(fl, m, k, b), k + 1)
         == m[b := Header(At(m, fl[k + 1]).ptr, Size(m, b) + Size(m, fl[k + 1]))][fl[k] := Header(b, Size(m, fl[k]))]
  {
    InsertOrder(fl, m, live, base, k, b, k);
    InsertOrder(fl, m, live, base, k, b, k + 1);
    assert Before(m, fl[k], fl[k + 1], true);
    hide Insert, Join, Link, Merge, Ring, Apart;
    UpIs(fl, m, k, b);
  }

  lemma UpIs(fl: seq<nat>, m: Memory, k: nat, b: nat)
    requires k + 1 < |fl| && b != fl[k] && b != fl[k + 1] && fl[k] != fl[k + 1]
    ensures |Insert(fl, k, b)| == |fl| + 1 && Join(Insert(fl, k, b), k + 1) == fl[..k + 1] + [b] + fl[k + 2..]
    ensures Merge(Insert(fl, k, b), Link(fl, m, k, b), k + 1)
         == m[b := Header(At(m, fl[k + 1]).ptr, Size(m, b) + Size(m, fl[k + 1]))][fl[k] := Header(b, Size(m, fl[k]))]
  {
    var r, w := Insert(fl, k, b), Link(fl, m, k, b);
    InsertAt(fl, k, b, k + 1);
    InsertAt(fl, k, b, k + 2);
    assert At(w, fl[k + 1]) == At(m, fl[k + 1]);
    LinkSizes(fl, m, k, b, b);
    assert Join(r, k + 1) == fl[..k + 1] + [b] + fl[k + 2..];
  }

  lemma LowIs(fl: seq<nat>, m: Memory, k: nat, b: nat, r: seq<nat>, w: Memory)
    requires k < |fl| && b != fl[k]
    requires r == fl[..k + 1] + [b] + fl[if Up(fl, m, k, b) then k + 2 else k + 1..]
    requires w == (if Up(fl, m, k, b) then m[b := Header(At(m, fl[k + 1]).ptr, Size(m, b) + Size(m, fl[k + 1]))] else m[b := Header(After(fl, k), Size(m, b))])[fl[k] := Header(b, Size(m, fl[k]))]
    ensures Low(fl, m, k, b) ==> Join(r, k) == FreedList(fl, m, k, b) && Merge(r, w, k) == FreedMemory(fl, m, k, b)
    ensures !Low(fl, m, k, b) ==> r == FreedList(fl, m, k, b) && w == FreedMemory(fl, m, k, b)
  {
  }

  /** free: the list stays ordered and without touching blocks, and no unit is lost. */
  lemma FreeHeap(fl: seq<nat>, m: Memory, live: map<nat, nat>, heap: set<nat>, base: nat, k: nat, b: nat)
    requires Heap(fl, m, live, heap, base, true) && b in live && Place(fl, k, b)
    ensures Heap(FreedList(fl, m, k, b), FreedMemory(fl, m, k, b), live - {b}, heap, base, true)
  {
    hide Join, Merge, FreedList, FreedMemory, Ring, Apart, Covers, After, Loose, Up;
    var r, w := FreeUpper(fl, m, live, heap, base, k, b);
    InsertOrder(fl, m, live, base, k, b, k);
    assert r[k + 1] == b && r[k] == fl[k];
    LowIs(fl, m, k, b, r, w);
    if Low(fl, m, k, b) {
      JoinLow(r, w, base, k + 1);
      JoinLive(r, w, live - {b}, base, heap, k);
    } else {
      NotLow(fl, m, base, k, b);
      Tight(r, w, base, k + 1);
    }
  }

  lemma NotLow(fl: seq<nat>, m: Memory, base: nat, k: nat, b: nat)
    requires Ring(fl, m, base, true) && Place(fl, k, b) && !Low(fl, m, k, b)
    ensures !Touch(m, fl[k], b)
  {
    assert Node(fl, m, 0);
  }

  // ------------------------------------------------------------ malloc

  /** The member at `i` leaves the list. */
  function Remove(fl: seq<nat>, i: nat): seq<nat>
    requires 0 < i < |fl|
  {
    fl[..i] + fl[i + 1..]
  }

  function Unlink(fl: seq<nat>, m: Memory, i: nat): Memory
    requires 0 < i < |fl|
  {
    m[fl[i - 1] := Header(At(m, fl[i]).ptr, Size(m, fl[i - 1]))]
  }

  lemma RemoveAt(fl: seq<nat>, i: nat, j: nat)
    requires 0 < i < |fl| && j < |fl| - 1
    ensures |Remove(fl, i)| == |fl| - 1 && Remove(fl, i)[j] == fl[if j < i then j else j + 1]
  {
  }

  lemma UnlinkSizes(fl: seq<nat>, m: Memory, i: nat, a: nat)
    requires 0 < i < |fl|
    ensures Size(Unlink(fl, m, i), a) == Size(m, a)
  {
  }

  lemma RemoveNode(fl: seq<nat>, m: Memory, base: nat, i: nat, j: nat)
    requires Ring(fl, m, base, true) && 0 < i < |fl| && j < |fl| - 1
    ensures var r, w := Remove(fl, i), Unlink(fl, m, i); |r| == |fl| - 1 && At(w, r[j]).ptr == After(r, j)
  {
    RemoveAt(fl, i, j);
    RemoveAt(fl, i, 0);
    if j + 1 < |fl| - 1 { RemoveAt(fl, i, j + 1); }
    var o := if j < i then j else j + 1;
    assert Node(fl, m, o) && Node(fl, m, i);
    assert o < i - 1 ==> Before(m, fl[o], fl[i - 1], true);
    assert o > i - 1 ==> Before(m, fl[i - 1], fl[o], true);
    hide Ring, Remove;
  }

  lemma RemoveRing(fl: seq<nat>, m: Memory, base: nat, i: nat)
    requires Ring(fl, m, base, true) && 0 < i < |fl|
    ensures Ring(Remove(fl, i), Unlink(fl, m, i), base, true)
  {
    var r, w := Remove(fl, i), Unlink(fl, m, i);
    RemoveAt(fl, i, 0);
    forall j: nat | j < |r| ensures Node(r, w, j) {
      RemoveNode(fl, m, base, i, j);
      RemoveAt(fl, i, j);
      UnlinkSizes(fl, m, i, r[j]);
      assert Node(fl, m, if j < i then j else j + 1);
    }
    forall j: nat, l: nat | j < l < |r| ensures Before(w, r[j], r[l], true) {
      RemoveAt(fl, i, j);
      RemoveAt(fl, i, l);
      UnlinkSizes(fl, m, i, r[j]);
    }
  }

  /** An exact fit: the whole block goes to the caller. */
  lemma RemoveHeap(fl: seq<nat>, m: Memory, live: map<nat, nat>, heap: set<nat>, base: nat, i: nat)
    requires Heap(fl, m, live, heap, base, true) && 0 < i < |fl|
    ensures fl[i] !in live && Heap(Remove(fl, i), Unlink(fl, m, i), live[fl[i] := Size(m, fl[i])], heap, base, true)
  {
    var r, w, b := Remove(fl, i), Unlink(fl, m, i), fl[i];
    var l := live[b := Size(m, b)];
    RemoveRing(fl, m, base, i);
    RemoveApart(fl, m, live, base, i);
    hide Ring, Apart, Remove, Unlink, InFree;
    forall u: nat ensures InFree(r, w, u) || InLive(l, u) <==> InFree(fl, m, u) || InLive(live, u) {
      RemoveUnits(fl, m, i, u);
      if a :| a in l && Spans(l, a, u) { assert a != b ==> Spans(live, a, u); }
      if a :| a in live && Spans(live, a, u) { assert Spans(l, a, u); }
      if Within(m, b, u) { assert Spans(l, b, u); }
    }
  }

  lemma RemoveApart(fl: seq<nat>, m: Memory, live: map<nat, nat>, base: nat, i: nat)
    requires Ring(fl, m, base, true) && Apart(fl, m, live, base) && 0 < i < |fl|
    ensures fl[i] !in live && Apart(Remove(fl, i), Unlink(fl, m, i), live[fl[i] := Size(m, fl[i])], base)
  {
    var r, w, b := Remove(fl, i), Unlink(fl, m, i), fl[i];
    var l := live[b := Size(m, b)];
    assert Before(m, fl[0], fl[i], true) && Node(fl, m, i);
    forall a | a in l ensures Size(w, a) == l[a] && l[a] > 0 && base < a { UnlinkSizes(fl, m, i, a); }
    forall a, j: nat | a in l && j < |r| ensures r[j] != a && Off(a, l[a], r[j], Size(w, r[j])) {
      RemoveAt(fl, i, j);
      UnlinkSizes(fl, m, i, r[j]);
      var o := if j < i then j else j + 1;
      assert o < i ==> Before(m, fl[o], fl[i], true);
      assert o > i ==> Before(m, fl[i], fl[o], true);
    }
  }

  lemma {:induction false} RemoveUnits(fl: seq<nat>, m: Memory, i: nat, u: nat)
    requires 0 < i < |fl|
    ensures InFree(fl, m, u) <==> InFree(Remove(fl, i), Unlink(fl, m, i), u) || Within(m, fl[i], u)
  {
    var r, w := Remove(fl, i), Unlink(fl, m, i);
    forall j: nat | j < |r| ensures Within(w, r[j], u) <==> Within(m, fl[if j < i then j else j + 1], u) {
      RemoveAt(fl, i, j);
      UnlinkSizes(fl, m, i, r[j]);
    }
    RemoveAt(fl, i, 0);
    hide Remove, Unlink, Size;
    if o: nat :| o < |fl| && Within(m, fl[o], u) {
      if o != i {
        var j := if o < i then o else o - 1;
        assert Within(w, r[j], u);
      }
    }
    if j: nat :| j < |r| && Within(w, r[j], u) {
      assert Within(m, fl[if j < i then j else j + 1], u);
    }
  }

  /** A larger block gives up its end. */
  function Cut(m: Memory, p: nat, n: nat): Memory
    requires n < Size(m, p)
  {
    var q := p + (Size(m, p) - n);
    m[p := Header(At(m, p).ptr, Size(m, p) - n)][q := Header(At(m, q).ptr, n)]
  }

  lemma CutSizes(m: Memory, p: nat, n: nat, a: nat)
    requires 0 < n < Size(m, p)
    ensures Size(Cut(m, p, n), a) == if a == p then Size(m, p) - n else if a == p + (Size(m, p) - n) then n else Size(m, a)
    ensures At(Cut(m, p, n), a).ptr == At(m, a).ptr
  {
  }

  lemma CutHeap(fl: seq<nat>, m: Memory, live: map<nat, nat>, heap: set<nat>, base: nat, i: nat, n: nat)
    requires Heap(fl, m, live, heap, base, true) && i < |fl| && 0 < n < Size(m, fl[i])
    ensures var q := fl[i] + (Size(m, fl[i]) - n);
            q !in live && Heap(fl, Cut(m, fl[i], n), live[q := n], heap, base, true)
  {
    var p, w := fl[i], Cut(m, fl[i], n);
    var q := p + (Size(m, p) - n);
    CutApart(fl, m, live, base, i, n);
    CutRing(fl, m, base, i, n);
    hide Ring, Apart, Cut, InFree, Size;
    forall u: nat ensures InFree(fl, w, u) || InLive(live[q := n], u) <==> InFree(fl, m, u) || InLive(live, u) {
      CutUnits(fl, m, live, base, i, n, u);
    }
  }

  lemma CutOthers(fl: seq<nat>, m: Memory, base: nat, i: nat, n: nat, j: nat)
    requires Ring(fl, m, base, true) && i < |fl| && j < |fl| && i != j && 0 < n < Size(m, fl[i])
    ensures fl[j] != fl[i] && fl[j] != fl[i] + (Size(m, fl[i]) - n)
    ensures Off(fl[i], Size(m, fl[i]), fl[j], Size(m, fl[j]))
  {
    assert j < i ==> Before(m, fl[j], fl[i], true);
    assert j > i ==> Before(m, fl[i], fl[j], true);
  }

  lemma CutRing(fl: seq<nat>, m: Memory, base: nat, i: nat, n: nat)
    requires Ring(fl, m, base, true) && i < |fl| && 0 < n < Size(m, fl[i])
    ensures Ring(fl, Cut(m, fl[i], n), base, true)
  {
    var w := Cut(m, fl[i], n);
    forall j: nat | j < |fl| ensures Node(fl, w, j) && Size(w, fl[j]) <= Size(m, fl[j]) {
      assert Node(fl, m, j);
      CutSizes(m, fl[i], n, fl[j]);
      if j != i { CutOthers(fl, m, base, i, n, j); }
    }
    hide Cut;
    forall j: nat, l: nat | j < l < |fl| ensures Before(w, fl[j], fl[l], true) {
      assert Before(m, fl[j], fl[l], true) && Size(w, fl[j]) <= Size(m, fl[j]);
    }
  }

  /** Where a live block is relative to the block that is cut. */
  lemma LiveOff(fl: seq<nat>, m: Memory, live: map<nat, nat>, base: nat, i: nat, n: nat, a: nat)
    requires Ring(fl, m, base, true) && Apart(fl, m, live, base) && i < |fl| && 0 < n < Size(m, fl[i]) && a in live
    ensures var q := fl[i] + (Size(m, fl[i]) - n); a != q && a != fl[i] && Off(a, live[a], fl[i], Size(m, fl[i])) && Off(a, live[a], q, n)
    ensures Size(m, a) == live[a] && live[a] > 0 && base < a
  {
    assert Off(a, live[a], fl[i], Size(m, fl[i]));
  }

  lemma CutHeaders(fl: seq<nat>, m: Memory, live: map<nat, nat>, base: nat, i: nat, n: nat)
    requires Ring(fl, m, base, true) && Apart(fl, m, live, base) && i < |fl| && 0 < n < Size(m, fl[i])
    ensures var q := fl[i] + (Size(m, fl[i]) - n);
            q !in live && Headers(Cut(m, fl[i], n), live[q := n], base)
  {
    var p, q := fl[i], fl[i] + (Size(m, fl[i]) - n);
    forall a | a in live ensures a != q && a != p && Size(m, a) == live[a] && live[a] > 0 && base < a { LiveOff(fl, m, live, base, i, n, a); }
    assert Node(fl, m, i) && Node(fl, m, 0);
    assert i > 0 ==> Before(m, fl[0], p, true);
    hide Ring, Apart;
    forall a | a in live[q := n] ensures Size(Cut(m, p, n), a) == live[q := n][a] { CutSizes(m, p, n, a); }
  }

  lemma CutApart(fl: seq<nat>, m: Memory, live: map<nat, nat>, base: nat, i: nat, n: nat)
    requires Ring(fl, m, base, true) && Apart(fl, m, live, base) && i < |fl| && 0 < n < Size(m, fl[i])
    ensures var q := fl[i] + (Size(m, fl[i]) - n); q !in live && Apart(fl, Cut(m, fl[i], n), live[q := n], base)
  {
    hide Headers, LiveApart, FreeApart, Ring, Cut, Size;
    CutHeaders(fl, m, live, base, i, n);
    CutLive(fl, m, live, base, i, n);
    CutFree(fl, m, live, base, i, n);
  }

  lemma CutLive(fl: seq<nat>, m: Memory, live: map<nat, nat>, base: nat, i: nat, n: nat)
    requires Ring(fl, m, base, true) && Apart(fl, m, live, base) && i < |fl| && 0 < n < Size(m, fl[i])
    ensures LiveApart(live[fl[i] + (Size(m, fl[i]) - n) := n])
  {
    var l := live[fl[i] + (Size(m, fl[i]) - n) := n];
    hide Ring, Apart, Off;
    forall a, b | a in l && b in l && a != b ensures Off(a, l[a], b, l[b]) {
      CutPair(fl, m, live, base, i, n, a, b);
    }
  }

  lemma CutFree(fl: seq<nat>, m: Memory, live: map<nat, nat>, base: nat, i: nat, n: nat)
    requires Ring(fl, m, base, true) && Apart(fl, m, live, base) && i < |fl| && 0 < n < Size(m, fl[i])
    ensures FreeApart(fl, Cut(m, fl[i], n), live[fl[i] + (Size(m, fl[i]) - n) := n])
  {
    var w, l := Cut(m, fl[i], n), live[fl[i] + (Size(m, fl[i]) - n) := n];
    hide Ring, Apart, Off, Cut;
    forall a, j: nat | a in l && j < |fl| ensures fl[j] != a && Off(a, l[a], fl[j], Size(w, fl[j])) {
      CutOff(fl, m, live, base, i, n, a, j);
    }
  }

  lemma {:induction false} CutPair(fl: seq<nat>, m: Memory, live: map<nat, nat>, base: nat, i: nat, n: nat, a: nat, b: nat)
    requires Ring(fl, m, base, true) && Apart(fl, m, live, base) && i < |fl| && 0 < n < Size(m, fl[i])
    requires var l := live[fl[i] + (Size(m, fl[i]) - n) := n]; a in l && b in l && a != b
    ensures var l := live[fl[i] + (Size(m, fl[i]) - n) := n]; Off(a, l[a], b, l[b])
  {
    var q := fl[i] + (Size(m, fl[i]) - n);
    if a != q { LiveOff(fl, m, live, base, i, n, a); }
    if b != q { LiveOff(fl, m, live, base, i, n, b); }
    assert a != q && b != q ==> Off(a, live[a], b, live[b]);
    hide Ring, Apart;
  }

  lemma {:induction false} CutOff(fl: seq<nat>, m: Memory, live: map<nat, nat>, base: nat, i: nat, n: nat, a: nat, j: nat)
    requires Ring(fl, m, base, true) && Apart(fl, m, live, base) && i < |fl| && 0 < n < Size(m, fl[i]) && j < |fl|
    requires a in live[fl[i] + (Size(m, fl[i]) - n) := n]
    ensures var l := live[fl[i] + (Size(m, fl[i]) - n) := n]; fl[j] != a && Off(a, l[a], fl[j], Size(Cut(m, fl[i], n), fl[j]))
  {
    var p, q := fl[i], fl[i] + (Size(m, fl[i]) - n);
    CutSizes(m, p, n, fl[j]);
    if j != i { CutOthers(fl, m, base, i, n, j); }
    if a != q {
      LiveOff(fl, m, live, base, i, n, a);
      assert Off(a, live[a], fl[j], Size(m, fl[j]));
    }
    hide Cut, Ring, Apart;
  }

  lemma {:induction false} CutUnits(fl: seq<nat>, m: Memory, live: map<nat, nat>, base: nat, i: nat, n: nat, u: nat)
    requires Ring(fl, m, base, true) && i < |fl| && 0 < n < Size(m, fl[i])
    requires fl[i] + (Size(m, fl[i]) - n) !in live
    ensures var q := fl[i] + (Size(m, fl[i]) - n);
            InFree(fl, Cut(m, fl[i], n), u) || InLive(live[q := n], u) <==> InFree(fl, m, u) || InLive(live, u)
  {
    var p, w := fl[i], Cut(m, fl[i], n);
    var q := p + (Size(m, p) - n);
    var l := live[q := n];
    forall j: nat | j < |fl| ensures Within(w, fl[j], u) <==> Within(m, fl[j], u) && !(j == i && q <= u) {
      CutSizes(m, p, n, fl[j]);
      if j != i { CutOthers(fl, m, base, i, n, j); }
    }
    assert Spans(l, q, u) <==> Within(m, p, u) && q <= u;
    hide Ring, Cut, Size;
    if j: nat :| j < |fl| && Within(m, fl[j], u) {
      assert Within(w, fl[j], u) || Spans(l, q, u);
    }
    if a :| a in l && Spans(l, a, u) { assert a != q ==> Spans(live, a, u); }
    if a :| a in live && Spans(live, a, u) { assert Spans(l, a, u); }
  }

  // ------------------------------------------------------------ morecore

  /** A block of fresh units joins the live blocks, as if it had just been handed out. */
  lemma FreshHeap(fl: seq<nat>, m: Memory, live: map<nat, nat>, heap: set<nat>, base: nat, a: nat, n: nat, h: set<nat>)
    requires Heap(fl, m, live, heap, base, true) && n > 0 && base < a
    requires (forall u :: u in heap ==> u < a) && (forall u: nat :: u in h <==> a <= u < a + n)
    ensures a !in live && a !in fl && Heap(fl, m[a := Header(At(m, a).ptr, n)], live[a := n], heap + h, base, true)
    ensures forall i :: 0 <= i < |fl| ==> fl[i] < a
  {
    forall i: nat | i < |fl| ensures fl[i] + Size(m, fl[i]) <= a && fl[i] < a { FreeBelow(fl, m, live, heap, base, a, i); }
    forall b | b in live ensures b + live[b] <= a && b < a { LiveBelow(fl, m, live, heap, base, a, b); }
    hide Ring, Covers, Apart;
    FreshUnits(fl, m, live, a, n, heap, h);
    FreshRing(fl, m, base, a, n);
    FreshApart(fl, m, live, base, a, n);
  }

  lemma FreshApart(fl: seq<nat>, m: Memory, live: map<nat, nat>, base: nat, a: nat, n: nat)
    requires Apart(fl, m, live, base) && n > 0 && base < a
    requires forall i: nat :: i < |fl| ==> fl[i] + Size(m, fl[i]) <= a && fl[i] < a
    requires forall b :: b in live ==> b + live[b] <= a && b < a
    ensures Apart(fl, m[a := Header(At(m, a).ptr, n)], live[a := n], base)
  {
    var w, l := m[a := Header(At(m, a).ptr, n)], live[a := n];
    assert Headers(w, l, base);
    assert LiveApart(l);
    assert FreeApart(fl, w, l);
  }

  lemma FreeBelow(fl: seq<nat>, m: Memory, live: map<nat, nat>, heap: set<nat>, base: nat, a: nat, i: nat)
    requires Heap(fl, m, live, heap, base, true) && base < a && (forall u :: u in heap ==> u < a) && i < |fl|
    ensures fl[i] + Size(m, fl[i]) <= a && fl[i] < a
  {
    assert Node(fl, m, i);
    if i > 0 {
      var u := fl[i] + Size(m, fl[i]) - 1;
      assert Within(m, fl[i], u) && Within(m, fl[i], fl[i]);
      hide Ring, Apart;
      assert InFree(fl, m, u) && InFree(fl, m, fl[i]);
    }
  }

  lemma LiveBelow(fl: seq<nat>, m: Memory, live: map<nat, nat>, heap: set<nat>, base: nat, a: nat, b: nat)
    requires Heap(fl, m, live, heap, base, true) && (forall u :: u in heap ==> u < a) && b in live
    ensures b + live[b] <= a && b < a
  {
    var u := b + live[b] - 1;
    assert Spans(live, b, u);
    hide Ring;
    assert InLive(live, u);
  }

  lemma FreshRing(fl: seq<nat>, m: Memory, base: nat, a: nat, n: nat)
    requires Ring(fl, m, base, true) && forall i :: 0 <= i < |fl| ==> fl[i] < a
    ensures Ring(fl, m[a := Header(At(m, a).ptr, n)], base, true)
  {
    var w := m[a := Header(At(m, a).ptr, n)];
    forall i: nat | i < |fl| ensures Node(fl, w, i) && Size(w, fl[i]) == Size(m, fl[i]) {
      assert Node(fl, m, i);
    }
    forall i: nat, j: nat | i < j < |fl| ensures Before(w, fl[i], fl[j], true) {
      assert Before(m, fl[i], fl[j], true);
    }
  }

  lemma FreshUnits(fl: seq<nat>, m: Memory, live: map<nat, nat>, a: nat, n: nat, heap: set<nat>, h: set<nat>)
    requires Covers(fl, m, live, heap) && a !in live && a !in fl && (forall u: nat :: u in h <==> a <= u < a + n)
    ensures Covers(fl, m[a := Header(At(m, a).ptr, n)], live[a := n], heap + h)
  {
    var w, l := m[a := Header(At(m, a).ptr, n)], live[a := n];
    forall u: nat ensures InFree(fl, w, u) || InLive(l, u) <==> InFree(fl, m, u) || InLive(live, u) || a <= u < a + n {
      forall i: nat | i < |fl| ensures Within(w, fl[i], u) <==> Within(m, fl[i], u) { }
      if b :| b in l && Spans(l, b, u) { assert b != a ==> Spans(live, b, u); }
      if b :| b in live && Spans(live, b, u) { assert Spans(l, b, u); }
      assert Spans(l, a, u) <==> a <= u < a + n;
    }
  }

  // ------------------------------------------------------------ the searches

  /** Where free's search stops, and that it stops nowhere else. */
  predicate Stops(m: Memory, p: nat, b: nat) {
    var n := At(m, p).ptr;
    (b > p && b < n) || (p >= n && (b > p || b < n))
  }

  lemma {:induction false} PlaceExists(fl: seq<nat>, b: nat, n: nat) returns (k: nat)
    requires 0 < n <= |fl| && fl[0] < b && (forall i, j :: 0 <= i < j < |fl| ==> fl[i] < fl[j]) && b !in fl
    requires n < |fl| ==> b < fl[n]
    ensures Place(fl, k, b)
  {
    if fl[n - 1] < b {
      k := n - 1;
    } else {
      assert fl[n - 1] in fl;
      k := PlaceExists(fl, b, n - 1);
    }
  }

  lemma StopsAt(fl: seq<nat>, m: Memory, base: nat, k: nat, b: nat, i: nat)
    requires Ring(fl, m, base, true) && Place(fl, k, b) && base < b && i < |fl| && b !in fl
    ensures Stops(m, fl[i], b) <==> i == k
  {
    assert Node(fl, m, i);
    assert i + 1 < |fl| ==> Before(m, fl[i], fl[i + 1], true);
    assert 0 < i ==> Before(m, fl[0], fl[i], true);
    assert i < k ==> Before(m, fl[i], fl[k], true);
    assert i + 1 < k ==> Before(m, fl[i + 1], fl[k], true);
    assert k + 1 < i ==> Before(m, fl[k + 1], fl[i], true);
  }

  /** The freed block is now inside a block at least as large. */
  /** The block at `a` has the `n` units from `b` on. */
  predicate Holds(m: Memory, a: nat, b: nat, n: nat) {
    a <= b && b + n <= a + Size(m, a)
  }

  /** Some block of the list `r` has the `n` units from `b` on; the others were in `fl`, as large. */
  ghost predicate Received(fl: seq<nat>, m: Memory, r: seq<nat>, w: Memory, b: nat, n: nat) {
    && (exists j :: 0 <= j < |r| && Holds(w, r[j], b, n))
    && (forall j :: 0 <= j < |r| ==> Holds(w, r[j], b, n) || (r[j] in fl && Size(w, r[j]) == Size(m, r[j])))
  }

  lemma FreedFits(fl: seq<nat>, m: Memory, k: nat, b: nat)
    requires k < |fl| && b !in fl && forall i, j :: 0 <= i < j < |fl| ==> fl[i] < fl[j]
    ensures var r, w := FreedList(fl, m, k, b), FreedMemory(fl, m, k, b);
            k < |r| && r[k] == fl[k] && Received(fl, m, r, w, b, Size(m, b))
  {
    var r, w := FreedList(fl, m, k, b), FreedMemory(fl, m, k, b);
    var low, up := Low(fl, m, k, b), Up(fl, m, k, b);
    assert fl[k] in fl;
    if low {
      assert r[k] == fl[k] && Holds(w, r[k], b, Size(m, b));
    } else {
      assert r[k + 1] == b && Holds(w, r[k + 1], b, Size(m, b));
    }
    forall j | 0 <= j < |r| ensures Holds(w, r[j], b, Size(m, b)) || (r[j] in fl && Size(w, r[j]) == Size(m, r[j])) {
      var i := if j <= k then j else j - (if low then 0 else 1) + (if up then 1 else 0);
      if low || j != k + 1 { assert r[j] == fl[i]; }
    }
  }
}
