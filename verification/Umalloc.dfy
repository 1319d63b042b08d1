/** malloc and free of umalloc.c. */
module Umalloc {
  import opened Params
  import opened Sets
  import opened Options
  import opened FreeList

  /** Headers of 8 bytes for a request: its bytes rounded up, and one for the header itself, in
      32-bit arithmetic. */
  function Units(nbytes: nat): (n: nat)
    ensures 0 < n <= UINT / 8
  {
    (nbytes + 7) % UINT / 8 + 1
  }

  /** The block holds the request exactly if the rounding does not wrap. */
  lemma UnitsEnough(nbytes: nat)
    requires nbytes < UINT
    ensures 8 * (Units(nbytes) - 1) >= nbytes <==> nbytes <= UINT - 8
  {
  }

  /** The argument that morecore gives to sbrk, as the signed number that sbrk takes. */
  function SbrkArg(nu: nat): int {
    var n := nu * 8 % UINT;
    if n < UINT / 2 then n else n - UINT
  }

  /** It is the size of the block exactly if that is below 2^31 bytes. */
  lemma SbrkArgRight(nu: nat)
    requires 0 < nu <= UINT / 8
    ensures SbrkArg(nu) == nu * 8 <==> nu < UINT / 16
    ensures nu >= UINT / 16 ==> SbrkArg(nu) <= 0
  {
  }

  class Allocator {
    const base: nat
    var mem: Memory
    var freep: nat
    ghost var fl: seq<nat>
    ghost var live: map<nat, nat>
    ghost var heap: set<nat>

    constructor (base: nat)
      requires base > 0
      ensures Valid() && this.base == base && live == map[] && heap == {}
    {
      this.base, mem, freep, fl, live, heap := base, map[], 0, [], map[], {};
    }

    /** Before the first call there is nothing; after it the free list is circular, ordered and
        coalesced, and every unit is free or in exactly one live block. */
    ghost predicate Valid()
      reads this
    {
      && base > 0
      && (freep == 0 ==> live == map[] && heap == {})
      && (freep != 0 ==> freep in fl && Heap(fl, mem, live, heap, base, true))
    }

    /** The search of free: the block after which `bp` belongs, the highest free one below it. */
    method FindPlace(bp: nat) returns (p: nat, ghost k: nat)
      requires Valid() && freep != 0 && bp in live
      ensures Place(fl, k, bp) && p == fl[k]
      ensures p < bp && forall i :: 0 <= i < |fl| && fl[i] < bp ==> fl[i] <= p
    {
      LiveFacts(bp);
      k := PlaceExists(fl, bp, |fl|);
      p := freep;
      ghost var i: nat :| i < |fl| && fl[i] == p;
      StopsHere(k, bp, i);
      hide Heap;
      while !(bp > p && bp < At(mem, p).ptr)
        invariant i < |fl| && fl[i] == p
        invariant Stops(mem, p, bp) <==> i == k
        decreases if i <= k then k - i else k - i + |fl|
      {
        if p >= At(mem, p).ptr && (bp > p || bp < At(mem, p).ptr) {
          break;
        }
        NextNode(i);
        p := At(mem, p).ptr;
        i := if i + 1 < |fl| then i + 1 else 0;
        StopsHere(k, bp, i);
      }
    }

    lemma LiveFacts(bp: nat)
      requires Valid() && freep != 0 && bp in live
      ensures |fl| > 0 && fl[0] == base < bp && bp !in fl && (forall i, j :: 0 <= i < j < |fl| ==> fl[i] < fl[j])
      ensures Size(mem, bp) == live[bp]
    {
      forall i, j | 0 <= i < j < |fl| ensures fl[i] < fl[j] {
        assert Before(mem, fl[i], fl[j], true);
      }
    }

    lemma NextNode(i: nat)
      requires Valid() && freep != 0 && i < |fl|
      ensures At(mem, fl[i]).ptr == After(fl, i)
    {
      assert Node(fl, mem, i);
    }

    lemma StopsHere(k: nat, bp: nat, i: nat)
      requires Valid() && freep != 0 && bp in live && Place(fl, k, bp) && i < |fl|
      ensures Stops(mem, fl[i], bp) <==> i == k
    {
      LiveFacts(bp);
      StopsAt(fl, mem, base, k, bp, i);
    }

    /** free of a block that malloc gave out: it joins the list, and its neighbours there. */
    method Free(ap: nat)
      requires Valid() && ap > 0 && ap - 1 in live
      modifies this
      ensures Valid() && freep != 0 && live == old(live) - {ap - 1} && heap == old(heap)
      ensures Received(old(fl), old(mem), fl, mem, ap - 1, old(live)[ap - 1])
    {
      hide Heap, FreedList, Received;
      var bp := ap - 1;
      LiveFacts(bp);
      var p, k := FindPlace(bp);
      var w := Rewire(p, bp, k);
      freep := p;
      fl, mem, live := FreedList(fl, mem, k, bp), w, live - {bp};
      assert fl[k] == p;
    }

    /** What free writes into the headers of `bp`, of its successor-to-be and of `p` before it: with
        the block in the list, joined to its neighbours there, every unit is accounted for again, and
        `p` is still in the list. */
    method Rewire(p: nat, bp: nat, ghost k: nat) returns (w: Memory)
      requires Valid() && freep != 0 && bp in live && Place(fl, k, bp) && p == fl[k]
      ensures Heap(FreedList(fl, mem, k, bp), w, live - {bp}, heap, base, true)
      ensures var r := FreedList(fl, mem, k, bp); k < |r| && r[k] == p && Received(fl, mem, r, w, bp, live[bp])
    {
      LiveFacts(bp);
      FreeHeap(fl, mem, live, heap, base, k, bp);
      PlaceFacts(k, bp);
      FreedFits(fl, mem, k, bp);
      hide Heap, FreedList, Up, Low, Place, After, Touch, Received;
      w := mem;
      var next := At(w, p).ptr;
      if bp + Size(w, bp) == next {
        w := w[bp := Header(At(w, next).ptr, Size(w, bp) + Size(w, next))];
      } else {
        w := w[bp := Header(next, Size(w, bp))];
      }
      if p + Size(w, p) == bp {
        w := w[p := Header(At(w, bp).ptr, Size(w, p) + Size(w, bp))];
      } else {
        w := w[p := Header(bp, Size(w, p))];
      }
      assert w == FreedMemory(fl, mem, k, bp);
    }

    lemma PlaceFacts(k: nat, bp: nat)
      requires Valid() && freep != 0 && bp in live && Place(fl, k, bp)
      ensures At(mem, fl[k]).ptr == After(fl, k) && fl[k] != bp && (k + 1 < |fl| ==> fl[k] != fl[k + 1])
      ensures bp + Size(mem, bp) == After(fl, k) <==> Up(fl, mem, k, bp)
      ensures fl[k] + Size(mem, fl[k]) == bp <==> Low(fl, mem, k, bp)
      ensures fl[k] > 0
    {
      LiveFacts(bp);
      NextNode(k);
      assert Node(fl, mem, 0);
    }

    /** morecore: at least 4096 headers from sbrk, whose answer is `grant`, go through free. */
    method Morecore(nu: nat, grant: Option<nat>) returns (ok: bool)
      requires Valid() && freep != 0 && nu > 0 && (grant.Some? ==> base < grant.value && forall u :: u in heap ==> u < grant.value)
      modifies this
      ensures Valid() && freep != 0 && live == old(live) && ok == grant.Some?
      ensures !ok ==> fl == old(fl) && mem == old(mem) && freep == old(freep) && heap == old(heap)
      ensures ok ==> heap == old(heap) + Span(grant.value, grant.value + Asked(nu)) && Received(old(fl), old(mem), fl, mem, grant.value, Asked(nu))
      ensures ok ==> forall j :: 0 <= j < |fl| && Holds(mem, fl[j], grant.value, Asked(nu)) ==> fl[j] + Size(mem, fl[j]) == grant.value + Asked(nu)
    {
      var n := if nu < 4096 then 4096 else nu;
      if grant.None? {
        return false;
      }
      var hp := grant.value;
      FreshHeap(fl, mem, live, heap, base, hp, n, Span(hp, hp + n));
      InAndOut(live, hp, n);
      BelowGrant(hp);
      hide Heap, Size, Span, Received;
      ghost var list, m := fl, mem;
      mem := mem[hp := Header(At(mem, hp).ptr, n)];
      live, heap := live[hp := n], heap + Span(hp, hp + n);
      ghost var w := mem;
      Free(hp + 1);
      assert live == old(live);
      SameReceived(list, m, w, fl, mem, hp, n);
      EndsThere(hp, n);
      return true;
    }

    lemma BelowGrant(hp: nat)
      requires Valid() && freep != 0 && base < hp && forall u :: u in heap ==> u < hp
      ensures hp !in fl
    {
      if i: nat :| i < |fl| && fl[i] == hp {
        assert Node(fl, mem, i);
        assert InFree(fl, mem, hp) by { assert Within(mem, fl[i], hp); }
      }
    }

    /** The block with the fresh units ends with them: there is nothing above. */
    lemma EndsThere(hp: nat, n: nat)
      requires Valid() && freep != 0 && n > 0 && forall u :: u in heap ==> u < hp + n
      ensures forall j :: 0 <= j < |fl| && Holds(mem, fl[j], hp, n) ==> fl[j] + Size(mem, fl[j]) == hp + n
    {
      forall j | 0 <= j < |fl| && Holds(mem, fl[j], hp, n) ensures fl[j] + Size(mem, fl[j]) == hp + n {
        var u := fl[j] + Size(mem, fl[j]) - 1;
        assert Within(mem, fl[j], u);
        assert InFree(fl, mem, u);
      }
    }

    /** The part of malloc that takes a block from the list: the whole of it, or its end. */
    method Take(prevp: nat, p: nat, nunits: nat, ghost c: nat) returns (r: nat)
      requires Valid() && freep != 0 && 0 < c < |fl| && fl[c] == p && fl[c - 1] == prevp && 0 < nunits <= Size(mem, p)
      modifies this
      ensures Valid() && freep == prevp && r > 0 && r - 1 !in old(live) && live == old(live)[r - 1 := nunits] && heap == old(heap)
      ensures r - 1 + nunits == p + old(Size(mem, p))
    {
      if Size(mem, p) == nunits {
        r := TakeAll(prevp, p, c);
      } else {
        r := TakeEnd(prevp, p, nunits, c);
      }
    }

    method TakeAll(prevp: nat, p: nat, ghost c: nat) returns (r: nat)
      requires Valid() && freep != 0 && 0 < c < |fl| && fl[c] == p && fl[c - 1] == prevp
      modifies this
      ensures Valid() && freep == prevp > 0 && r == p + 1 && p !in old(live) && live == old(live)[p := old(Size(mem, p))] && heap == old(heap)
    {
      BaseFirst(c);
      RemoveHeap(fl, mem, live, heap, base, c);
      RemoveAt(fl, c, c - 1);
      hide Heap, Remove;
      assert Unlink(fl, mem, c) == mem[prevp := Header(At(mem, p).ptr, Size(mem, prevp))];
      live := live[p := Size(mem, p)];
      mem := mem[prevp := Header(At(mem, p).ptr, Size(mem, prevp))];
      fl := Remove(fl, c);
      assert fl[c - 1] == prevp;
      freep := prevp;
      r := p + 1;
    }

    method TakeEnd(prevp: nat, p: nat, nunits: nat, ghost c: nat) returns (r: nat)
      requires Valid() && freep != 0 && 0 < c < |fl| && fl[c] == p && fl[c - 1] == prevp && 0 < nunits < Size(mem, p)
      modifies this
      ensures Valid() && freep == prevp > 0 && r == p + (old(Size(mem, p)) - nunits) + 1
      ensures r - 1 !in old(live) && live == old(live)[r - 1 := nunits] && heap == old(heap)
    {
      BaseFirst(c);
      CutHeap(fl, mem, live, heap, base, c, nunits);
      hide Heap;
      ghost var w := Cut(mem, p, nunits);
      var rest := Size(mem, p) - nunits;
      mem := mem[p := Header(At(mem, p).ptr, rest)];
      var q := p + rest;
      mem := mem[q := Header(At(mem, q).ptr, nunits)];
      assert mem == w;
      live := live[q := nunits];
      freep := prevp;
      r := q + 1;
    }

    /** The first call makes the list: the empty block alone. */
    method Init()
      requires Valid() && freep == 0
      modifies this
      ensures Valid() && freep != 0 && live == old(live) && heap == old(heap)
      ensures fl == [base] && Size(mem, base) == 0
    {
      mem := mem[base := Header(base, 0)];
      freep, fl := base, [base];
      assert Node(fl, mem, 0);
      assert fl[0] == base;
      forall u: nat ensures !InFree(fl, mem, u) && !InLive(live, u) { }
    }

    /** malloc: the address after the header of a block of its own, or none when the list has no
        block that is large enough and sbrk gives nothing.  It asks sbrk at most once; `grant` is
        the answer. */
    method Malloc(nbytes: nat, grant: Option<nat>) returns (r: Option<nat>)
      requires Valid() && nbytes < UINT
      requires grant.Some? ==> base < grant.value && forall u :: u in heap ==> u < grant.value
      modifies this
      ensures Valid() && old(heap) <= heap
      ensures r.Some? ==> r.value > 0 && r.value - 1 !in old(live) && live == old(live)[r.value - 1 := Units(nbytes)]
      ensures r.Some? && old(HasBlock(Units(nbytes))) ==> heap == old(heap)
      ensures r.Some? && !old(HasBlock(Units(nbytes))) ==> grant.Some? && r.value - 1 + Units(nbytes) == grant.value + Asked(Units(nbytes))
      ensures r.Some? && !old(HasBlock(Units(nbytes))) ==>
                (Span(r.value - 1, r.value - 1 + Units(nbytes)) <= Granted(grant.value, SbrkArg(Asked(Units(nbytes)))) <==> Units(nbytes) < UINT / 16)
      ensures r.None? ==> live == old(live) && heap == old(heap) && grant.None? && forall j :: 0 <= j < |fl| ==> Size(mem, fl[j]) < Units(nbytes)
    {
      hide Heap, Received, Holds, HasBlock, EndsAt, SmallSoFar, LargeAhead, Units, Span, Granted, SbrkArg, Asked;
      var nunits := Units(nbytes);
      NotYet(nunits);
      if freep == 0 {
        Init();
        NoneLarge(nunits);
      }
      var prevp := freep;
      ghost var i: nat :| i < |fl| && fl[i] == freep;
      ghost var f: nat := i;
      ghost var called := false;
      StartSmall(f, nunits);
      NextNode(i);
      var p := At(mem, prevp).ptr;
      while true
        invariant Valid() && freep != 0 && live == old(live) && old(heap) <= heap && (!called ==> heap == old(heap))
        invariant i < |fl| && fl[i] == prevp && p == After(fl, i) && f < |fl| && fl[f] == freep
        invariant called ==> LargeAhead(i, f, nunits)
        invariant called ==> grant.Some? && !old(HasBlock(nunits)) && EndsAt(nunits, grant.value + Asked(nunits))
        invariant !called ==> (HasBlock(nunits) <==> old(HasBlock(nunits)))
        invariant !called ==> SmallSoFar(i, f, nunits)
        decreases if called then 0 else 1, Left(i, f, |fl|)
      {
        ghost var c := Next(i, |fl|);
        if Size(mem, p) >= nunits {
          NotBase(c);
          OneLarge(c, nunits, grant);
          var a := Take(prevp, p, nunits, c);
          if called { GrantCovers(nbytes, grant.value, a - 1); }
          return Some(a);
        }
        Distinct(c, f);
        if p == freep {
          OnlyOne(i, f, nunits);
          if called {
            assert false;
          }
          NoneLarge(nunits);
          ghost var list, m := fl, mem;
          var ok := Morecore(nunits, grant);
          if !ok {
            return None;
          }
          called := true;
          OnlyFresh(list, m, nunits, grant.value);
          p := freep;
          f :| f < |fl| && fl[f] == freep;
          c := f;
          AllAhead(f, nunits);
        } else {
          NextSmall(i, f, nunits);
        }
        NextNode(c);
        prevp, i := p, c;
        p := At(mem, p).ptr;
      }
    }

    /** The list has a block of at least `n` units. */
    ghost predicate HasBlock(n: nat)
      reads this
    {
      freep != 0 && exists j :: 0 <= j < |fl| && Size(mem, fl[j]) >= n
    }

    /** Whatever free block has `n` units ends at `end`. */
    ghost predicate EndsAt(n: nat, end: nat)
      reads this
    {
      forall j :: 0 <= j < |fl| && Size(mem, fl[j]) >= n ==> fl[j] + Size(mem, fl[j]) == end
    }

    lemma NotYet(n: nat)
      ensures freep == 0 ==> !HasBlock(n)
    {
    }

    lemma NoneLarge(n: nat)
      requires forall j :: 0 <= j < |fl| ==> Size(mem, fl[j]) < n
      ensures !HasBlock(n)
    {
    }

    lemma OneLarge(c: nat, n: nat, grant: Option<nat>)
      requires freep != 0 && c < |fl| && Size(mem, fl[c]) >= n
      ensures HasBlock(n)
      ensures grant.Some? && EndsAt(n, grant.value + Asked(n)) ==> fl[c] + Size(mem, fl[c]) == grant.value + Asked(n)
    {
    }

    /** If nothing was large enough before, only the block with the fresh units is. */
    lemma OnlyFresh(list: seq<nat>, m: Memory, n: nat, hp: nat)
      requires Received(list, m, fl, mem, hp, Asked(n)) && forall j :: 0 <= j < |list| ==> Size(m, list[j]) < n
      requires forall j :: 0 <= j < |fl| && Holds(mem, fl[j], hp, Asked(n)) ==> fl[j] + Size(mem, fl[j]) == hp + Asked(n)
      ensures EndsAt(n, hp + Asked(n)) && exists j :: 0 <= j < |fl| && Size(mem, fl[j]) >= n
    {
    }

    lemma NotBase(c: nat)
      requires Valid() && freep != 0 && c < |fl| && Size(mem, fl[c]) > 0
      ensures c > 0
    {
      assert Node(fl, mem, c);
    }

    lemma Distinct(c: nat, f: nat)
      requires Valid() && freep != 0 && c < |fl| && f < |fl|
      ensures fl[c] == fl[f] <==> c == f
    {
      assert c < f ==> Before(mem, fl[c], fl[f], true);
      assert f < c ==> Before(mem, fl[f], fl[c], true);
    }

    /** The blocks passed since `f` are too small. */
    ghost predicate SmallSoFar(i: nat, f: nat, n: nat)
      reads this
    {
      forall j: nat :: j < |fl| && !Unseen(i, f, j, |fl|) ==> Size(mem, fl[j]) < n
    }

    /** One of those still to come is large enough. */
    ghost predicate LargeAhead(i: nat, f: nat, n: nat)
      reads this
    {
      exists j: nat :: Unseen(i, f, j, |fl|) && Size(mem, fl[j]) >= n
    }

    lemma StartSmall(f: nat, n: nat)
      requires f < |fl|
      ensures SmallSoFar(f, f, n)
    {
    }

    /** At the end of a lap only the last block has not been looked at. */
    lemma OnlyOne(i: nat, f: nat, n: nat)
      requires i < |fl| && f < |fl| && Next(i, |fl|) == f && Size(mem, fl[f]) < n
      ensures !LargeAhead(i, f, n)
      ensures SmallSoFar(i, f, n) ==> forall j :: 0 <= j < |fl| ==> Size(mem, fl[j]) < n
    {
    }

    lemma NextSmall(i: nat, f: nat, n: nat)
      requires i < |fl| && f < |fl| && Next(i, |fl|) != f && Size(mem, fl[Next(i, |fl|)]) < n
      ensures SmallSoFar(i, f, n) ==> SmallSoFar(Next(i, |fl|), f, n)
      ensures LargeAhead(i, f, n) ==> LargeAhead(Next(i, |fl|), f, n)
    {
      var c := Next(i, |fl|);
      assert forall j: nat :: Unseen(i, f, j, |fl|) ==> j == c || Unseen(c, f, j, |fl|);
    }

    lemma AllAhead(f: nat, n: nat)
      requires f < |fl| && exists j :: 0 <= j < |fl| && Size(mem, fl[j]) >= n
      ensures LargeAhead(f, f, n)
    {
      var j: nat :| j < |fl| && Size(mem, fl[j]) >= n;
      assert Unseen(f, f, j, |fl|);
    }

    lemma BaseFirst(c: nat)
      requires Valid() && freep != 0 && 0 < c < |fl|
      ensures fl[c - 1] > 0 && fl[c] > 0
    {
      assert c > 1 ==> Before(mem, fl[0], fl[c - 1], true);
      assert Before(mem, fl[0], fl[c], true);
    }
  }

  function Next(i: nat, n: nat): nat
    requires i < n
  {
    if i + 1 < n then i + 1 else 0
  }

  /** Member `j` comes after `i` on the way around to `f`. */
  predicate Unseen(i: nat, f: nat, j: nat, n: nat) {
    i < n && f < n && j < n && (if Next(i, n) <= f then Next(i, n) <= j <= f else j >= Next(i, n) || j <= f)
  }

  function Left(i: nat, f: nat, n: nat): nat
    requires i < n && f < n
  {
    if Next(i, n) <= f then f - Next(i, n) + 1 else f + n - Next(i, n) + 1
  }

  /** What morecore asks for. */
  function Asked(nu: nat): nat {
    if nu < 4096 then 4096 else nu
  }

  /** The units from the old break `hp` on that sbrk gives for the argument `arg`. */
  function Granted(hp: nat, arg: int): set<nat> {
    if arg > 0 then Span(hp, hp + arg / 8) else {}
  }

  /** A block at the end of what morecore asked for is within what sbrk gave exactly if the request is
      below 2^31 bytes; otherwise it begins at the old break, and no unit of it was given. */
  lemma GrantCovers(nbytes: nat, hp: nat, b: nat)
    requires b + Units(nbytes) == hp + Asked(Units(nbytes))
    ensures var nu := Units(nbytes);
            && (Span(b, b + nu) <= Granted(hp, SbrkArg(Asked(nu))) <==> nu < UINT / 16)
            && (nu >= UINT / 16 ==> b == hp && Granted(hp, SbrkArg(Asked(nu))) == {})
  {
    var nu := Units(nbytes);
    SbrkArgRight(Asked(nu));
    if nu >= UINT / 16 { assert b in Span(b, b + nu); }
  }

  lemma SameReceived(fl: seq<nat>, m: Memory, w: Memory, r: seq<nat>, v: Memory, b: nat, n: nat)
    requires Received(fl, w, r, v, b, n) && b !in fl && forall a :: a != b ==> At(w, a) == At(m, a)
    ensures Received(fl, m, r, v, b, n)
  {
  }

  lemma InAndOut(live: map<nat, nat>, a: nat, n: nat)
    requires a !in live
    ensures live[a := n] - {a} == live
  {
  }
}
