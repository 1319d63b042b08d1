/** What bmap does to slots, bytes and the log, step by step. */
module FsBmap {
  import opened Params
  import opened FsBlocks
  import opened FsSpec
  import opened FsFile

  /** What bmap does: to the slots, to the bytes, and to the set of logged blocks. */
  ghost predicate BmapEffect(sb: Super, d: Store, t: seq<Inode>, l: set<nat>, e: Store, u: seq<Inode>, m: set<nat>, bits: set<nat>, i: nat, bn: nat, a: nat) {
    && Reached(d, t, e, u, i, bn) && u == t[i := t[i].(addrs := u[i].addrs)] && |e| == |d|
    && sb.data <= a < sb.size && a == Addr(e, u[i], SlotOf(bn))
    && (Addr(d, t[i], SlotOf(bn)) != 0 ==> e == d && u == t && m == l && bits == {})
    && m <= l + bits + {a} + (if bn < NDIRECT then {} else {u[i].addrs[NDIRECT]})
    && |bits| <= (if Addr(d, t[i], SlotOf(bn)) == 0 then 1 else 0) + (if bn >= NDIRECT && t[i].addrs[NDIRECT] == 0 then 1 else 0)
    && (forall b :: 0 <= b < sb.bmapstart && b < |d| ==> e[b] == d[b])
  }

  /** The indirect block is there; new, it is empty. */
  ghost predicate Hung(sb: Super, d: Store, t: seq<Inode>, l: set<nat>, e: Store, u: seq<Inode>, m: set<nat>, bits: set<nat>, i: nat) {
    && KeepsAll(d, t, e, u) && i < |t| && u == t[i := t[i].(addrs := u[i].addrs)] && |e| == |d|
    && (forall j: nat, r: nat :: j < |t| && r < NSLOT && (j != i || r != NDIRECT) ==> Addr(e, u[j], r) == Addr(d, t[j], r))
    && u[i].addrs[NDIRECT] != 0
    && (t[i].addrs[NDIRECT] != 0 ==> e == d && u == t && m == l && bits == {})
    && m <= l + bits + {u[i].addrs[NDIRECT]}
    && |bits| <= (if t[i].addrs[NDIRECT] == 0 then 1 else 0)
    && (forall b :: 0 <= b < sb.bmapstart && b < |d| ==> e[b] == d[b])
  }

  lemma OldEntryEffect(sb: Super, d: Store, t: seq<Inode>, l: set<nat>, e: Store, u: seq<Inode>, m: set<nat>, bits: set<nat>, i: nat, bn: nat, a: nat)
    requires Hung(sb, d, t, l, e, u, m, bits, i) && NDIRECT <= bn < MAXFILE && a == Addr(e, u[i], SlotOf(bn)) && a != 0 && sb.data <= a < sb.size <= |e|
    ensures BmapEffect(sb, d, t, l, e, u, m, bits, i, bn, a)
  {
    assert Addr(d, t[i], SlotOf(bn)) == a;
  }

  lemma NewEntryEffect(sb: Super, d: Store, t: seq<Inode>, l: set<nat>, e: Store, u: seq<Inode>, m: set<nat>, b: set<nat>,
                       f: Store, v: seq<Inode>, n: set<nat>, bits: set<nat>, i: nat, bn: nat, a: nat)
    requires Hung(sb, d, t, l, e, u, m, b, i) && NDIRECT <= bn < MAXFILE && v == u && |f| == |e|
    requires Grown(e, u, f, v, i, SlotOf(bn)) && Addr(e, u[i], SlotOf(bn)) == 0
    requires 0 < a && sb.data <= a < sb.size <= |f| && a == Addr(f, v[i], SlotOf(bn)) && f[a] == Zero()
    requires bits == b + {BBlock(sb, a)} && n == m + {BBlock(sb, a), a, u[i].addrs[NDIRECT]}
    requires forall c :: 0 <= c < sb.bmapstart && c < |e| ==> f[c] == e[c]
    ensures BmapEffect(sb, d, t, l, f, v, n, bits, i, bn, a)
  {
    hide Keeps;
    assert Addr(d, t[i], SlotOf(bn)) == 0;
    ReachedTwice(d, t, e, u, f, v, i, bn);
    assert |bits| <= |b| + 1;
  }

  /** Slot `s` of inode `i` got a block; all other slots of all inodes are as before, and so are
      the bytes of all data blocks that were owned. */
  ghost predicate Grown(d: Store, t: seq<Inode>, e: Store, u: seq<Inode>, i: nat, s: nat) {
    && KeepsAll(d, t, e, u)
    && (forall j: nat, r: nat :: j < |t| && r < NSLOT && (j != i || r != s) ==> Addr(e, u[j], r) == Addr(d, t[j], r))
  }

  /** After bmap of block `bn` of inode `i`: that block is there, empty if it is new, and nothing
      else has changed but for the indirect block's coming into being. */
  ghost predicate Reached(d: Store, t: seq<Inode>, e: Store, u: seq<Inode>, i: nat, bn: nat) {
    && KeepsAll(d, t, e, u) && i < |t| && bn < MAXFILE
    && (forall j: nat, r: nat :: j < |t| && r < NSLOT && (j != i || (r != SlotOf(bn) && (r != NDIRECT || bn < NDIRECT))) ==> Addr(e, u[j], r) == Addr(d, t[j], r))
    && 0 < Addr(e, u[i], SlotOf(bn)) < |e| && (bn >= NDIRECT ==> u[i].addrs[NDIRECT] != 0)
    && (Addr(d, t[i], SlotOf(bn)) == 0 ==> e[Addr(e, u[i], SlotOf(bn))] == Zero())
  }

  lemma KeepsRefl(d: Store, t: seq<Inode>)
    requires forall i :: 0 <= i < |t| ==> InodeOk(t[i])
    ensures KeepsAll(d, t, d, t)
  {
  }

  lemma SlotIsData(sb: Super, d: Store, t: seq<Inode>, x: set<nat>, i: nat, s: nat)
    requires Own(sb, d, t, x) && i < |t| && s < NSLOT && InodeOk(t[i]) && Addr(d, t[i], s) != 0
    ensures sb.data <= Addr(d, t[i], s) < sb.size <= |d|
  {
  }

  lemma ReachedTwice(d: Store, t: seq<Inode>, e: Store, u: seq<Inode>, f: Store, v: seq<Inode>, i: nat, bn: nat)
    requires i < |t| && NDIRECT <= bn < MAXFILE && |u| == |t|
    requires KeepsAll(d, t, e, u) && Grown(e, u, f, v, i, SlotOf(bn))
    requires forall j: nat, r: nat :: j < |t| && r < NSLOT && (j != i || r != NDIRECT) ==> Addr(e, u[j], r) == Addr(d, t[j], r)
    requires Addr(e, u[i], NDIRECT) != 0 && 0 < Addr(f, v[i], SlotOf(bn)) < |f| && f[Addr(f, v[i], SlotOf(bn))] == Zero()
    ensures Reached(d, t, f, v, i, bn)
  {
    KeepsAllTrans(d, t, e, u, f, v);
  }

  /** A block that was not owned is not the indirect block. */
  lemma IndirectSame(sb: Super, d: Store, t: seq<Inode>, x: set<nat>, i: nat, b: nat)
    requires Own(sb, d, t, x) && i < |t| && b < sb.size && !Used(sb, d, b) && t[i].addrs[NDIRECT] != 0
    ensures t[i].addrs[NDIRECT] != b && t[i].addrs[NDIRECT] < |d| && Alloc(sb, d, b)[t[i].addrs[NDIRECT]] == d[t[i].addrs[NDIRECT]]
    ensures sb.bmapstart <= t[i].addrs[NDIRECT]
  {
    BBlockIn(sb, d, b);
    assert Addr(d, t[i], NDIRECT) == t[i].addrs[NDIRECT];
    assert Owned(d, t, t[i].addrs[NDIRECT]);
  }

  lemma EntryGrown(sb: Super, d: Store, t: seq<Inode>, e: Store, x: set<nat>, y: set<nat>, i: nat, k: nat, b: nat)
    requires Own(sb, d, t, x) && Own(sb, e, t, y) && i < |t| && k < NINDIRECT && b in y && b < |e| && e[b] == Zero()
    requires KeepsAll(d, t, e, t) && 0 < t[i].addrs[NDIRECT] < |e| && Word(e[t[i].addrs[NDIRECT]], k) == 0 && t[i].addrs[NDIRECT] != b
    requires forall j: nat, r: nat :: j < |t| && r < NSLOT ==> Addr(e, t[j], r) == Addr(d, t[j], r)
    ensures b < UINT
    ensures var p := t[i].addrs[NDIRECT]; var f := e[p := PutWord(e[p], k, b)];
            Grown(d, t, f, t, i, NDIRECT + 1 + k) && Own(sb, f, t, y - {b}) && Addr(f, t[i], NDIRECT + 1 + k) == b && f[b] == Zero()
  {
    var p := t[i].addrs[NDIRECT];
    AttachEntry(sb, e, t, y, i, k, b);
    AttachEntryKeeps(sb, e, t, y, i, k, b);
    hide Used, KeepsAll, PutWord, Addr, Separate, Mapped;
    KeepsAllTrans(d, t, e, t, e[p := PutWord(e[p], k, b)], t);
  }

  lemma TableOk(sb: Super, d: Store, t: seq<Inode>, x: set<nat>)
    requires Own(sb, d, t, x)
    ensures Layout(sb, d) && |t| == sb.ninodes && forall i :: 0 <= i < |t| ==> InodeOk(t[i])
  {
  }

  lemma AllocSame(sb: Super, d: Store, t: seq<Inode>, x: set<nat>, b: nat)
    requires Own(sb, d, t, x) && b < sb.size && !Used(sb, d, b)
    ensures KeepsAll(d, t, Alloc(sb, d, b), t) && sb.data <= b && b !in x && Alloc(sb, d, b)[b] == Zero()
    ensures forall j: nat, r: nat :: j < |t| && r < NSLOT ==> Addr(Alloc(sb, d, b), t[j], r) == Addr(d, t[j], r)
    ensures forall c :: 0 <= c < sb.bmapstart ==> Alloc(sb, d, b)[c] == d[c]
  {
    AllocKeeps(sb, d, t, x, b);
    AllocOwn(sb, d, t, x, b);
    BBlockIn(sb, d, b);
  }

  lemma AttachGrown(sb: Super, d: Store, t: seq<Inode>, e: Store, x: set<nat>, y: set<nat>, i: nat, s: nat, b: nat)
    requires Own(sb, d, t, x) && Own(sb, e, t, y) && i < |t| && s <= NDIRECT && b in y && t[i].addrs[s] == 0
    requires KeepsAll(d, t, e, t) && b < |e| && e[b] == Zero()
    requires forall j: nat, r: nat :: j < |t| && r < NSLOT ==> Addr(e, t[j], r) == Addr(d, t[j], r)
    ensures Grown(d, t, e, SetAddr(t, i, s, b), i, s)
  {
    hide Used, KeepsAll;
    AttachDirect(sb, e, t, y, i, s, b);
    AttachDirectKeeps(sb, e, t, y, i, s, b);
    KeepsAllTrans(d, t, e, t, e, SetAddr(t, i, s, b));
  }

  lemma SameBitmapBlock(sb: Super, b: nat, bi: nat)
    requires b % BPB == 0 && bi < BPB
    ensures BBlock(sb, b + bi) == BBlock(sb, b) && (b + bi) % BPB == bi
  {
  }
}
