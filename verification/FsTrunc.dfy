/** itrunc on values: blocks leave their owner, then their bits are cleared. */
module FsTrunc {
  import opened Sets
  import opened Params
  import opened FsBlocks
  import opened FsSpec
  import opened FsFile
  import opened FsWrite

  /** The block numbers in an indirect block, from entry `j` on. */
  function Entries(b: Block, j: nat): set<nat>
    requires j <= NINDIRECT
    decreases NINDIRECT - j
  {
    if j == NINDIRECT then {} else Entries(b, j + 1) + (if Word(b, j) == 0 then {} else {Word(b, j)})
  }

  lemma {:induction false} EntriesAre(b: Block, j: nat, a: nat)
    requires j <= NINDIRECT
    ensures a in Entries(b, j) <==> a != 0 && exists k :: j <= k < NINDIRECT && Word(b, k) == a
    decreases NINDIRECT - j
  {
    hide Word;
    if j < NINDIRECT {
      EntriesAre(b, j + 1, a);
    }
  }

  // ------------------------------------------------------------ what itrunc logs

  /** The bitmap blocks for some blocks. */
  function BitsOf(sb: Super, xs: set<nat>): set<nat> {
    set b | b in xs :: BBlock(sb, b)
  }

  lemma BitsMore(sb: Super, l: set<nat>, xs: set<nat>, b: nat)
    ensures l + BitsOf(sb, xs) + {BBlock(sb, b)} == l + BitsOf(sb, xs + {b})
  {
  }

  lemma NoBits(sb: Super, l: set<nat>, addrs: seq<nat>)
    ensures l + BitsOf(sb, Direct(addrs, 0)) == l
  {
  }

  lemma BitsLeft(sb: Super, l: set<nat>, x: set<nat>, y: set<nat>)
    requires x <= y
    ensures l + BitsOf(sb, x - y) == l
  {
    assert x - y == {};
  }

  /** One more of `x` is freed; `y` were left. */
  lemma BitsNext(sb: Super, l: set<nat>, x: set<nat>, y: set<nat>, b: nat)
    requires y <= x && b in y
    ensures l + BitsOf(sb, x - y) + {BBlock(sb, b)} == l + BitsOf(sb, x - (y - {b}))
  {
    assert x - (y - {b}) == (x - y) + {b};
  }

  lemma IndirectIn(sb: Super, d: Store, t: seq<Inode>, x: set<nat>, i: nat)
    requires Own(sb, d, t, x) && i < |t|
    ensures t[i].addrs[NDIRECT] < |d| && (t[i].addrs[NDIRECT] != 0 ==> sb.data <= t[i].addrs[NDIRECT])
  {
    assert Addr(d, t[i], NDIRECT) == t[i].addrs[NDIRECT];
  }

  lemma BitsUnion(sb: Super, l: set<nat>, xs: set<nat>, ys: set<nat>)
    ensures l + BitsOf(sb, xs) + BitsOf(sb, ys) == l + BitsOf(sb, xs + ys)
  {
  }

  /** The blocks in the first `n` direct slots. */
  function Direct(addrs: seq<nat>, n: nat): set<nat>
    requires n <= |addrs|
  {
    set s | 0 <= s < n && addrs[s] != 0 :: addrs[s]
  }

  lemma DirectNext(addrs: seq<nat>, n: nat)
    requires n < |addrs|
    ensures Direct(addrs, n + 1) == Direct(addrs, n) + if addrs[n] == 0 then {} else {addrs[n]}
  {
  }

  /** All blocks of an inode. */
  function Blocks(d: Store, x: Inode): set<nat>
    requires InodeOk(x)
  {
    set s | 0 <= s < NSLOT && Addr(d, x, s) != 0 :: Addr(d, x, s)
  }

  lemma BlocksAre(d: Store, x: Inode)
    requires InodeOk(x) && x.addrs[NDIRECT] < |d|
    ensures var p := x.addrs[NDIRECT];
            Blocks(d, x) == Direct(x.addrs, NDIRECT) + if p == 0 then {} else Entries(d[p], 0) + {p}
  {
    hide Word, Entries;
    var p := x.addrs[NDIRECT];
    var all := Direct(x.addrs, NDIRECT) + if p == 0 then {} else Entries(d[p], 0) + {p};
    forall a ensures a in Blocks(d, x) <==> a in all {
      if p != 0 && a >= 0 { EntriesAre(d[p], 0, a); }
      if a in Blocks(d, x) {
        var s :| 0 <= s < NSLOT && Addr(d, x, s) != 0 && Addr(d, x, s) == a;
        assert s > NDIRECT ==> p != 0 && a == Word(d[p], s - NDIRECT - 1);
      }
      if s :| 0 <= s < NDIRECT && x.addrs[s] != 0 && x.addrs[s] == a { assert Addr(d, x, s) == a; }
      if p != 0 && a in Entries(d[p], 0) {
        var k :| 0 <= k < NINDIRECT && Word(d[p], k) == a;
        assert Addr(d, x, NDIRECT + 1 + k) == a;
      }
      if p != 0 { assert Addr(d, x, NDIRECT) == p; }
    }
  }

  /** Truncating a file keeps to what begin_op reserves exactly if its blocks have fewer than
      MAXOPBLOCKS bitmap blocks: always so on a disk with so few. */
  lemma TruncFits(sb: Super, d: Store, t: seq<Inode>, x: set<nat>, i: nat)
    requires Own(sb, d, t, x) && i < |t|
    ensures |BitsOf(sb, Blocks(d, t[i])) + {IBlock(sb, i)}| <= MAXOPBLOCKS <==> |BitsOf(sb, Blocks(d, t[i]))| < MAXOPBLOCKS
    ensures sb.size <= (MAXOPBLOCKS - 1) * BPB ==> |BitsOf(sb, Blocks(d, t[i]))| < MAXOPBLOCKS
  {
    var bits := BitsOf(sb, Blocks(d, t[i]));
    IBlockIn(sb, d, i);
    forall b | b in bits ensures sb.bmapstart <= b < sb.bmapstart + (sb.size + BPB - 1) / BPB {
      var s :| 0 <= s < NSLOT && Addr(d, t[i], s) != 0 && b == BBlock(sb, Addr(d, t[i], s));
    }
    assert IBlock(sb, i) !in bits;
    InRange(bits, sb.bmapstart, (sb.size + BPB - 1) / BPB);
  }

  /** A direct block leaves the inode. */
  lemma DropDirect(sb: Super, d: Store, t: seq<Inode>, x: set<nat>, i: nat, s: nat)
    requires Own(sb, d, t, x) && i < |t| && s < NDIRECT && t[i].addrs[s] != 0
    ensures Own(sb, d, SetAddr(t, i, s, 0), x + {t[i].addrs[s]})
  {
    var u, a := SetAddr(t, i, s, 0), t[i].addrs[s];
    assert Addr(d, t[i], s) == a;
    forall r: nat | r < NSLOT ensures Addr(d, u[i], r) == if r == s then 0 else Addr(d, t[i], r) {
    }
    hide Addr, Used;
    assert !Held(d, u[i], a);
    DetachOwn(sb, d, t, u, x, i, {a});
  }

  /** The indirect block leaves the inode, and with it all its entries. */
  lemma DropIndirect(sb: Super, d: Store, t: seq<Inode>, x: set<nat>, i: nat)
    requires Own(sb, d, t, x) && i < |t| && t[i].addrs[NDIRECT] != 0
    ensures t[i].addrs[NDIRECT] < |d|
    ensures var p := t[i].addrs[NDIRECT]; Own(sb, d, SetAddr(t, i, NDIRECT, 0), x + (Entries(d[p], 0) + {p}))
  {
    hide Used, Word;
    var u, p := SetAddr(t, i, NDIRECT, 0), t[i].addrs[NDIRECT];
    assert Addr(d, t[i], NDIRECT) == p;
    var y := Entries(d[p], 0) + {p};
    forall r: nat | r < NSLOT ensures Addr(d, u[i], r) == if r >= NDIRECT then 0 else Addr(d, t[i], r) {
    }
    forall r: nat | r < NSLOT && r > NDIRECT ensures Addr(d, t[i], r) == Word(d[p], r - NDIRECT - 1) {
    }
    forall a | a in y ensures a != 0 && Held(d, t[i], a) && !Held(d, u[i], a) {
      EntriesAre(d[p], 0, a);
      if a != p {
        var k :| 0 <= k < NINDIRECT && Word(d[p], k) == a;
        assert Addr(d, t[i], NDIRECT + 1 + k) == a;
        NotBelow(sb, d, t, x, i, NDIRECT + 1 + k, u[i]);
      } else {
        NotBelow(sb, d, t, x, i, NDIRECT, u[i]);
      }
    }
    forall s: nat | s < NSLOT && Addr(d, u[i], s) != Addr(d, t[i], s) ensures Addr(d, t[i], s) in y {
      if s > NDIRECT { EntriesAre(d[p], 0, Addr(d, t[i], s)); }
    }
    hide Addr, Entries;
    DetachOwn(sb, d, t, u, x, i, y);
  }

  /** A block in a high slot is in no direct slot. */
  lemma NotBelow(sb: Super, d: Store, t: seq<Inode>, x: set<nat>, i: nat, s: nat, y: Inode)
    requires Own(sb, d, t, x) && i < |t| && NDIRECT <= s < NSLOT && Addr(d, t[i], s) != 0 && InodeOk(y)
    requires forall r: nat :: r < NSLOT ==> Addr(d, y, r) == if r >= NDIRECT then 0 else Addr(d, t[i], r)
    ensures !Held(d, y, Addr(d, t[i], s))
  {
    hide Addr, Used;
  }

  /** The entries of an indirect block are distinct, and none is the block itself. */
  lemma EntryOnce(sb: Super, d: Store, t: seq<Inode>, x: set<nat>, i: nat, j: nat)
    requires Own(sb, d, t, x) && i < |t| && 0 < t[i].addrs[NDIRECT] < |d| && j < NINDIRECT && Word(d[t[i].addrs[NDIRECT]], j) != 0
    ensures var p := t[i].addrs[NDIRECT]; Word(d[p], j) !in Entries(d[p], j + 1) && Word(d[p], j) != p
  {
    var p := t[i].addrs[NDIRECT];
    var a := Word(d[p], j);
    assert Addr(d, t[i], NDIRECT) == p && Addr(d, t[i], NDIRECT + 1 + j) == a;
    EntriesAre(d[p], j + 1, a);
    forall k | j + 1 <= k < NINDIRECT ensures Word(d[p], k) != a {
      assert Addr(d, t[i], NDIRECT + 1 + k) == Word(d[p], k);
    }
  }

  /** Clearing a bit changes no other file. */
  lemma FreeOthers(sb: Super, d: Store, t: seq<Inode>, x: set<nat>, b: nat, i: nat)
    requires Own(sb, d, t, x) && b in x
    ensures b < sb.size && OthersSame(d, t, SetBit(sb, d, b, false), t, i)
    ensures forall c :: 0 <= c < |d| && (c < sb.bmapstart || c >= sb.data) ==> SetBit(sb, d, b, false)[c] == d[c]
  {
    FreeOwn(sb, d, t, x, b);
    BBlockIn(sb, d, b);
    hide Addr, Used, PutBit;
    var e := SetBit(sb, d, b, false);
    forall j: nat, s: nat | j < |t| && s < NSLOT && Addr(d, t[j], s) != 0 ensures e[Addr(d, t[j], s)] == d[Addr(d, t[j], s)] {
    }
  }

  lemma DropOthers(d: Store, t: seq<Inode>, u: seq<Inode>, i: nat)
    requires |u| == |t| && (forall j :: 0 <= j < |t| ==> InodeOk(t[j])) && (forall j :: 0 <= j < |t| && j != i ==> u[j] == t[j])
    ensures OthersSame(d, t, d, u, i)
  {
  }

  /** A block that left its owner and went through transit is free. */
  lemma FreedNow(sb: Super, d: Store, t: seq<Inode>, e: Store, u: seq<Inode>, i: nat, s: nat)
    requires Own(sb, d, t, {}) && Own(sb, e, u, {}) && OthersSame(d, t, e, u, i) && i < |t| && s < NSLOT && Addr(d, t[i], s) != 0
    requires forall r: nat :: r < NSLOT ==> Addr(e, u[i], r) == 0
    ensures Addr(d, t[i], s) < sb.size && !Used(sb, e, Addr(d, t[i], s))
  {
    hide Used, Addr;
    var a := Addr(d, t[i], s);
    forall j: nat, r: nat | j < |u| && r < NSLOT ensures Addr(e, u[j], r) != a {
      assert j != i ==> Addr(e, u[j], r) == Addr(d, t[j], r);
    }
  }

  /** Inode `i` loses blocks: everything else, and the part of the disk before the bitmap, stays. */
  ghost predicate Lost(sb: Super, d: Store, t: seq<Inode>, e: Store, u: seq<Inode>, i: nat) {
    && OthersSame(d, t, e, u, i) && i < |t| && u[i] == t[i].(addrs := u[i].addrs) && |e| == |d|
    && (forall b :: 0 <= b < sb.bmapstart && b < |d| ==> e[b] == d[b])
  }

  lemma LostNone(sb: Super, d: Store, t: seq<Inode>, i: nat)
    requires i < |t| && forall j :: 0 <= j < |t| ==> InodeOk(t[j])
    ensures Lost(sb, d, t, d, t, i)
  {
  }

  lemma LostTrans(sb: Super, d: Store, t: seq<Inode>, e: Store, u: seq<Inode>, f: Store, v: seq<Inode>, i: nat)
    requires Lost(sb, d, t, e, u, i) && Lost(sb, e, u, f, v, i)
    ensures Lost(sb, d, t, f, v, i)
  {
    hide OthersSame;
    OthersTrans(d, t, e, u, f, v, i);
    OthersLength(d, t, e, u, i);
  }

  lemma OthersLength(d: Store, t: seq<Inode>, e: Store, u: seq<Inode>, i: nat)
    requires OthersSame(d, t, e, u, i)
    ensures |t| == |u|
  {
  }

  lemma LostDrop(sb: Super, d: Store, t: seq<Inode>, u: seq<Inode>, i: nat)
    requires |u| == |t| && i < |t| && (forall j :: 0 <= j < |t| ==> InodeOk(t[j])) && (forall j :: 0 <= j < |t| && j != i ==> u[j] == t[j])
    requires u[i] == t[i].(addrs := u[i].addrs)
    ensures Lost(sb, d, t, d, u, i)
  {
  }

  lemma TransitIn(sb: Super, d: Store, t: seq<Inode>, x: set<nat>)
    requires Own(sb, d, t, x)
    ensures forall b :: b in x ==> sb.data <= b < sb.size <= |d|
  {
  }

  lemma FreeLost(sb: Super, d: Store, t: seq<Inode>, x: set<nat>, b: nat, i: nat)
    requires Own(sb, d, t, x) && b in x && i < |t|
    ensures b < sb.size && Used(sb, d, b) && Own(sb, SetBit(sb, d, b, false), t, x - {b}) && Lost(sb, d, t, SetBit(sb, d, b, false), t, i)
    ensures forall c :: sb.data <= c < |d| ==> SetBit(sb, d, b, false)[c] == d[c]
  {
    FreeOwn(sb, d, t, x, b);
    FreeOthers(sb, d, t, x, b, i);
  }

  /** The entries of an indirect block are distinct, and none is `p`. */
  ghost predicate Once(b: Block, p: nat) {
    forall j: nat :: j < NINDIRECT && Word(b, j) != 0 ==> Word(b, j) !in Entries(b, j + 1) && Word(b, j) != p
  }

  lemma EntriesOnce(sb: Super, d: Store, t: seq<Inode>, x: set<nat>, i: nat)
    requires Own(sb, d, t, x) && i < |t| && 0 < t[i].addrs[NDIRECT] < |d|
    ensures Once(d[t[i].addrs[NDIRECT]], t[i].addrs[NDIRECT])
  {
    hide Word, Entries;
    var p := t[i].addrs[NDIRECT];
    forall j: nat | j < NINDIRECT && Word(d[p], j) != 0 ensures Word(d[p], j) !in Entries(d[p], j + 1) && Word(d[p], j) != p {
      EntryOnce(sb, d, t, x, i, j);
    }
  }

  lemma EntriesStep(b: Block, p: nat, j: nat)
    requires Once(b, p) && j < NINDIRECT
    ensures var a, x := Word(b, j), Entries(b, j) + {p};
            if a == 0 then x == Entries(b, j + 1) + {p} else a in x && x - {a} == Entries(b, j + 1) + {p}
  {
    hide Word;
  }

  lemma NoEntries(b: Block, p: nat)
    ensures Entries(b, NINDIRECT) + {p} - {p} == {} && p in Entries(b, NINDIRECT) + {p}
  {
  }

  /** Every block that inode `x` had on disk `d` has its bit clear on `e`. */
  ghost predicate Freed(sb: Super, d: Store, x: Inode, e: Store) {
    InodeOk(x) && Layout(sb, e) && forall s: nat :: s < NSLOT && Addr(d, x, s) != 0 ==> Addr(d, x, s) < sb.size && !Used(sb, e, Addr(d, x, s))
  }

  /** The inode is empty; its disk copy is brought up to date. */
  lemma TruncEnd(sb: Super, d: Store, t: seq<Inode>, e: Store, u: seq<Inode>, i: nat, y: Inode)
    requires Own(sb, d, t, {}) && Synced(sb, d, t) && AllFilled(d, t) && Own(sb, e, u, {}) && Lost(sb, d, t, e, u, i)
    requires y == u[i].(size := 0) && forall s :: 0 <= s <= NDIRECT ==> u[i].addrs[s] == 0
    ensures InodeOk(y) && i < sb.ninodes
    ensures var f, v := PutInode(sb, e, i, y), u[i := y];
            && Own(sb, f, v, {}) && Synced(sb, f, v) && AllFilled(f, v) && FilesSame(d, t, f, v, i)
            && Freed(sb, d, t[i], f)
  {
    var f, v := PutInode(sb, e, i, y), u[i := y];
    assert InodeOk(u[i]);
    SameAddrsOwn(sb, e, u, {}, i, y);
    PutInodeOwn(sb, e, v, {}, i, y);
    assert forall s: nat :: s < NSLOT ==> Addr(f, v[i], s) == 0;
    assert Filled(f, v[i], 0);
    hide Addr, Used, PutInode, Own, Filled, SameSlots, Keeps;
    GrowSynced(sb, d, t, e, u, i, y);
    OthersPut(d, t, e, u, f, v, i);
    OthersContent(sb, d, t, f, v, {}, i);
    forall s: nat | s < NSLOT && Addr(d, t[i], s) != 0 ensures Addr(d, t[i], s) < sb.size && !Used(sb, f, Addr(d, t[i], s)) {
      FreedNow(sb, d, t, f, v, i, s);
    }
  }
}
