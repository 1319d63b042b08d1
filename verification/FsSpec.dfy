/** Who owns a disk block: the bitmap against the block numbers in inodes and indirect blocks. */
module FsSpec {
  import opened Params
  import opened FsBlocks

  const NDIRECT: nat := 12
  const NINDIRECT: nat := 128
  const MAXFILE: nat := NDIRECT + NINDIRECT
  const IPB: nat := 8
  const NSLOT: nat := NDIRECT + 1 + NINDIRECT

  /** The disk's layout; data blocks begin at `data`. */
  datatype Super = Super(size: nat, ninodes: nat, inodestart: nat, bmapstart: nat, data: nat)

  /** An inode: type and device numbers and link count in two words, then size and addresses. */
  datatype Inode = Inode(w0: nat, w1: nat, size: nat, addrs: seq<nat>)

  type Store = seq<Block>

  predicate Layout(sb: Super, d: Store) {
    && 0 < sb.inodestart && sb.inodestart + (sb.ninodes + IPB - 1) / IPB <= sb.bmapstart
    && sb.bmapstart + (sb.size + BPB - 1) / BPB <= sb.data <= sb.size <= |d| < UINT
  }

  predicate InodeOk(x: Inode) {
    && |x.addrs| == NDIRECT + 1 && x.w0 < UINT && x.w1 < UINT && x.size < UINT
    && (forall i :: 0 <= i < |x.addrs| ==> x.addrs[i] < UINT)
  }

  // ------------------------------------------------------------ bitmap and inode table

  function BBlock(sb: Super, b: nat): nat {
    b / BPB + sb.bmapstart
  }

  function Used(sb: Super, d: Store, b: nat): bool
    requires Layout(sb, d) && b < sb.size
  {
    BBlockIn(sb, d, b);
    BitAt(d[BBlock(sb, b)], b % BPB)
  }

  lemma BBlockIn(sb: Super, d: Store, b: nat)
    requires Layout(sb, d) && b < sb.size
    ensures sb.bmapstart <= BBlock(sb, b) < sb.data
  {
  }

  function IBlock(sb: Super, i: nat): nat {
    i / IPB + sb.inodestart
  }

  lemma IBlockIn(sb: Super, d: Store, i: nat)
    requires Layout(sb, d) && i < sb.ninodes
    ensures sb.inodestart <= IBlock(sb, i) < sb.bmapstart
  {
  }

  function Words(x: Inode): seq<nat> {
    [x.w0, x.w1, x.size] + x.addrs
  }

  function FromWords(ws: seq<nat>): Inode
    requires |ws| == 16
  {
    Inode(ws[0], ws[1], ws[2], ws[3..])
  }

  /** The inode that the disk holds. */
  function Dinode(sb: Super, d: Store, i: nat): (x: Inode)
    requires Layout(sb, d) && i < sb.ninodes
    ensures InodeOk(x)
  {
    IBlockIn(sb, d, i);
    FromWords(WordsAt(d[IBlock(sb, i)], i % IPB * 16, 16))
  }

  /** iupdate. */
  function PutInode(sb: Super, d: Store, i: nat, x: Inode): Store
    requires Layout(sb, d) && i < sb.ninodes && InodeOk(x)
  {
    IBlockIn(sb, d, i);
    d[IBlock(sb, i) := PutWords(d[IBlock(sb, i)], i % IPB * 16, Words(x))]
  }

  lemma DinodePut(sb: Super, d: Store, i: nat, x: Inode, j: nat)
    requires Layout(sb, d) && i < sb.ninodes && InodeOk(x) && j < sb.ninodes
    ensures Dinode(sb, PutInode(sb, d, i, x), j) == if i == j then x else Dinode(sb, d, j)
  {
    hide WordsAt, PutWords;
    IBlockIn(sb, d, i);
    IBlockIn(sb, d, j);
    if IBlock(sb, i) == IBlock(sb, j) {
      InodeWords(d[IBlock(sb, i)], i % IPB, x, j % IPB);
      assert i % IPB == j % IPB <==> i == j;
    }
    assert FromWords(Words(x)) == x;
  }

  lemma InodeWords(b: Block, m: nat, x: Inode, n: nat)
    requires m < IPB && n < IPB && InodeOk(x)
    ensures WordsAt(PutWords(b, m * 16, Words(x)), n * 16, 16) == if m == n then Words(x) else WordsAt(b, n * 16, 16)
  {
    hide Word, PutWords, WordsAt;
    var ws, at := Words(x), n * 16;
    var c := PutWords(b, m * 16, ws);
    var l, r := WordsAt(c, at, 16), WordsAt(b, at, 16);
    forall k: nat | k < 16 ensures l[k] == if m == n then ws[k] else r[k] {
      WordsPut(b, m * 16, ws, at + k);
    }
  }

  // ------------------------------------------------------------ the log's view

  /** The disk is full: every bit is set. */
  ghost predicate Full(sb: Super, d: Store) {
    Layout(sb, d) && forall c: nat :: c < sb.size ==> Used(sb, d, c)
  }

  /** Every block that differs from `d` to `e` has been logged, and what was logged lies behind the
      log itself. */
  ghost predicate Logs(sb: Super, d: Store, l: set<nat>, e: Store, m: set<nat>) {
    && |e| == |d| && l <= m
    && (forall b :: 0 <= b < |d| && e[b] != d[b] ==> b in m)
    && (forall b :: b in m ==> b in l || sb.inodestart <= b < |d|)
  }

  lemma LogsTrans(sb: Super, d: Store, l: set<nat>, e: Store, m: set<nat>, f: Store, n: set<nat>)
    requires Logs(sb, d, l, e, m) && Logs(sb, e, m, f, n)
    ensures Logs(sb, d, l, f, n)
  {
    forall b | 0 <= b < |d| && f[b] != d[b] ensures b in n {
      assert e[b] != d[b] || f[b] != e[b];
    }
  }

  lemma LogsNone(sb: Super, d: Store, l: set<nat>)
    ensures Logs(sb, d, l, d, l)
  {
  }

  lemma LogsGrows(sb: Super, d: Store, l: set<nat>, e: Store, m: set<nat>)
    requires Logs(sb, d, l, e, m)
    ensures l != {} ==> m != {}
  {
    if l != {} { var b :| b in l; assert b in m; }
  }

  lemma LogsOne(sb: Super, d: Store, l: set<nat>, b: nat, v: Block)
    requires sb.inodestart <= b < |d|
    ensures Logs(sb, d, l, d[b := v], l + {b})
  {
  }

  // ------------------------------------------------------------ ownership

  /** The block number in slot `s` of an inode: direct, the indirect block, or an entry of it. */
  function Addr(d: Store, x: Inode, s: nat): nat
    requires InodeOk(x) && s < NSLOT
  {
    if s <= NDIRECT then x.addrs[s]
    else if 0 < x.addrs[NDIRECT] < |d| then Word(d[x.addrs[NDIRECT]], s - NDIRECT - 1)
    else 0
  }

  ghost predicate Table(sb: Super, d: Store, t: seq<Inode>) {
    Layout(sb, d) && |t| == sb.ninodes && forall i :: 0 <= i < |t| ==> InodeOk(t[i])
  }

  ghost predicate Owned(d: Store, t: seq<Inode>, b: nat)
    requires forall i :: 0 <= i < |t| ==> InodeOk(t[i])
  {
    exists i: nat, s: nat :: i < |t| && s < NSLOT && Addr(d, t[i], s) == b
  }

  /** Every block number in a slot is a data block, and is in no other slot. */
  ghost predicate Separate(sb: Super, d: Store, t: seq<Inode>)
    requires Table(sb, d, t)
  {
    && (forall i: nat, s: nat :: i < |t| && s < NSLOT && Addr(d, t[i], s) != 0 ==> sb.data <= Addr(d, t[i], s) < sb.size)
    && (forall i: nat, s: nat, j: nat, r: nat ::
          i < |t| && s < NSLOT && j < |t| && r < NSLOT && Addr(d, t[i], s) != 0 && Addr(d, t[i], s) == Addr(d, t[j], r) ==> i == j && s == r)
  }

  /** A bit is set exactly for metadata, for owned blocks, and for the blocks `x` that are between
      owners. */
  ghost predicate Mapped(sb: Super, d: Store, t: seq<Inode>, x: set<nat>)
    requires Table(sb, d, t)
  {
    && (forall b :: b in x ==> sb.data <= b < sb.size && !Owned(d, t, b))
    && (forall b: nat :: b < sb.size ==> (Used(sb, d, b) <==> b < sb.data || Owned(d, t, b) || b in x))
  }

  ghost predicate Own(sb: Super, d: Store, t: seq<Inode>, x: set<nat>) {
    Table(sb, d, t) && Separate(sb, d, t) && Mapped(sb, d, t, x)
  }

  // ------------------------------------------------------------ writes that leave it alone

  /** The same bits and the same block numbers. */
  ghost predicate SameMap(sb: Super, d: Store, e: Store, t: seq<Inode>)
    requires Table(sb, d, t) && |e| == |d|
  {
    && (forall b: nat :: b < sb.size ==> Used(sb, e, b) == Used(sb, d, b))
    && (forall i: nat, s: nat :: i < |t| && s < NSLOT ==> Addr(e, t[i], s) == Addr(d, t[i], s))
  }

  lemma SameMapOwn(sb: Super, d: Store, e: Store, t: seq<Inode>, x: set<nat>)
    requires Own(sb, d, t, x) && |e| == |d| && SameMap(sb, d, e, t)
    ensures Own(sb, e, t, x)
  {
    hide Addr, Used;
    forall b: nat ensures Owned(e, t, b) <==> Owned(d, t, b) {
      if i: nat, s: nat :| i < |t| && s < NSLOT && Addr(d, t[i], s) == b { assert Addr(e, t[i], s) == b; }
      if i: nat, s: nat :| i < |t| && s < NSLOT && Addr(e, t[i], s) == b { assert Addr(d, t[i], s) == b; }
    }
  }

  /** A data block that is nobody's indirect block may be overwritten. */
  lemma DataWrite(sb: Super, d: Store, t: seq<Inode>, a: nat, v: Block)
    requires Table(sb, d, t) && sb.data <= a < sb.size && forall i :: 0 <= i < |t| ==> t[i].addrs[NDIRECT] != a
    ensures SameMap(sb, d, d[a := v], t)
  {
    forall b: nat | b < sb.size ensures Used(sb, d[a := v], b) == Used(sb, d, b) {
      BBlockIn(sb, d, b);
    }
  }

  // ------------------------------------------------------------ allocating and freeing

  function SetBit(sb: Super, d: Store, b: nat, on: bool): (e: Store)
    requires Layout(sb, d) && b < sb.size
    ensures |e| == |d|
  {
    BBlockIn(sb, d, b);
    d[BBlock(sb, b) := PutBit(d[BBlock(sb, b)], b % BPB, on)]
  }

  lemma UsedSet(sb: Super, d: Store, b: nat, on: bool, c: nat)
    requires Layout(sb, d) && b < sb.size && c < sb.size
    ensures Used(sb, SetBit(sb, d, b, on), c) == if b == c then on else Used(sb, d, c)
  {
    hide PutBit, BitAt;
    BBlockIn(sb, d, b);
    BBlockIn(sb, d, c);
    if BBlock(sb, b) == BBlock(sb, c) {
      BitPut(d[BBlock(sb, b)], b % BPB, on, c % BPB);
      assert b % BPB == c % BPB <==> b == c;
    }
  }

  /** Block numbers in slots, though not bits, survive any change outside indirect blocks. */
  lemma SameAddrs(d: Store, e: Store, t: seq<Inode>)
    requires |e| == |d|
    requires forall i :: 0 <= i < |t| ==> InodeOk(t[i]) && (0 < t[i].addrs[NDIRECT] < |d| ==> e[t[i].addrs[NDIRECT]] == d[t[i].addrs[NDIRECT]])
    ensures forall i: nat, s: nat :: i < |t| && s < NSLOT ==> Addr(e, t[i], s) == Addr(d, t[i], s)
  {
  }

  lemma SetBitAddrs(sb: Super, d: Store, t: seq<Inode>, b: nat, on: bool)
    requires Table(sb, d, t) && Separate(sb, d, t) && b < sb.size
    ensures forall i: nat, s: nat :: i < |t| && s < NSLOT ==> Addr(SetBit(sb, d, b, on), t[i], s) == Addr(d, t[i], s)
  {
    hide PutBit;
    BBlockIn(sb, d, b);
    forall i: nat | i < |t| && 0 < t[i].addrs[NDIRECT] < |d| ensures t[i].addrs[NDIRECT] != BBlock(sb, b) {
      assert Addr(d, t[i], NDIRECT) != 0;
    }
    SameAddrs(d, SetBit(sb, d, b, on), t);
  }

  lemma SameOwned(d: Store, e: Store, t: seq<Inode>)
    requires |e| == |d| && forall i :: 0 <= i < |t| ==> InodeOk(t[i])
    requires forall i: nat, s: nat :: i < |t| && s < NSLOT ==> Addr(e, t[i], s) == Addr(d, t[i], s)
    ensures forall b: nat :: Owned(e, t, b) <==> Owned(d, t, b)
  {
    hide Addr;
    forall b: nat ensures Owned(e, t, b) <==> Owned(d, t, b) {
      if i: nat, s: nat :| i < |t| && s < NSLOT && Addr(d, t[i], s) == b { assert Addr(e, t[i], s) == b; }
      if i: nat, s: nat :| i < |t| && s < NSLOT && Addr(e, t[i], s) == b { assert Addr(d, t[i], s) == b; }
    }
  }

  /** balloc: a clear bit is set and the block zeroed; it is a data block that nobody owned. */
  function Alloc(sb: Super, d: Store, b: nat): (e: Store)
    requires Layout(sb, d) && b < sb.size
    ensures |e| == |d|
  {
    SetBit(sb, d, b, true)[b := Zero()]
  }

  lemma AllocOwn(sb: Super, d: Store, t: seq<Inode>, x: set<nat>, b: nat)
    requires Own(sb, d, t, x) && b < sb.size && !Used(sb, d, b)
    ensures sb.data <= b && b !in x && !Owned(d, t, b)
    ensures Own(sb, Alloc(sb, d, b), t, x + {b})
    ensures forall i: nat, s: nat :: i < |t| && s < NSLOT ==> Addr(Alloc(sb, d, b), t[i], s) == Addr(d, t[i], s)
  {
    hide Addr, Used;
    var m := SetBit(sb, d, b, true);
    SetBitAddrs(sb, d, t, b, true);
    SetBitOwn(sb, d, t, x, b);
    NotIndirect(d, t, b);
    DataWrite(sb, m, t, b, Zero());
    SameMapOwn(sb, m, m[b := Zero()], t, x + {b});
  }

  lemma AllocLogs(sb: Super, d: Store, l: set<nat>, b: nat)
    requires Layout(sb, d) && sb.data <= b < sb.size
    ensures Logs(sb, d, l, Alloc(sb, d, b), l + {BBlock(sb, b), b})
  {
    hide PutBit;
    BBlockIn(sb, d, b);
    var m := SetBit(sb, d, b, true);
    LogsOne(sb, d, l, BBlock(sb, b), m[BBlock(sb, b)]);
    LogsOne(sb, m, l + {BBlock(sb, b)}, b, Zero());
    LogsTrans(sb, d, l, m, l + {BBlock(sb, b)}, m[b := Zero()], l + {BBlock(sb, b)} + {b});
    assert l + {BBlock(sb, b)} + {b} == l + {BBlock(sb, b), b};
  }

  lemma NotIndirect(d: Store, t: seq<Inode>, b: nat)
    requires (forall i :: 0 <= i < |t| ==> InodeOk(t[i])) && !Owned(d, t, b)
    ensures forall i :: 0 <= i < |t| ==> t[i].addrs[NDIRECT] != b
  {
    forall i: nat | i < |t| ensures t[i].addrs[NDIRECT] != b {
      assert Addr(d, t[i], NDIRECT) == t[i].addrs[NDIRECT];
    }
  }

  lemma SetBitOwn(sb: Super, d: Store, t: seq<Inode>, x: set<nat>, b: nat)
    requires Own(sb, d, t, x) && b < sb.size && !Used(sb, d, b)
    ensures sb.data <= b && b !in x && !Owned(d, t, b)
    ensures Own(sb, SetBit(sb, d, b, true), t, x + {b})
  {
    hide Addr, SetBit, Used;
    var m := SetBit(sb, d, b, true);
    SetBitAddrs(sb, d, t, b, true);
    SameOwned(d, m, t);
    forall c: nat | c < sb.size ensures Used(sb, m, c) == if b == c then true else Used(sb, d, c) {
      UsedSet(sb, d, b, true, c);
    }
  }

  /** bfree of a block between owners: its bit is set, so the panic does not happen. */
  lemma FreeOwn(sb: Super, d: Store, t: seq<Inode>, x: set<nat>, b: nat)
    requires Own(sb, d, t, x) && b in x
    ensures b < sb.size && Used(sb, d, b)
    ensures Own(sb, SetBit(sb, d, b, false), t, x - {b})
    ensures forall i: nat, s: nat :: i < |t| && s < NSLOT ==> Addr(SetBit(sb, d, b, false), t[i], s) == Addr(d, t[i], s)
  {
    hide Addr, SetBit, Used;
    var m := SetBit(sb, d, b, false);
    SetBitAddrs(sb, d, t, b, false);
    SameOwned(d, m, t);
    forall c: nat | c < sb.size ensures Used(sb, m, c) == if b == c then false else Used(sb, d, c) {
      UsedSet(sb, d, b, false, c);
    }
  }

  // ------------------------------------------------------------ taking and dropping ownership

  /** One slot goes from empty to `b`, a block between owners; nothing else changes. */
  lemma AttachOwn(sb: Super, d: Store, t: seq<Inode>, e: Store, u: seq<Inode>, x: set<nat>, i: nat, s: nat, b: nat)
    requires Own(sb, d, t, x) && Table(sb, e, u) && |e| == |d|
    requires i < |t| && s < NSLOT && b in x && Addr(d, t[i], s) == 0 && Addr(e, u[i], s) == b
    requires forall j: nat, r: nat :: j < |t| && r < NSLOT && (j != i || r != s) ==> Addr(e, u[j], r) == Addr(d, t[j], r)
    requires forall c: nat :: c < sb.size ==> Used(sb, e, c) == Used(sb, d, c)
    ensures Own(sb, e, u, x - {b})
  {
    hide Addr, Used;
    forall c: nat | c != 0 ensures Owned(e, u, c) <==> Owned(d, t, c) || c == b {
      if j: nat, r: nat :| j < |t| && r < NSLOT && Addr(d, t[j], r) == c { assert Addr(e, u[j], r) == c; }
      if j: nat, r: nat :| j < |t| && r < NSLOT && Addr(e, u[j], r) == c { assert (j != i || r != s) ==> Addr(d, t[j], r) == c; }
    }
    forall j: nat, r: nat | j < |t| && r < NSLOT && (j != i || r != s) ensures Addr(e, u[j], r) != b {
      assert !Owned(d, t, b);
    }
  }

  /** Some slots of inode `i` become empty; `y` are the blocks that were in them. */
  lemma DetachOwn(sb: Super, d: Store, t: seq<Inode>, u: seq<Inode>, x: set<nat>, i: nat, y: set<nat>)
    requires Own(sb, d, t, x) && Table(sb, d, u) && i < |t|
    requires forall j: nat :: j < |t| && j != i ==> u[j] == t[j]
    requires forall s: nat :: s < NSLOT ==> Addr(d, u[i], s) == Addr(d, t[i], s) || Addr(d, u[i], s) == 0
    requires forall b :: b in y ==> b != 0 && Held(d, t[i], b) && !Held(d, u[i], b)
    requires forall s: nat :: s < NSLOT && Addr(d, u[i], s) != Addr(d, t[i], s) ==> Addr(d, t[i], s) in y
    ensures Own(sb, d, u, x + y)
  {
    hide Addr, Used;
    forall c: nat | c != 0 ensures Owned(d, u, c) <==> Owned(d, t, c) && c !in y {
      if j: nat, r: nat :| j < |t| && r < NSLOT && Addr(d, u[j], r) == c {
        assert Addr(d, t[j], r) == c;
      }
      if j: nat, r: nat :| j < |t| && r < NSLOT && Addr(d, t[j], r) == c && c !in y { assert Addr(d, u[j], r) == c; }
    }
    forall b | b in y ensures sb.data <= b < sb.size && Owned(d, t, b) {
      var q: nat :| q < NSLOT && Addr(d, t[i], q) == b;
    }
  }

  ghost predicate Held(d: Store, x: Inode, b: nat)
    requires InodeOk(x)
  {
    exists s: nat :: s < NSLOT && Addr(d, x, s) == b
  }

  function SetAddr(t: seq<Inode>, i: nat, s: nat, b: nat): seq<Inode>
    requires i < |t| && InodeOk(t[i]) && s <= NDIRECT
  {
    t[i := t[i].(addrs := t[i].addrs[s := b])]
  }

  /** bmap's direct slots, and its indirect block, which comes zeroed. */
  lemma AttachDirect(sb: Super, d: Store, t: seq<Inode>, x: set<nat>, i: nat, s: nat, b: nat)
    requires Own(sb, d, t, x) && i < |t| && s <= NDIRECT && b in x && t[i].addrs[s] == 0
    requires s == NDIRECT ==> b < |d| && d[b] == Zero()
    ensures Own(sb, d, SetAddr(t, i, s, b), x - {b})
    ensures forall r: nat :: r < NSLOT && r != s ==> Addr(d, SetAddr(t, i, s, b)[i], r) == Addr(d, t[i], r)
  {
    hide Used;
    var u := SetAddr(t, i, s, b);
    forall r: nat | r < NSLOT && r != s ensures Addr(d, u[i], r) == Addr(d, t[i], r) {
      if s == NDIRECT && r > NDIRECT { ZeroWord(r - NDIRECT - 1); }
    }
    AttachOwn(sb, d, t, d, u, x, i, s, b);
  }

  /** bmap's entry in the indirect block. */
  lemma AttachEntry(sb: Super, d: Store, t: seq<Inode>, x: set<nat>, i: nat, k: nat, b: nat)
    requires Own(sb, d, t, x) && i < |t| && k < NINDIRECT && b in x && b < UINT
    requires 0 < t[i].addrs[NDIRECT] < |d| && Word(d[t[i].addrs[NDIRECT]], k) == 0
    ensures var p := t[i].addrs[NDIRECT]; var e := d[p := PutWord(d[p], k, b)];
            && Own(sb, e, t, x - {b}) && Addr(e, t[i], NDIRECT + 1 + k) == b
            && (forall j: nat, r: nat :: j < |t| && r < NSLOT && (j != i || r != NDIRECT + 1 + k) ==> Addr(e, t[j], r) == Addr(d, t[j], r))
  {
    hide Used, Word, PutWord;
    var p := t[i].addrs[NDIRECT];
    var e := d[p := PutWord(d[p], k, b)];
    assert Addr(d, t[i], NDIRECT) == p;
    forall j: nat, r: nat | j < |t| && r < NSLOT ensures Addr(e, t[j], r) == if j == i && r == NDIRECT + 1 + k then b else Addr(d, t[j], r) {
      if r > NDIRECT && t[j].addrs[NDIRECT] == p {
        assert Addr(d, t[j], NDIRECT) == p;
        WordPut(d[p], k, b, r - NDIRECT - 1);
      }
    }
    forall c: nat | c < sb.size ensures Used(sb, e, c) == Used(sb, d, c) {
      UsedData(sb, d, p, PutWord(d[p], k, b), c);
    }
    AttachOwn(sb, d, t, e, t, x, i, NDIRECT + 1 + k, b);
  }

  lemma UsedData(sb: Super, d: Store, a: nat, v: Block, c: nat)
    requires Layout(sb, d) && sb.data <= a < |d| && c < sb.size
    ensures Used(sb, d[a := v], c) == Used(sb, d, c)
  {
    BBlockIn(sb, d, c);
  }
}
