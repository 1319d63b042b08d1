/** One iteration of writei, on values: what it adds to the file, and what it leaves alone. */
module FsWrite {
  import opened Sets
  import opened Params
  import opened FsBlocks
  import opened FsSpec
  import opened FsFile
  import opened FsBmap

  function Max(a: nat, b: nat): nat {
    if a < b then b else a
  }

  /** memmove of `piece` to offset `o` of a block. */
  function Patch(b: Block, o: nat, piece: seq<Byte>): Block
    requires o + |piece| <= BSIZE
  {
    b[..o] + piece + b[o + |piece|..]
  }

  /** `src` written over a sequence at `off`, extending it if need be. */
  function Splice(c: seq<Byte>, off: nat, src: seq<Byte>): seq<Byte>
    requires off <= |c|
  {
    c[..off] + src + if off + |src| <= |c| then c[off + |src|..] else []
  }

  /** The inodes other than `i` have the same blocks with the same bytes. */
  ghost predicate OthersSame(d: Store, t: seq<Inode>, e: Store, u: seq<Inode>, i: nat) {
    && |t| == |u|
    && (forall j :: 0 <= j < |t| && j != i ==> u[j] == t[j] && InodeOk(t[j]) && SameSlots(d, t[j], e, u[j]) && Keeps(d, t[j], e, u[j]))
  }

  /** writei of `src` at `off` to inode `i`, when `tot` bytes are written. */
  ghost predicate Writing(d: Store, t: seq<Inode>, e: Store, u: seq<Inode>, i: nat, off: nat, tot: nat, src: seq<Byte>) {
    && i < |t| && InodeOk(t[i]) && OthersSame(d, t, e, u, i)
    && tot <= |src| && off <= t[i].size && off + |src| <= MAXFILE * BSIZE
    && Filled(d, t[i], t[i].size)
    && u[i] == t[i].(addrs := u[i].addrs) && Filled(e, u[i], Max(t[i].size, off + tot))
    && (forall k: nat :: k < Max(t[i].size, off + tot) ==> ByteAt(e, u[i], k) == if off <= k < off + tot then src[k - off] else ByteAt(d, t[i], k))
    && (u[i] != t[i] ==> off + tot > t[i].size)
  }

  /** Where the next piece goes, and how long it is. */
  predicate Piece(off: nat, tot: nat, n: nat, bn: nat, o: nat, m: nat) {
    && tot < n && bn == (off + tot) / BSIZE && o == (off + tot) % BSIZE
    && m == (if n - tot < BSIZE - o then n - tot else BSIZE - o)
  }

  lemma PieceFacts(off: nat, tot: nat, n: nat, bn: nat, o: nat, m: nat)
    requires Piece(off, tot, n, bn, o, m) && off + n <= MAXFILE * BSIZE
    ensures m > 0 && o + m <= BSIZE && tot + m <= n && bn < MAXFILE
    ensures bn * BSIZE + o == off + tot && off + tot + m <= (bn + 1) * BSIZE
  {
  }

  lemma PieceInFile(d: Store, t: seq<Inode>, e: Store, u: seq<Inode>, i: nat, off: nat, tot: nat, src: seq<Byte>, bn: nat, o: nat, m: nat)
    requires Writing(d, t, e, u, i, off, tot, src) && Piece(off, tot, |src|, bn, o, m)
    ensures bn < MAXFILE
  {
    PieceFacts(off, tot, |src|, bn, o, m);
  }

  /** In which block a byte lies. */
  lemma InBlock(k: nat, bn: nat)
    ensures k / BSIZE == bn <==> bn * BSIZE <= k < (bn + 1) * BSIZE
    ensures k / BSIZE * BSIZE <= k
    ensures k / BSIZE < bn <==> k < bn * BSIZE
  {
  }

  lemma FilledGrows(d: Store, x: Inode, e: Store, y: Inode, end: nat, next: nat, bn: nat)
    requires Filled(d, x, end) && InodeOk(y) && bn < MAXFILE && next <= MAXFILE * BSIZE
    requires forall r: nat :: r < NSLOT && r != SlotOf(bn) && (r != NDIRECT || bn < NDIRECT) ==> Addr(e, y, r) == Addr(d, x, r)
    requires Addr(e, y, SlotOf(bn)) != 0 && (bn >= NDIRECT ==> y.addrs[NDIRECT] != 0)
    requires bn * BSIZE < next && end <= next && (next == end || next <= (bn + 1) * BSIZE) && (next == end || bn * BSIZE <= end)
    ensures Filled(e, y, next)
  {
    assert bn < NDIRECT ==> Addr(e, y, NDIRECT) == Addr(d, x, NDIRECT);
    hide Addr;
    forall c: nat | c < MAXFILE ensures Addr(e, y, SlotOf(c)) != 0 <==> c * BSIZE < next {
      if c != bn {
        assert Addr(e, y, SlotOf(c)) == Addr(d, x, SlotOf(c));
        assert c < bn ==> (c + 1) * BSIZE <= bn * BSIZE;
        assert c > bn ==> c * BSIZE >= (bn + 1) * BSIZE;
      }
    }
  }

  lemma OthersTrans(d: Store, t: seq<Inode>, e: Store, u: seq<Inode>, f: Store, v: seq<Inode>, i: nat)
    requires OthersSame(d, t, e, u, i) && OthersSame(e, u, f, v, i)
    ensures OthersSame(d, t, f, v, i)
  {
    forall j | 0 <= j < |t| && j != i ensures v[j] == t[j] && InodeOk(t[j]) && SameSlots(d, t[j], f, v[j]) && Keeps(d, t[j], f, v[j]) {
      assert SameSlots(d, t[j], e, u[j]) && SameSlots(e, u[j], f, v[j]);
      hide Addr;
      KeepsTrans(d, t[j], e, u[j], f, v[j]);
    }
  }

  lemma BmapOthers(sb: Super, d: Store, t: seq<Inode>, l: set<nat>, e: Store, u: seq<Inode>, m: set<nat>, bits: set<nat>, i: nat, bn: nat, a: nat)
    requires BmapEffect(sb, d, t, l, e, u, m, bits, i, bn, a)
    ensures OthersSame(d, t, e, u, i)
  {
    hide Addr;
    forall j | 0 <= j < |t| && j != i ensures u[j] == t[j] && InodeOk(t[j]) && SameSlots(d, t[j], e, u[j]) && Keeps(d, t[j], e, u[j]) {
    }
  }

  /** Overwriting a file's data block: no slot changes, and no byte of another file. */
  lemma PatchSlots(sb: Super, e: Store, u: seq<Inode>, x: set<nat>, i: nat, bn: nat, a: nat, v: Block)
    requires Own(sb, e, u, x) && i < |u| && bn < MAXFILE && a == Addr(e, u[i], SlotOf(bn)) && a != 0
    ensures a < |e| && Own(sb, e[a := v], u, x) && OthersSame(e, u, e[a := v], u, i)
    ensures SameSlots(e, u[i], e[a := v], u[i])
  {
    var f := e[a := v];
    forall j: nat | j < |u| ensures u[j].addrs[NDIRECT] != a {
      assert Addr(e, u[j], NDIRECT) == u[j].addrs[NDIRECT];
    }
    DataWrite(sb, e, u, a, v);
    hide Addr, Used;
    SameMapOwn(sb, e, f, u, x);
    forall j: nat, s: nat | j < |u| && s < NSLOT && j != i && Addr(e, u[j], s) != 0 ensures Addr(e, u[j], s) != a {
    }
  }

  /** One byte of inode `i` after the piece is written. */
  lemma ByteAfter(sb: Super, d: Store, t: seq<Inode>, e: Store, u: seq<Inode>, x: set<nat>, i: nat, bn: nat, a: nat, o: nat, piece: seq<Byte>, end: nat, k: nat)
    requires Own(sb, e, u, x) && Reached(d, t, e, u, i, bn) && a == Addr(e, u[i], SlotOf(bn)) && a < |e| == |d|
    requires Filled(d, t[i], end) && k < MAXFILE * BSIZE && o + |piece| <= BSIZE
    requires k / BSIZE != bn || !(o <= k % BSIZE < o + |piece|) ==> k < end
    ensures ByteAt(e[a := Patch(e[a], o, piece)], u[i], k)
         == if k / BSIZE == bn && o <= k % BSIZE < o + |piece| then piece[k % BSIZE - o] else ByteAt(d, t[i], k)
  {
    var f, c := e[a := Patch(e[a], o, piece)], k / BSIZE;
    PatchSlots(sb, e, u, x, i, bn, a, Patch(e[a], o, piece));
    InBlock(k, c);
    assert Addr(f, u[i], SlotOf(c)) == Addr(e, u[i], SlotOf(c));
    if !(c == bn && o <= k % BSIZE < o + |piece|) {
      assert Addr(d, t[i], SlotOf(c)) != 0;
      assert Keeps(d, t[i], e, u[i]);
      var b := Addr(d, t[i], SlotOf(c));
      assert Addr(e, u[i], SlotOf(c)) == b;
      hide Addr;
      assert sb.data <= b < sb.size;
      assert c != bn ==> b != a;
    }
  }

  lemma WriteStep(sb: Super, d: Store, t: seq<Inode>, e: Store, u: seq<Inode>, l: set<nat>, f: Store, v: seq<Inode>, m: set<nat>, bits: set<nat>, x: set<nat>,
                  i: nat, off: nat, tot: nat, src: seq<Byte>, bn: nat, o: nat, n: nat, a: nat)
    requires Writing(d, t, e, u, i, off, tot, src) && Piece(off, tot, |src|, bn, o, n)
    requires BmapEffect(sb, e, u, l, f, v, m, bits, i, bn, a) && Own(sb, f, v, x) && tot + n <= |src| && o + n <= BSIZE
    ensures a < |f| && Own(sb, f[a := Patch(f[a], o, src[tot..tot + n])], v, x)
    ensures Writing(d, t, f[a := Patch(f[a], o, src[tot..tot + n])], v, i, off, tot + n, src)
  {
    var piece := src[tot..tot + n];
    var end, next := Max(t[i].size, off + tot), Max(t[i].size, off + tot + n);
    PieceFacts(off, tot, |src|, bn, o, n);
    BmapOthers(sb, e, u, l, f, v, m, bits, i, bn, a);
    PatchSlots(sb, f, v, x, i, bn, a, Patch(f[a], o, piece));
    var g := f[a := Patch(f[a], o, piece)];
    OthersTrans(d, t, e, u, f, v, i);
    OthersTrans(d, t, f, v, g, v, i);
    FilledGrows(e, u[i], f, v[i], end, next, bn);
    FilledSame(f, v[i], g, v[i], next);
    hide Addr, Own, Reached, Filled, OthersSame, Keeps, Bytes;
    forall k: nat | k < next ensures ByteAt(g, v[i], k) == if off <= k < off + tot + n then src[k - off] else ByteAt(d, t[i], k) {
      WriteByte(sb, d, t, e, u, f, v, x, i, off, tot, src, bn, o, n, a, k);
    }
  }

  lemma FilledSame(d: Store, x: Inode, e: Store, y: Inode, end: nat)
    requires Filled(d, x, end) && InodeOk(y) && SameSlots(d, x, e, y)
    ensures Filled(e, y, end)
  {
    assert Addr(e, y, NDIRECT) == Addr(d, x, NDIRECT);
    hide Addr;
  }

  lemma WriteByte(sb: Super, d: Store, t: seq<Inode>, e: Store, u: seq<Inode>, f: Store, v: seq<Inode>, x: set<nat>,
                  i: nat, off: nat, tot: nat, src: seq<Byte>, bn: nat, o: nat, n: nat, a: nat, k: nat)
    requires Writing(d, t, e, u, i, off, tot, src) && Piece(off, tot, |src|, bn, o, n)
    requires Reached(e, u, f, v, i, bn) && a == Addr(f, v[i], SlotOf(bn)) && a < |f| == |e| && Own(sb, f, v, x) && tot + n <= |src| && o + n <= BSIZE
    requires k < Max(t[i].size, off + tot + n) && k < MAXFILE * BSIZE && InodeOk(v[i])
    ensures ByteAt(f[a := Patch(f[a], o, src[tot..tot + n])], v[i], k) == if off <= k < off + tot + n then src[k - off] else ByteAt(d, t[i], k)
  {
    var piece := src[tot..tot + n];
    PieceFacts(off, tot, |src|, bn, o, n);
    InBlock(k, bn);
    hide Addr, Own, Reached, Filled, OthersSame, Keeps, Bytes, ByteAt;
    ByteAfter(sb, e, u, f, v, x, i, bn, a, o, piece, Max(t[i].size, off + tot), k);
  }

  // ------------------------------------------------------------ reading

  /** What one iteration of readi copies. */
  lemma ReadPiece(d: Store, x: Inode, off: nat, tot: nat, n: nat, bn: nat, o: nat, m: nat, a: nat)
    requires Filled(d, x, x.size) && off + n <= x.size && Piece(off, tot, n, bn, o, m)
    requires bn < MAXFILE && a == Addr(d, x, SlotOf(bn)) && a < |d| && o + m <= BSIZE && tot + m <= n
    ensures d[a][o..o + m] == Content(d, x)[off + tot..off + tot + m]
    ensures a != 0
  {
    PieceFacts(off, tot, n, bn, o, m);
    var l, r := d[a][o..o + m], Content(d, x)[off + tot..off + tot + m];
    forall k: nat | k < m ensures l[k] == r[k] {
      InBlock(off + tot + k, bn);
      assert (off + tot + k) % BSIZE == o + k;
    }
  }

  // ------------------------------------------------------------ how much a write logs

  /** File blocks that `n` bytes at `off` touch. */
  function Touched(off: nat, n: nat): nat {
    if n == 0 then 0 else (off + n - 1) / BSIZE - off / BSIZE + 1
  }

  /** At most this many blocks are logged: the file blocks touched, a bitmap block for each that is
      new, the indirect block and its bitmap block, and the inode's block.  A file block that the
      write only continues is not new. */
  function LogBound(off: nat, n: nat): nat {
    2 * Touched(off, n) + 3
  }

  function SmallBound(off: nat, n: nat): int {
    LogBound(off, n) - (if n > 0 && off % BSIZE != 0 then 1 else 0)
  }

  const MAXCHUNK: nat := (MAXOPBLOCKS - 1 - 1 - 2) / 2 * BSIZE

  /** filewrite's chunks keep to what begin_op reserves, wherever they fall. */
  lemma ChunkFits(off: nat, n: nat)
    requires n <= MAXCHUNK
    ensures SmallBound(off, n) <= MAXOPBLOCKS
  {
    if n > 0 {
      var q, r, h := off / BSIZE, off % BSIZE, (MAXOPBLOCKS - 4) / 2;
      assert off == q * BSIZE + r && n <= h * BSIZE;
      assert (off + n - 1) / BSIZE <= if r == 0 then q + h - 1 else q + h;
    }
  }

  /** The write has touched `k` file blocks so far. */
  predicate Progress(off: nat, tot: nat, n: nat, k: nat) {
    && tot <= n && (k == 0 <==> tot == 0)
    && (0 < tot < n ==> (off + tot) % BSIZE == 0 && (off + tot) / BSIZE == off / BSIZE + k)
    && (0 < tot == n ==> k == Touched(off, n))
  }

  lemma ProgressStep(off: nat, tot: nat, n: nat, k: nat, bn: nat, o: nat, m: nat)
    requires Progress(off, tot, n, k) && Piece(off, tot, n, bn, o, m)
    ensures m > 0 && o + m <= BSIZE && tot + m <= n && Progress(off, tot + m, n, k + 1)
    ensures k > 0 ==> o == 0
  {
    var q := off / BSIZE;
    assert bn == q + k && bn * BSIZE + o == off + tot;
    if tot + m < n {
      assert o + m == BSIZE && off + tot + m == (bn + 1) * BSIZE;
    } else {
      assert off + n - 1 == bn * BSIZE + (o + m - 1);
      assert (off + n - 1) / BSIZE == bn;
    }
  }

  /** After `k` file blocks, `fresh` of them new: what was logged lies in the file blocks `data`,
      the bitmap blocks `bm` and the indirect block. */
  ghost predicate Track(l: set<nat>, m: set<nat>, data: set<nat>, bm: set<nat>, k: nat, news: nat, was: nat, ind: nat, off: nat) {
    && m <= l + data + bm + (if ind == 0 then {} else {ind})
    && |data| <= k && |bm| <= news + (if was == 0 && ind != 0 then 1 else 0)
    && news + (if k > 0 && off % BSIZE != 0 then 1 else 0) <= k
    && (was != 0 ==> ind == was)
  }

  lemma TrackStep(sb: Super, d: Store, t: seq<Inode>, e: Store, u: seq<Inode>, l: set<nat>, m: set<nat>, f: Store, v: seq<Inode>, q: set<nat>, bits: set<nat>,
                  i: nat, off: nat, tot: nat, src: seq<Byte>, bn: nat, o: nat, n: nat, a: nat, data: set<nat>, bm: set<nat>, k: nat, g: nat)
    requires Writing(d, t, e, u, i, off, tot, src) && Piece(off, tot, |src|, bn, o, n) && (k == 0 ==> tot == 0)
    requires BmapEffect(sb, e, u, m, f, v, q, bits, i, bn, a)
    requires Track(l, m, data, bm, k, g, t[i].addrs[NDIRECT], u[i].addrs[NDIRECT], off)
    ensures Track(l, q + {a}, data + {a}, bm + bits, k + 1, g + (if Addr(e, u[i], SlotOf(bn)) == 0 then 1 else 0), t[i].addrs[NDIRECT], v[i].addrs[NDIRECT], off)
  {
    PieceFacts(off, tot, |src|, bn, o, n);
    assert Addr(e, u[i], NDIRECT) == u[i].addrs[NDIRECT] && Addr(f, v[i], NDIRECT) == v[i].addrs[NDIRECT];
    assert Keeps(e, u[i], f, v[i]);
    if o > 0 { assert Addr(e, u[i], SlotOf(bn)) != 0; }
    hide *;
    TrackNext(l, m, q, data, bm, bits, k, g, t[i].addrs[NDIRECT], u[i].addrs[NDIRECT], v[i].addrs[NDIRECT], off, a, bn >= NDIRECT, Addr(e, u[i], SlotOf(bn)) == 0);
  }

  lemma TrackNext(l: set<nat>, m: set<nat>, q: set<nat>, data: set<nat>, bm: set<nat>, bits: set<nat>, k: nat, g: nat,
                  was: nat, ind: nat, next: nat, off: nat, a: nat, indirect: bool, isNew: bool)
    requires Track(l, m, data, bm, k, g, was, ind, off)
    requires q <= m + bits + {a} + (if indirect then {next} else {})
    requires |bits| <= (if isNew then 1 else 0) + (if indirect && ind == 0 then 1 else 0)
    requires (ind != 0 ==> next == ind) && (if indirect then next != 0 else next == ind)
    requires k == 0 && off % BSIZE != 0 ==> !isNew
    ensures Track(l, q + {a}, data + {a}, bm + bits, k + 1, g + (if isNew then 1 else 0), was, next, off)
  {
    UnionSize(data, {a});
    UnionSize(bm, bits);
  }

  lemma TrackTotal(l: set<nat>, m: set<nat>, data: set<nat>, bm: set<nat>, k: nat, g: nat, was: nat, ind: nat, off: nat, n: nat, iblock: nat)
    requires Track(l, m, data, bm, k, g, was, ind, off) && k == Touched(off, n)
    ensures m + {iblock} <= l + (data + bm + {ind, iblock}) && |data + bm + {ind, iblock}| <= SmallBound(off, n)
  {
    UnionSize(data, bm);
    UnionSize(data + bm, {ind, iblock});
    assert |{ind, iblock}| <= 2;
  }

  // ------------------------------------------------------------ the end of a write

  /** The disk copy of every inode agrees with the table. */
  ghost predicate Synced(sb: Super, d: Store, t: seq<Inode>) {
    Layout(sb, d) && |t| == sb.ninodes && forall i: nat :: i < |t| ==> Dinode(sb, d, i) == t[i]
  }

  ghost predicate AllFilled(d: Store, t: seq<Inode>) {
    forall i: nat :: i < |t| ==> Filled(d, t[i], t[i].size)
  }

  lemma SyncedSame(sb: Super, d: Store, e: Store, t: seq<Inode>)
    requires Synced(sb, d, t) && |e| == |d| && forall b :: 0 <= b < sb.bmapstart ==> e[b] == d[b]
    ensures Synced(sb, e, t)
  {
    forall i: nat | i < |t| ensures Dinode(sb, e, i) == t[i] { IBlockIn(sb, d, i); }
  }

  /** Changing only what the inode says besides its addresses. */
  lemma SameAddrsOwn(sb: Super, d: Store, t: seq<Inode>, x: set<nat>, i: nat, y: Inode)
    requires Own(sb, d, t, x) && i < |t| && InodeOk(y) && y.addrs == t[i].addrs
    ensures Own(sb, d, t[i := y], x)
  {
    var u := t[i := y];
    forall j: nat, s: nat | j < |t| && s < NSLOT ensures Addr(d, u[j], s) == Addr(d, t[j], s) {
    }
    hide Addr, Used;
    forall b: nat ensures Owned(d, u, b) <==> Owned(d, t, b) {
      if j: nat, s: nat :| j < |t| && s < NSLOT && Addr(d, t[j], s) == b { assert Addr(d, u[j], s) == b; }
      if j: nat, s: nat :| j < |t| && s < NSLOT && Addr(d, u[j], s) == b { assert Addr(d, t[j], s) == b; }
    }
  }

  /** iupdate touches neither the bitmap nor any block in a slot. */
  lemma PutInodeOwn(sb: Super, d: Store, t: seq<Inode>, x: set<nat>, i: nat, y: Inode)
    requires Own(sb, d, t, x) && i < sb.ninodes && InodeOk(y)
    ensures Own(sb, PutInode(sb, d, i, y), t, x)
    ensures forall j :: 0 <= j < |t| ==> SameSlots(d, t[j], PutInode(sb, d, i, y), t[j]) && Keeps(d, t[j], PutInode(sb, d, i, y), t[j])
  {
    hide PutWords;
    IBlockIn(sb, d, i);
    var e := PutInode(sb, d, i, y);
    forall j: nat | j < |t| && 0 < t[j].addrs[NDIRECT] < |d| ensures e[t[j].addrs[NDIRECT]] == d[t[j].addrs[NDIRECT]] {
      assert Addr(d, t[j], NDIRECT) != 0;
    }
    SameAddrs(d, e, t);
    forall b: nat | b < sb.size ensures Used(sb, e, b) == Used(sb, d, b) {
      BBlockIn(sb, d, b);
    }
    hide Addr, Used;
    SameMapOwn(sb, d, e, t, x);
  }

  /** A file with the same blocks and bytes has the same content. */
  lemma SameContent(sb: Super, d: Store, x: Inode, e: Store, y: Inode, end: nat)
    requires InodeOk(x) && InodeOk(y) && Filled(d, x, end) && SameSlots(d, x, e, y) && Keeps(d, x, e, y)
    requires forall s: nat :: s < NSLOT && Addr(d, x, s) != 0 ==> Addr(d, x, s) < |d|
    ensures Filled(e, y, end) && Bytes(e, y, end) == Bytes(d, x, end)
  {
    FilledSame(d, x, e, y, end);
    hide Addr;
    forall k: nat | k < end ensures ByteAt(e, y, k) == ByteAt(d, x, k) {
      InBlock(k, k / BSIZE);
      assert Addr(d, x, SlotOf(k / BSIZE)) != 0;
    }
  }

  /** Every file but `i` reads the same and stays without holes. */
  lemma OthersContent(sb: Super, d: Store, t: seq<Inode>, e: Store, u: seq<Inode>, x: set<nat>, i: nat)
    requires Own(sb, d, t, x) && OthersSame(d, t, e, u, i) && AllFilled(d, t)
    ensures forall j: nat :: j < |t| && j != i ==> Filled(e, u[j], u[j].size) && Content(e, u[j]) == Content(d, t[j])
  {
    forall j: nat | j < |t| && j != i ensures Filled(e, u[j], u[j].size) && Content(e, u[j]) == Content(d, t[j]) {
      hide Used;
      SameContent(sb, d, t[j], e, u[j], t[j].size);
    }
  }

  /** All of `src` written: the file is the splice. */
  lemma Spliced(d: Store, t: seq<Inode>, e: Store, u: seq<Inode>, i: nat, off: nat, src: seq<Byte>, y: Inode)
    requires Writing(d, t, e, u, i, off, |src|, src) && InodeOk(y) && y.addrs == u[i].addrs && y.size == Max(t[i].size, off + |src|)
    ensures Filled(e, y, y.size) && Content(e, y) == Splice(Content(d, t[i]), off, src)
  {
    assert SameSlots(e, u[i], e, y);
    FilledSame(e, u[i], e, y, y.size);
    var c, s := Content(e, y), Splice(Content(d, t[i]), off, src);
    forall k: nat | k < |c| ensures c[k] == s[k] {
      assert ByteAt(e, y, k) == ByteAt(e, u[i], k);
    }
  }

  lemma HasBlock(d: Store, x: Inode, bn: nat)
    requires Filled(d, x, x.size) && bn * BSIZE < x.size
    ensures bn < MAXFILE && Addr(d, x, SlotOf(bn)) != 0
  {
  }

  lemma WordsAre(x: Inode)
    requires InodeOk(x)
    ensures var ws := Words(x);
            && |ws| == 16 && ws[0] == x.w0 && ws[1] == x.w1 && ws[2] == x.size && (forall k :: 0 <= k <= NDIRECT ==> ws[3 + k] == x.addrs[k])
            && (forall i :: 0 <= i < |ws| ==> ws[i] < UINT) && |x.addrs| == NDIRECT + 1
  {
  }

  lemma PutMore(b: Block, at: nat, ws: seq<nat>, n: nat)
    requires n < |ws| && at + |ws| <= NWORD && forall i :: 0 <= i < |ws| ==> ws[i] < UINT
    ensures PutWords(b, at, ws[..n + 1]) == PutWord(PutWords(b, at, ws[..n]), at + n, ws[n])
  {
    assert ws[..n + 1][..n] == ws[..n];
  }

  lemma PutThree(b: Block, at: nat, ws: seq<nat>)
    requires at + |ws| <= NWORD && |ws| >= 3 && forall i :: 0 <= i < |ws| ==> ws[i] < UINT
    ensures PutWords(b, at, ws[..3]) == PutWord(PutWord(PutWord(b, at, ws[0]), at + 1, ws[1]), at + 2, ws[2])
  {
    assert ws[..3][..2] == ws[..2] && ws[..2][..1] == ws[..1] && ws[..1][..0] == [];
    assert PutWords(b, at, ws[..1]) == PutWord(b, at, ws[0]);
    assert PutWords(b, at, ws[..2]) == PutWord(PutWord(b, at, ws[0]), at + 1, ws[1]);
  }

  lemma FilledSize(d: Store, x: Inode)
    requires Filled(d, x, x.size)
    ensures InodeOk(x) && x.size <= MAXFILE * BSIZE
  {
  }

  /** Every file but `i` is what it was. */
  ghost predicate FilesSame(d: Store, t: seq<Inode>, e: Store, u: seq<Inode>, i: nat) {
    && |u| == |t|
    && (forall j: nat :: j < |t| && j != i ==>
          u[j] == t[j] && InodeOk(t[j]) && t[j].size <= MAXFILE * BSIZE && Content(e, u[j]) == Content(d, t[j]))
  }

  lemma WriteStart(sb: Super, d: Store, t: seq<Inode>, l: set<nat>, i: nat, off: nat, src: seq<Byte>)
    requires Own(sb, d, t, {}) && AllFilled(d, t) && i < |t| && off <= t[i].size && off + |src| <= MAXFILE * BSIZE
    ensures Writing(d, t, d, t, i, off, 0, src) && Progress(off, 0, |src|, 0)
    ensures InodeOk(t[i]) && Track(l, l, {}, {}, 0, 0, t[i].addrs[NDIRECT], t[i].addrs[NDIRECT], off)
  {
    hide Addr, Used;
    assert Filled(d, t[i], t[i].size);
  }

  lemma ProgressStart(off: nat, tot: nat, n: nat, k: nat)
    requires Progress(off, tot, n, k)
    ensures k == 0 ==> tot == 0
  {
  }

  lemma ProgressEnd(off: nat, n: nat, k: nat)
    requires Progress(off, n, n, k)
    ensures k == Touched(off, n)
  {
  }

  lemma EffectLow(sb: Super, d: Store, t: seq<Inode>, l: set<nat>, e: Store, u: seq<Inode>, m: set<nat>, bits: set<nat>, i: nat, bn: nat, a: nat)
    requires BmapEffect(sb, d, t, l, e, u, m, bits, i, bn, a) && Layout(sb, d)
    ensures |e| == |d| && sb.bmapstart <= a && bn < MAXFILE && forall b :: 0 <= b < sb.bmapstart ==> e[b] == d[b]
  {
  }

  /** All of `src` is in its blocks; size and disk inode are still to be seen to. */
  ghost predicate Written(sb: Super, d: Store, t: seq<Inode>, e: Store, u: seq<Inode>, i: nat, off: nat, src: seq<Byte>) {
    && Own(sb, d, t, {}) && Synced(sb, d, t) && AllFilled(d, t) && Own(sb, e, u, {}) && |e| == |d|
    && Writing(d, t, e, u, i, off, |src|, src) && (forall b :: 0 <= b < sb.bmapstart ==> e[b] == d[b])
  }

  /** The content of inode `i` is now the splice. */
  ghost predicate Became(d: Store, t: seq<Inode>, e: Store, y: Inode, i: nat, off: nat, src: seq<Byte>) {
    && i < |t| && InodeOk(t[i]) && off <= t[i].size <= MAXFILE * BSIZE && InodeOk(y) && y.size <= MAXFILE * BSIZE
    && Content(e, y) == Splice(Content(d, t[i]), off, src)
  }

  /** The file has grown: size and disk inode are brought up to date. */
  lemma GrowOwn(sb: Super, d: Store, t: seq<Inode>, e: Store, u: seq<Inode>, i: nat, off: nat, src: seq<Byte>, y: Inode)
    requires Written(sb, d, t, e, u, i, off, src) && y == u[i].(size := off + |src|) && off + |src| > t[i].size
    ensures InodeOk(y) && i < sb.ninodes
    ensures var f, v := PutInode(sb, e, i, y), u[i := y];
            && Own(sb, f, v, {}) && Synced(sb, f, v) && AllFilled(f, v) && FilesSame(d, t, f, v, i)
            && Became(d, t, f, y, i, off, src)
  {
    var f, v := PutInode(sb, e, i, y), u[i := y];
    assert InodeOk(u[i]);
    SameAddrsOwn(sb, e, u, {}, i, y);
    PutInodeOwn(sb, e, v, {}, i, y);
    assert v[i] == y;
    Spliced(d, t, e, u, i, off, src, y);
    SlotsOnDisk(sb, e, v, {}, i);
    hide Addr, Used, PutInode, Own, Filled, SameSlots, Keeps;
    SameContent(sb, e, y, f, y, y.size);
    GrowSynced(sb, d, t, e, u, i, y);
    OthersPut(d, t, e, u, f, v, i);
    OthersContent(sb, d, t, f, v, {}, i);
  }

  lemma GrowSynced(sb: Super, d: Store, t: seq<Inode>, e: Store, u: seq<Inode>, i: nat, y: Inode)
    requires Synced(sb, d, t) && |e| == |d| && (forall b :: 0 <= b < sb.bmapstart ==> e[b] == d[b])
    requires |u| == |t| && i < |t| && InodeOk(y) && (forall j :: 0 <= j < |t| && j != i ==> u[j] == t[j])
    ensures Synced(sb, PutInode(sb, e, i, y), u[i := y])
  {
    SyncedSame(sb, d, e, t);
    var f, v := PutInode(sb, e, i, y), u[i := y];
    hide PutInode;
    forall j: nat | j < |v| ensures Dinode(sb, f, j) == v[j] {
      DinodePut(sb, e, i, y, j);
    }
  }

  lemma WrittenFacts(sb: Super, d: Store, t: seq<Inode>, e: Store, u: seq<Inode>, i: nat, off: nat, src: seq<Byte>)
    requires Written(sb, d, t, e, u, i, off, src)
    ensures Layout(sb, e) && |t| == sb.ninodes && i < |t| == |u| && InodeOk(u[i]) && InodeOk(t[i]) && u[i].size == t[i].size <= MAXFILE * BSIZE && off <= t[i].size && off + |src| <= MAXFILE * BSIZE
  {
  }

  lemma SlotsOnDisk(sb: Super, d: Store, t: seq<Inode>, x: set<nat>, i: nat)
    requires Own(sb, d, t, x) && i < |t|
    ensures forall s: nat :: s < NSLOT && Addr(d, t[i], s) != 0 ==> Addr(d, t[i], s) < |d|
  {
  }

  lemma OthersPut(d: Store, t: seq<Inode>, e: Store, u: seq<Inode>, f: Store, v: seq<Inode>, i: nat)
    requires OthersSame(d, t, e, u, i) && |v| == |u| && i < |u| && (forall j :: 0 <= j < |u| && j != i ==> v[j] == u[j])
    requires forall j :: 0 <= j < |v| ==> InodeOk(v[j]) && SameSlots(e, v[j], f, v[j]) && Keeps(e, v[j], f, v[j])
    ensures OthersSame(d, t, f, v, i)
  {
    assert OthersSame(e, u, f, v, i);
    OthersTrans(d, t, e, u, f, v, i);
  }

  /** The file has not grown: then no block was allocated, so the disk inode is still right. */
  lemma StayOwn(sb: Super, d: Store, t: seq<Inode>, e: Store, u: seq<Inode>, i: nat, off: nat, src: seq<Byte>)
    requires Written(sb, d, t, e, u, i, off, src) && (src == [] || off + |src| <= t[i].size)
    ensures u == t && Synced(sb, e, u) && AllFilled(e, u) && FilesSame(d, t, e, u, i)
    ensures Became(d, t, e, u[i], i, off, src)
  {
    assert u == t;
    SyncedSame(sb, d, e, t);
    Spliced(d, t, e, u, i, off, src, u[i]);
    hide Addr, Used, Dinode;
    OthersContent(sb, d, t, e, u, {}, i);
  }

  /** The test `off + n < off` in 32 bits. */
  lemma WrapTest(off: nat, n: nat)
    requires off < UINT && n < UINT
    ensures (off + n) % UINT < off <==> off + n >= UINT
  {
  }

  lemma SliceMore(c: seq<Byte>, off: nat, tot: nat, m: nat)
    requires off + tot + m <= |c|
    ensures c[off..off + tot] + c[off + tot..off + tot + m] == c[off..off + tot + m]
  {
  }
}
