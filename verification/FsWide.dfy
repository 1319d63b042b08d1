/** A file that itrunc cannot free within what begin_op reserves: it has a block in each of MAXOPBLOCKS
    groups of the bitmap. */
module FsWide {
  import opened Sets
  import opened Params
  import opened FsBlocks
  import opened FsSpec
  import opened FsFile
  import opened FsWrite
  import opened FsTrunc
  import opened FsHistory

  /** One inode block, MAXOPBLOCKS bitmap blocks, and as many groups. */
  const WIDE: Super := Super(MAXOPBLOCKS * BPB, 1, 1, 2, 2 + MAXOPBLOCKS)

  /** The disk block of file block `bn`: one in each group. */
  function Spot(bn: nat): nat {
    bn * BPB + WIDE.data
  }

  function Place(s: nat): nat {
    if s == NDIRECT then (if MAXOPBLOCKS > NDIRECT then WIDE.data + 1 else 0)
    else if s < NDIRECT then (if s < MAXOPBLOCKS then Spot(s) else 0)
    else (if s - 1 < MAXOPBLOCKS then Spot(s - 1) else 0)
  }

  /** The blocks in use. */
  predicate Taken(b: nat) {
    b < WIDE.data || b % BPB == WIDE.data || (MAXOPBLOCKS > NDIRECT && b == WIDE.data + 1)
  }

  lemma SpotIs(b: nat)
    ensures b % BPB == WIDE.data <==> b == Spot(b / BPB)
    ensures b < WIDE.size <==> b / BPB < MAXOPBLOCKS
  {
  }

  lemma PlaceIn(s: nat)
    requires s < NSLOT && Place(s) != 0
    ensures WIDE.data <= Place(s) < WIDE.size && Taken(Place(s))
  {
    SpotIs(Place(s));
  }

  lemma PlaceOnce(s: nat, r: nat)
    requires s < NSLOT && r < NSLOT && Place(s) != 0 && Place(s) == Place(r)
    ensures s == r
  {
  }

  lemma Placed(b: nat) returns (s: nat)
    requires WIDE.data <= b < WIDE.size && Taken(b)
    ensures s < NSLOT && Place(s) == b
  {
    SpotIs(b);
    if b % BPB == WIDE.data {
      s := SlotOf(b / BPB);
    } else {
      s := NDIRECT;
    }
  }

  // ------------------------------------------------------------ the disk

  function BlankAt(b: nat): Block {
    if b == WIDE.data + 1 then Indirect() else Zero()
  }

  function Blank(): (d: Store)
    ensures |d| == WIDE.size && Layout(WIDE, d)
  {
    seq<Block>(WIDE.size, b requires 0 <= b < WIDE.size => BlankAt(b))
  }

  function Entry(): (ws: seq<nat>)
    ensures |ws| == NINDIRECT && forall k :: 0 <= k < NINDIRECT ==> ws[k] == Place(NDIRECT + 1 + k) && ws[k] < UINT
  {
    seq<nat>(NINDIRECT, k requires 0 <= k < NINDIRECT => Place(NDIRECT + 1 + k))
  }

  function Indirect(): Block {
    PutWords(Zero(), 0, Entry())
  }

  /** The bits below `n` are set. */
  function Marked(n: nat): (d: Store)
    requires n <= WIDE.size
    ensures |d| == WIDE.size && Layout(WIDE, d)
  {
    if n == 0 then Blank() else if Taken(n - 1) then SetBit(WIDE, Marked(n - 1), n - 1, true) else Marked(n - 1)
  }

  lemma {:induction false} NoBit(k: nat)
    ensures !Bit(0, k)
  {
    if k > 0 { NoBit(k - 1); }
  }

  lemma {:induction false} MarkedBits(n: nat, c: nat)
    requires n <= WIDE.size && c < WIDE.size
    ensures Used(WIDE, Marked(n), c) <==> c < n && Taken(c)
  {
    hide Used, SetBit, Blank;
    if n == 0 {
      BlankBits(c);
    } else {
      MarkedBits(n - 1, c);
      if Taken(n - 1) { UsedSet(WIDE, Marked(n - 1), n - 1, true, c); }
    }
  }

  lemma BlankBits(c: nat)
    requires c < WIDE.size
    ensures !Used(WIDE, Blank(), c)
  {
    hide Indirect;
    BBlockIn(WIDE, Blank(), c);
    assert Blank()[BBlock(WIDE, c)] == Zero();
    NoBit(c % BPB % 8);
  }

  lemma {:induction false} MarkedData(n: nat, b: nat)
    requires n <= WIDE.size && WIDE.data <= b < WIDE.size
    ensures Marked(n)[b] == Blank()[b]
  {
    hide Blank, PutBit;
    if n > 0 {
      MarkedData(n - 1, b);
      BBlockIn(WIDE, Marked(n - 1), n - 1);
    }
  }

  /** The file's inode. */
  function Wide(): (x: Inode)
    ensures InodeOk(x)
  {
    Inode(0, 0, MAXOPBLOCKS * BSIZE, seq(NDIRECT + 1, s requires 0 <= s < NDIRECT + 1 => Place(s)))
  }

  lemma WideAddr(d: Store, s: nat)
    requires |d| == WIDE.size && d[WIDE.data + 1] == Indirect() && s < NSLOT
    ensures Addr(d, Wide(), s) == Place(s)
  {
    hide Word, PutWords;
    if s > NDIRECT {
      WordsPut(Zero(), 0, Entry(), s - NDIRECT - 1);
    }
  }

  lemma WideOwned(d: Store, b: nat)
    requires |d| == WIDE.size && d[WIDE.data + 1] == Indirect() && WIDE.data <= b < WIDE.size
    ensures Owned(d, [Wide()], b) <==> Taken(b)
  {
    hide Addr, Place, Wide;
    if Taken(b) {
      var s := Placed(b);
      WideAddr(d, s);
      assert Addr(d, [Wide()][0], s) == b;
    }
    if i: nat, s: nat :| i < 1 && s < NSLOT && Addr(d, [Wide()][i], s) == b {
      WideAddr(d, s);
      PlaceIn(s);
    }
  }

  lemma WideOwn(d: Store)
    requires |d| == WIDE.size && d[WIDE.data + 1] == Indirect() && Layout(WIDE, d)
    requires forall c: nat :: c < WIDE.size ==> (Used(WIDE, d, c) <==> Taken(c))
    ensures Own(WIDE, d, [Wide()], {})
  {
    hide Addr, Used, Place, Wide, Owned;
    var t := [Wide()];
    forall s: nat | s < NSLOT ensures Addr(d, Wide(), s) == Place(s) { WideAddr(d, s); }
    forall i: nat, s: nat | i < |t| && s < NSLOT && Addr(d, t[i], s) != 0 ensures WIDE.data <= Addr(d, t[i], s) < WIDE.size {
      PlaceIn(s);
    }
    forall i: nat, s: nat, j: nat, r: nat | i < |t| && s < NSLOT && j < |t| && r < NSLOT && Addr(d, t[i], s) != 0 && Addr(d, t[i], s) == Addr(d, t[j], r)
      ensures i == j && s == r
    {
      PlaceOnce(s, r);
    }
    forall b: nat | WIDE.data <= b < WIDE.size ensures Owned(d, t, b) <==> Taken(b) { WideOwned(d, b); }
  }

  lemma WideFilled(d: Store)
    requires |d| == WIDE.size && d[WIDE.data + 1] == Indirect()
    ensures Filled(d, Wide(), Wide().size)
  {
    hide Addr;
    forall bn: nat | bn < MAXFILE ensures Addr(d, Wide(), SlotOf(bn)) != 0 <==> bn * BSIZE < Wide().size {
      WideAddr(d, SlotOf(bn));
    }
  }

  function WideDisk(): Store {
    PutInode(WIDE, Marked(WIDE.size), 0, Wide())
  }

  lemma WideConsistent()
    ensures Consistent(WIDE, WideDisk()) && OnDisk(WIDE, WideDisk()) == [Wide()] && |WideDisk()| == WIDE.size && WideDisk()[WIDE.data + 1] == Indirect()
  {
    hide Marked, Used, Wide, Indirect, Dinode, PutWords, Own;
    var d, t := Marked(WIDE.size), [Wide()];
    MarkedData(WIDE.size, WIDE.data + 1);
    forall c: nat | c < WIDE.size ensures Used(WIDE, d, c) <==> Taken(c) { MarkedBits(WIDE.size, c); }
    WideOwn(d);
    PutInodeOwn(WIDE, d, t, {}, 0, Wide());
    DinodePut(WIDE, d, 0, Wide(), 0);
    IBlockIn(WIDE, d, 0);
    WideFilled(WideDisk());
    assert OnDisk(WIDE, WideDisk()) == t;
  }

  /** One bitmap block for each group. */
  lemma WideBits(d: Store, g: nat)
    requires |d| == WIDE.size && d[WIDE.data + 1] == Indirect()
    ensures g in BitsOf(WIDE, Blocks(d, Wide())) <==> g in Span(2, 2 + MAXOPBLOCKS)
  {
    hide Addr, Wide, Indirect, Place, Spot;
    var x := Wide();
    if 2 <= g < 2 + MAXOPBLOCKS {
      GroupOf(g - 2);
      WideAddr(d, SlotOf(g - 2));
      assert Addr(d, x, SlotOf(g - 2)) in Blocks(d, x);
    }
    if g in BitsOf(WIDE, Blocks(d, x)) {
      var s :| 0 <= s < NSLOT && Addr(d, x, s) != 0 && g == BBlock(WIDE, Addr(d, x, s));
      WideAddr(d, s);
      PlaceIn(s);
    }
  }

  lemma GroupOf(bn: nat)
    requires bn < MAXOPBLOCKS
    ensures Place(SlotOf(bn)) == Spot(bn) != 0 && SlotOf(bn) < NSLOT && BBlock(WIDE, Spot(bn)) == 2 + bn
  {
  }

  /** A consistent disk, of MAXOPBLOCKS groups, whose one file has MAXOPBLOCKS bitmap blocks: with the
      block of its inode, itrunc logs one block too many. */
  lemma WideFile()
    ensures Consistent(WIDE, WideDisk()) && WIDE.size == MAXOPBLOCKS * BPB
    ensures var bits := BitsOf(WIDE, Blocks(WideDisk(), OnDisk(WIDE, WideDisk())[0]));
            |bits| == MAXOPBLOCKS && |bits + {IBlock(WIDE, 0)}| == MAXOPBLOCKS + 1
  {
    WideConsistent();
    hide WideDisk, Wide, Indirect, Consistent, Blocks, BitsOf, Layout, OnDisk;
    var bits := BitsOf(WIDE, Blocks(WideDisk(), Wide()));
    forall g: nat ensures g in bits <==> g in Span(2, 2 + MAXOPBLOCKS) { WideBits(WideDisk(), g); }
    assert bits == Span(2, 2 + MAXOPBLOCKS);
    SpanSize(2, 2 + MAXOPBLOCKS);
    assert IBlock(WIDE, 0) == 1 && 1 !in bits;
  }
}
