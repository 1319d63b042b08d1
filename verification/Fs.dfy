/** fs.c in its own form: blocks, the bitmap and inodes changed in place.  `blocks` are the blocks
    as the buffer cache shows them; each log_write adds the block's number to `logged`. */
module FsDisk {
  import opened Params
  import opened Options
  import opened FsBlocks
  import opened FsSpec
  import opened FsFile
  import opened FsBmap
  import opened FsWrite
  import opened FsTrunc

  /** An inode in memory. */
  class Ip {
    const inum: nat
    var w0: nat
    var w1: nat
    var size: nat
    const addrs: array<nat>

    constructor (inum: nat, x: Inode)
      requires InodeOk(x)
      ensures this.inum == inum && Rec() == x && fresh(addrs)
    {
      this.inum, w0, w1, size := inum, x.w0, x.w1, x.size;
      addrs := new nat[|x.addrs|]((i: nat) requires i < |x.addrs| => x.addrs[i]);
      new;
      assert addrs[..] == x.addrs;
    }

    ghost function Rec(): Inode
      reads this, addrs
    {
      Inode(w0, w1, size, addrs[..])
    }
  }

  class Fs {
    const sb: Super
    const blocks: array<Block>
    ghost var table: seq<Inode>
    ghost var transit: set<nat>
    ghost var logged: set<nat>

    constructor (sb: Super, blocks: array<Block>)
      requires Layout(sb, blocks[..])
      ensures this.sb == sb && this.blocks == blocks && transit == {} && logged == {}
      ensures |table| == sb.ninodes && forall i: nat :: i < sb.ninodes ==> table[i] == Dinode(sb, blocks[..], i)
    {
      this.sb, this.blocks, transit, logged := sb, blocks, {}, {};
      table := seq(sb.ninodes, (i: nat) requires i < sb.ninodes && Layout(sb, blocks[..]) reads blocks => Dinode(sb, blocks[..], i));
    }

    ghost predicate Valid()
      reads this`table, this`transit, blocks
    {
      Own(sb, blocks[..], table, transit)
    }

    /** balloc with its bzero: the first block whose bit is clear, or a panic when there is none. */
    method Balloc() returns (r: Option<nat>)
      requires Valid()
      modifies this`transit, this`logged, blocks
      ensures Valid()
      ensures r.None? ==> blocks[..] == old(blocks[..]) && transit == old(transit) && logged == old(logged)
      ensures r.None? ==> Full(sb, blocks[..])
      ensures r.Some? ==> Logs(sb, old(blocks[..]), old(logged), blocks[..], logged)
      ensures r.Some? ==> r.value < sb.size && !Used(sb, old(blocks[..]), r.value) && blocks[..] == Alloc(sb, old(blocks[..]), r.value)
      ensures r.Some? ==> forall c: nat :: c < r.value ==> Used(sb, old(blocks[..]), c)
      ensures r.Some? ==> transit == old(transit) + {r.value} && logged == old(logged) + {BBlock(sb, r.value), r.value}
    {
      hide Separate, Mapped, Used, PutBit, Addr, KeepsAll, Logs;
      ghost var d := blocks[..];
      r := FindFree();
      if r.Some? {
        var b := r.value;
        AllocOwn(sb, d, table, transit, b);
        AllocLogs(sb, d, logged, b);
        BBlockIn(sb, d, b);
        blocks[BBlock(sb, b)] := PutBit(blocks[BBlock(sb, b)], b % BPB, true);
        blocks[b] := Zero();
        logged := logged + {BBlock(sb, b), b};
        transit := transit + {b};
        assert blocks[..] == Alloc(sb, d, b);
      }
    }

    /** balloc's search, bitmap block by bitmap block. */
    method FindFree() returns (r: Option<nat>)
      requires Layout(sb, blocks[..])
      ensures r.None? ==> forall c: nat :: c < sb.size ==> Used(sb, blocks[..], c)
      ensures r.Some? ==> r.value < sb.size && !Used(sb, blocks[..], r.value)
      ensures r.Some? ==> forall c: nat :: c < r.value ==> Used(sb, blocks[..], c)
    {
      hide BitAt;
      var b := 0;
      while b < sb.size
        invariant b % BPB == 0 && forall c: nat :: c < b && c < sb.size ==> Used(sb, blocks[..], c)
      {
        var bi := 0;
        BBlockIn(sb, blocks[..], b);
        while bi < BPB && b + bi < sb.size
          invariant 0 <= bi <= BPB && b + bi <= sb.size && forall c: nat :: c < b + bi ==> Used(sb, blocks[..], c)
        {
          SameBitmapBlock(sb, b, bi);
          if !BitAt(blocks[BBlock(sb, b)], bi) {
            return Some(b + bi);
          }
          bi := bi + 1;
        }
        b := b + BPB;
      }
      return None;
    }

    /** bfree; false is its panic, which does not happen to a block between owners. */
    method Bfree(b: nat) returns (ok: bool)
      requires Layout(sb, blocks[..]) && b < sb.size
      modifies this`transit, this`logged, blocks
      ensures ok == Used(sb, old(blocks[..]), b)
      ensures !ok ==> blocks[..] == old(blocks[..]) && transit == old(transit) && logged == old(logged)
      ensures ok ==> blocks[..] == SetBit(sb, old(blocks[..]), b, false) && transit == old(transit) - {b} && logged == old(logged) + {BBlock(sb, b)}
      ensures old(Valid()) && b in old(transit) ==> ok && Valid()
      ensures ok ==> Logs(sb, old(blocks[..]), old(logged), blocks[..], logged)
    {
      hide Separate, Mapped, BitAt, PutBit, Addr, Logs;
      BBlockIn(sb, blocks[..], b);
      ghost var d := blocks[..];
      if Valid() && b in transit { FreeOwn(sb, d, table, transit, b); }
      ok := BitAt(blocks[BBlock(sb, b)], b % BPB);
      if ok {
        LogsOne(sb, d, logged, BBlock(sb, b), PutBit(d[BBlock(sb, b)], b % BPB, false));
        blocks[BBlock(sb, b)] := PutBit(blocks[BBlock(sb, b)], b % BPB, false);
        logged := logged + {BBlock(sb, b)};
        transit := transit - {b};
        assert blocks[..] == SetBit(sb, d, b, false);
      }
    }

    /** The inode in memory is the one whose blocks the table lists for its number. */
    ghost predicate Open(ip: Ip)
      reads this`table, ip, ip.addrs
    {
      ip.inum < |table| && table[ip.inum] == ip.Rec() && InodeOk(ip.Rec())
    }

    /** bmap's direct case, when the slot is empty. */
    method NewDirect(ip: Ip, s: nat) returns (r: Option<nat>)
      requires Valid() && Open(ip) && s <= NDIRECT && ip.addrs[s] == 0
      modifies this`table, this`transit, this`logged, blocks, ip.addrs
      ensures r.Some? ==> Valid() && Open(ip) && transit == old(transit) && Grown(old(blocks[..]), old(table), blocks[..], table, ip.inum, s)
      ensures r.Some? ==> r.value == ip.addrs[s] && table == SetAddr(old(table), ip.inum, s, r.value)
      ensures r.Some? ==> 0 < r.value && sb.data <= r.value < sb.size && blocks[r.value] == Zero()
      ensures r.Some? ==> logged == old(logged) + {BBlock(sb, r.value), r.value}
      ensures r.Some? ==> forall b :: 0 <= b < sb.bmapstart ==> blocks[b] == old(blocks[b])
      ensures r.Some? ==> Logs(sb, old(blocks[..]), old(logged), blocks[..], logged)
      ensures r.None? ==> Full(sb, blocks[..])
    {
      hide Own, Used, Addr, KeepsAll, PutBit, Logs, Full;
      ghost var d, t, x := blocks[..], table, transit;
      TableOk(sb, d, t, x);
      r := Balloc();
      if r.None? {
        return;
      }
      ghost var e := blocks[..];
      AllocSame(sb, d, t, x, r.value);
      AttachDirect(sb, e, t, transit, ip.inum, s, r.value);
      AttachGrown(sb, d, t, e, x, transit, ip.inum, s, r.value);
      ip.addrs[s] := r.value;
      table := SetAddr(table, ip.inum, s, r.value);
      transit := transit - {r.value};
      assert ip.addrs[..] == t[ip.inum].addrs[s := r.value];
      assert transit == x;
    }

    /** bmap's indirect case, when the entry is empty. */
    method NewEntry(ip: Ip, k: nat) returns (r: Option<nat>)
      requires Valid() && Open(ip) && k < NINDIRECT && 0 < ip.addrs[NDIRECT] < blocks.Length && Word(blocks[ip.addrs[NDIRECT]], k) == 0
      modifies this`transit, this`logged, blocks
      ensures r.Some? ==> Valid() && transit == old(transit) && Grown(old(blocks[..]), table, blocks[..], table, ip.inum, NDIRECT + 1 + k)
      ensures r.Some? ==> 0 < r.value && sb.data <= r.value < sb.size && r.value == Addr(blocks[..], ip.Rec(), NDIRECT + 1 + k) && blocks[r.value] == Zero()
      ensures r.Some? ==> logged == old(logged) + {BBlock(sb, r.value), r.value, ip.addrs[NDIRECT]}
      ensures r.Some? ==> forall b :: 0 <= b < sb.bmapstart ==> blocks[b] == old(blocks[b])
      ensures r.Some? ==> Logs(sb, old(blocks[..]), old(logged), blocks[..], logged)
      ensures r.None? ==> Full(sb, blocks[..])
    {
      hide Own, Used, Addr, KeepsAll, PutBit, Word, PutWord, Logs, Full;
      ghost var d, t, x, l := blocks[..], table, transit, logged;
      TableOk(sb, d, t, x);
      var p := ip.addrs[NDIRECT];
      r := Balloc();
      if r.None? {
        return;
      }
      ghost var e := blocks[..];
      AllocSame(sb, d, t, x, r.value);
      IndirectSame(sb, d, t, x, ip.inum, r.value);
      EntryGrown(sb, d, t, e, x, transit, ip.inum, k, r.value);
      LogsOne(sb, e, logged, p, PutWord(e[p], k, r.value));
      LogsTrans(sb, d, l, e, logged, e[p := PutWord(e[p], k, r.value)], logged + {p});
      blocks[p] := PutWord(blocks[p], k, r.value);
      logged := logged + {p};
      transit := transit - {r.value};
      assert blocks[..] == e[p := PutWord(e[p], k, r.value)];
      assert transit == x;
    }

    /** bmap: the disk block of file block `bn`, allocated if there is none; a block number out of
        range, and a full disk, are panics.  `bits` are the bitmap blocks it logged. */
    method Bmap(ip: Ip, bn: nat) returns (r: Option<nat>, ghost bits: set<nat>)
      requires Valid() && Open(ip)
      modifies this`table, this`transit, this`logged, blocks, ip.addrs
      ensures r.Some? ==> Valid() && Open(ip) && transit == old(transit)
      ensures r.Some? ==> BmapEffect(sb, old(blocks[..]), old(table), old(logged), blocks[..], table, logged, bits, ip.inum, bn, r.value)
      ensures bn < MAXFILE && Addr(old(blocks[..]), old(ip.Rec()), SlotOf(bn)) != 0 ==> r.Some?
      ensures r.Some? ==> Logs(sb, old(blocks[..]), old(logged), blocks[..], logged)
      ensures r.None? ==> bn >= MAXFILE || Full(sb, blocks[..])
    {
      if bn < NDIRECT {
        r, bits := BmapDirect(ip, bn);
      } else if bn < MAXFILE {
        r, bits := BmapIndirect(ip, bn);
      } else {
        r, bits := None, {};
      }
    }

    method BmapDirect(ip: Ip, bn: nat) returns (r: Option<nat>, ghost bits: set<nat>)
      requires Valid() && Open(ip) && bn < NDIRECT
      modifies this`table, this`transit, this`logged, blocks, ip.addrs
      ensures r.Some? ==> Valid() && Open(ip) && transit == old(transit)
      ensures r.Some? ==> BmapEffect(sb, old(blocks[..]), old(table), old(logged), blocks[..], table, logged, bits, ip.inum, bn, r.value)
      ensures bn < MAXFILE && Addr(old(blocks[..]), old(ip.Rec()), SlotOf(bn)) != 0 ==> r.Some?
      ensures r.Some? ==> Logs(sb, old(blocks[..]), old(logged), blocks[..], logged)
      ensures r.None? ==> Full(sb, blocks[..])
    {
      LogsNone(sb, blocks[..], logged);
      hide Own, Used, KeepsAll, Logs, Full;
      ghost var d, t, x := blocks[..], table, transit;
      TableOk(sb, d, t, x);
      KeepsRefl(d, t);
      bits := {};
      if ip.addrs[bn] == 0 {
        r := NewDirect(ip, bn);
        bits := if r.Some? then {BBlock(sb, r.value)} else {};
      } else {
        SlotIsData(sb, d, t, x, ip.inum, bn);
        r := Some(ip.addrs[bn]);
      }
    }

    method BmapIndirect(ip: Ip, bn: nat) returns (r: Option<nat>, ghost bits: set<nat>)
      requires Valid() && Open(ip) && NDIRECT <= bn < MAXFILE
      modifies this`table, this`transit, this`logged, blocks, ip.addrs
      ensures r.Some? ==> Valid() && Open(ip) && transit == old(transit)
      ensures r.Some? ==> BmapEffect(sb, old(blocks[..]), old(table), old(logged), blocks[..], table, logged, bits, ip.inum, bn, r.value)
      ensures bn < MAXFILE && Addr(old(blocks[..]), old(ip.Rec()), SlotOf(bn)) != 0 ==> r.Some?
      ensures r.Some? ==> Logs(sb, old(blocks[..]), old(logged), blocks[..], logged)
      ensures r.None? ==> Full(sb, blocks[..])
    {
      hide Own, Used, KeepsAll, Word, BmapEffect, Grown, Logs, Full;
      ghost var d, t, x, l := blocks[..], table, transit, logged;
      TableOk(sb, d, t, x);
      bits := {};
      var k := bn - NDIRECT;
      var ok;
      ok, bits := HaveIndirect(ip);
      if !ok {
        return None, bits;
      }
      var p := ip.addrs[NDIRECT];
      ghost var e, u, m, b := blocks[..], table, logged, bits;
      SlotIsData(sb, e, u, x, ip.inum, NDIRECT);
      var a := Word(blocks[p], k);
      if a == 0 {
        r := NewEntry(ip, k);
        if r.Some? {
          bits := bits + {BBlock(sb, r.value)};
          LogsTrans(sb, d, l, e, m, blocks[..], logged);
          NewEntryEffect(sb, d, t, l, e, u, m, b, blocks[..], table, logged, bits, ip.inum, bn, r.value);
        }
      } else {
        SlotIsData(sb, e, u, x, ip.inum, SlotOf(bn));
        r := Some(a);
        OldEntryEffect(sb, d, t, l, e, u, m, b, ip.inum, bn, a);
      }
    }

    /** The indirect block, allocated if there is none. */
    method HaveIndirect(ip: Ip) returns (ok: bool, ghost bits: set<nat>)
      requires Valid() && Open(ip)
      modifies this`table, this`transit, this`logged, blocks, ip.addrs
      ensures ok ==> Valid() && Open(ip) && transit == old(transit)
      ensures old(ip.addrs[NDIRECT]) != 0 ==> ok
      ensures ok ==> Hung(sb, old(blocks[..]), old(table), old(logged), blocks[..], table, logged, bits, ip.inum)
      ensures ok ==> Logs(sb, old(blocks[..]), old(logged), blocks[..], logged)
      ensures !ok ==> Full(sb, blocks[..])
    {
      LogsNone(sb, blocks[..], logged);
      hide Own, Used, KeepsAll, Logs, Full;
      ghost var d, t, x := blocks[..], table, transit;
      TableOk(sb, d, t, x);
      KeepsRefl(d, t);
      bits := {};
      if ip.addrs[NDIRECT] == 0 {
        var r := NewDirect(ip, NDIRECT);
        bits := if r.Some? then {BBlock(sb, r.value)} else {};
        ok := r.Some?;
        forall k: nat | ok && k < NINDIRECT ensures Word(Zero(), k) == 0 { ZeroWord(k); }
      } else {
        ok := true;
      }
    }

    /** Between operations: the bitmap is exact, no file has a hole, and the disk has every inode as
        memory has it. */
    ghost predicate Clean()
      reads this`table, this`transit, blocks
    {
      Valid() && transit == {} && Synced(sb, blocks[..], table) && AllFilled(blocks[..], table)
    }

    lemma OpenFilled(ip: Ip)
      requires Clean() && Open(ip)
      ensures Filled(blocks[..], ip.Rec(), ip.size) && ip.size <= MAXFILE * BSIZE
    {
    }

    /** iupdate. */
    method Iupdate(ip: Ip)
      requires Layout(sb, blocks[..]) && ip.inum < sb.ninodes && InodeOk(ip.Rec())
      modifies this`logged, blocks
      ensures blocks[..] == PutInode(sb, old(blocks[..]), ip.inum, ip.Rec()) && logged == old(logged) + {IBlock(sb, ip.inum)}
      ensures Logs(sb, old(blocks[..]), old(logged), blocks[..], logged)
    {
      hide PutWords;
      IBlockIn(sb, blocks[..], ip.inum);
      var b := blocks[IBlock(sb, ip.inum)];
      b := Pack(ip, b, ip.inum % IPB * 16);
      blocks[IBlock(sb, ip.inum)] := b;
      logged := logged + {IBlock(sb, ip.inum)};
    }

    /** The copies that iupdate makes into the block. */
    method Pack(ip: Ip, b0: Block, at: nat) returns (b: Block)
      requires at + 16 <= NWORD && InodeOk(ip.Rec())
      ensures b == PutWords(b0, at, Words(ip.Rec()))
    {
      ghost var ws := Words(ip.Rec());
      WordsAre(ip.Rec());
      hide Words, InodeOk, PutWord, PutWords;
      b := PutWord(b0, at, ip.w0);
      b := PutWord(b, at + 1, ip.w1);
      b := PutWord(b, at + 2, ip.size);
      PutThree(b0, at, ws);
      b := PackAddrs(ip, b, at, b0, ws);
    }

    /** memmove of the block addresses. */
    method PackAddrs(ip: Ip, b3: Block, at: nat, ghost b0: Block, ghost ws: seq<nat>) returns (b: Block)
      requires at + 16 <= NWORD && |ws| == 16 && (forall i :: 0 <= i < |ws| ==> ws[i] < UINT) && ip.addrs.Length == NDIRECT + 1
      requires (forall k :: 0 <= k <= NDIRECT ==> ws[3 + k] == ip.addrs[k]) && b3 == PutWords(b0, at, ws[..3])
      ensures b == PutWords(b0, at, ws)
    {
      hide PutWord, PutWords;
      b := b3;
      var k := 0;
      while k < NDIRECT + 1
        invariant 0 <= k <= NDIRECT + 1 && b == PutWords(b0, at, ws[..3 + k])
      {
        PutMore(b0, at, ws, 3 + k);
        b := PutWord(b, at + 3 + k, ip.addrs[k]);
        k := k + 1;
      }
      assert ws[..16] == ws;
    }

    /** bmap of a block that the file has. */
    method Lookup(ip: Ip, bn: nat) returns (a: nat)
      requires Valid() && Open(ip) && bn < MAXFILE && Addr(blocks[..], ip.Rec(), SlotOf(bn)) != 0
      modifies this`table, this`transit, this`logged, blocks, ip.addrs
      ensures blocks[..] == old(blocks[..]) && table == old(table) && transit == old(transit) && logged == old(logged) && ip.Rec() == old(ip.Rec())
      ensures a == Addr(blocks[..], ip.Rec(), SlotOf(bn)) && a < blocks.Length
    {
      hide Own, KeepsAll, Addr;
      var r, bits := Bmap(ip, bn);
      a := r.value;
    }

    /** readi of a file: nothing changes, and the bytes are a slice of its content. */
    method Readi(ip: Ip, off: nat, n0: nat) returns (r: int, dst: seq<Byte>)
      requires Valid() && Open(ip) && Filled(blocks[..], ip.Rec(), ip.size) && off < UINT && n0 < UINT
      modifies this`table, this`transit, this`logged, blocks, ip.addrs
      ensures r == -1 <==> off > ip.size || off + n0 >= UINT
      ensures r == -1 ==> dst == []
      ensures r != -1 ==> r == (if off + n0 > ip.size then ip.size - off else n0) && dst == old(Content(blocks[..], ip.Rec()))[off..off + r]
      ensures blocks[..] == old(blocks[..]) && table == old(table) && transit == old(transit) && logged == old(logged) && ip.Rec() == old(ip.Rec())
    {
      FilledSize(blocks[..], ip.Rec());
      hide Own, Addr, Filled, Content;
      WrapTest(off, n0);
      if off > ip.size || (off + n0) % UINT < off {
        return -1, [];
      }
      var n := if off + n0 > ip.size then ip.size - off else n0;
      dst := ReadBlocks(ip, off, n);
      return n, dst;
    }

    /** The loop of readi. */
    method ReadBlocks(ip: Ip, off: nat, n: nat) returns (dst: seq<Byte>)
      requires Valid() && Open(ip) && Filled(blocks[..], ip.Rec(), ip.size) && off + n <= ip.size
      modifies this`table, this`transit, this`logged, blocks, ip.addrs
      ensures dst == old(Content(blocks[..], ip.Rec()))[off..off + n]
      ensures blocks[..] == old(blocks[..]) && table == old(table) && transit == old(transit) && logged == old(logged) && ip.Rec() == old(ip.Rec())
    {
      FilledSize(blocks[..], ip.Rec());
      hide Own, Addr, Filled, ByteAt;
      ghost var d, x := blocks[..], ip.Rec();
      ghost var c := Content(d, x);
      dst := [];
      var tot := 0;
      while tot < n
        invariant 0 <= tot <= n && dst == c[off..off + tot]
        invariant blocks[..] == d && table == old(table) && logged == old(logged) && transit == old(transit) && ip.Rec() == x
      {
        var bn, o := (off + tot) / BSIZE, (off + tot) % BSIZE;
        var m := if n - tot < BSIZE - o then n - tot else BSIZE - o;
        dst := ReadBlock(ip, off, n, tot, bn, o, m, dst);
        SliceMore(c, off, tot, m);
        tot := tot + m;
      }
    }

    method ReadBlock(ip: Ip, off: nat, n: nat, tot: nat, bn: nat, o: nat, m: nat, sofar: seq<Byte>) returns (dst: seq<Byte>)
      requires Valid() && Open(ip) && Filled(blocks[..], ip.Rec(), ip.size) && off + n <= ip.size && Piece(off, tot, n, bn, o, m)
      modifies this`table, this`transit, this`logged, blocks, ip.addrs
      ensures m > 0 && tot + m <= n && off + n <= |old(Content(blocks[..], ip.Rec()))|
      ensures dst == sofar + old(Content(blocks[..], ip.Rec()))[off + tot..off + tot + m]
      ensures blocks[..] == old(blocks[..]) && table == old(table) && transit == old(transit) && logged == old(logged) && ip.Rec() == old(ip.Rec())
    {
      FilledSize(blocks[..], ip.Rec());
      hide Own, Addr, Filled, ByteAt;
      ghost var d, x := blocks[..], ip.Rec();
      PieceFacts(off, tot, n, bn, o, m);
      HasBlock(d, x, bn);
      var a := Lookup(ip, bn);
      ReadPiece(d, x, off, tot, n, bn, o, m, a);
      dst := sofar + blocks[a][o..o + m];
    }

    /** One iteration of writei, with the accounting of what is logged. */
    method WriteBlock(ip: Ip, src: seq<Byte>, off: nat, tot: nat, bn: nat, o: nat, m: nat, ghost d: Store, ghost t: seq<Inode>, ghost l: set<nat>,
                      ghost data0: set<nat>, ghost bm0: set<nat>, ghost k: nat, ghost g0: nat)
      returns (ok: bool, ghost data: set<nat>, ghost bm: set<nat>, ghost g: nat)
      requires Valid() && Open(ip) && transit == {} && Writing(d, t, blocks[..], table, ip.inum, off, tot, src)
      requires Piece(off, tot, |src|, bn, o, m) && tot + m <= |src| && o + m <= BSIZE && (k == 0 ==> tot == 0) && InodeOk(t[ip.inum])
      requires Track(l, logged, data0, bm0, k, g0, t[ip.inum].addrs[NDIRECT], ip.addrs[NDIRECT], off)
      modifies this`table, this`transit, this`logged, blocks, ip.addrs
      ensures ok ==> Valid() && Open(ip) && transit == {} && Writing(d, t, blocks[..], table, ip.inum, off, tot + m, src)
      ensures ok ==> Track(l, logged, data, bm, k + 1, g, t[ip.inum].addrs[NDIRECT], ip.addrs[NDIRECT], off)
      ensures ok ==> sb.bmapstart <= blocks.Length && forall b :: 0 <= b < sb.bmapstart ==> blocks[b] == old(blocks[b])
      ensures ok ==> Logs(sb, old(blocks[..]), old(logged), blocks[..], logged) && logged != {}
      ensures !ok ==> Full(sb, blocks[..])
    {
      hide Own, Writing, Addr, BmapEffect, Track, Logs, Full;
      PieceInFile(d, t, blocks[..], table, ip.inum, off, tot, src, bn, o, m);
      ghost var e, u, h, i := blocks[..], table, logged, ip.inum;
      TableOk(sb, e, u, transit);
      data, bm, g := data0, bm0, g0;
      var r, bits := Bmap(ip, bn);
      if r.None? {
        return false, data, bm, g;
      }
      var a := r.value;
      ghost var f, v := blocks[..], table;
      WriteStep(sb, d, t, e, u, h, f, v, logged, bits, transit, i, off, tot, src, bn, o, m, a);
      TrackStep(sb, d, t, e, u, l, h, f, v, logged, bits, i, off, tot, src, bn, o, m, a, data, bm, k, g);
      EffectLow(sb, e, u, h, f, v, logged, bits, i, bn, a);
      LogsOne(sb, f, logged, a, Patch(f[a], o, src[tot..tot + m]));
      LogsTrans(sb, e, h, f, logged, f[a := Patch(f[a], o, src[tot..tot + m])], logged + {a});
      g := g + (if Addr(e, u[i], SlotOf(bn)) == 0 then 1 else 0);
      data, bm := data + {a}, bm + bits;
      blocks[a] := Patch(blocks[a], o, src[tot..tot + m]);
      logged := logged + {a};
      assert blocks[..] == f[a := Patch(f[a], o, src[tot..tot + m])];
      ok := true;
    }

    /** The loop of writei: false is a full disk. */
    method WriteBlocks(ip: Ip, src: seq<Byte>, off: nat) returns (ok: bool, ghost data: set<nat>, ghost bm: set<nat>, ghost k: nat, ghost g: nat)
      requires Clean() && Open(ip) && off <= ip.size && off + |src| <= MAXFILE * BSIZE
      modifies this`table, this`transit, this`logged, blocks, ip.addrs
      ensures ok ==> Valid() && Open(ip) && transit == {} && (forall b :: 0 <= b < sb.bmapstart ==> blocks[b] == old(blocks[b]))
      ensures ok ==> Writing(old(blocks[..]), old(table), blocks[..], table, ip.inum, off, |src|, src)
      ensures ok ==> Progress(off, |src|, |src|, k) && Track(old(logged), logged, data, bm, k, g, old(ip.addrs[NDIRECT]), ip.addrs[NDIRECT], off)
      ensures ok ==> Logs(sb, old(blocks[..]), old(logged), blocks[..], logged) && (src != [] ==> logged != {})
      ensures !ok ==> Full(sb, blocks[..])
    {
      hide Own, Writing, Addr, BmapEffect, Synced, AllFilled, Track, Progress, Filled, Logs, Full;
      ghost var d, t, l := blocks[..], table, logged;
      TableOk(sb, d, t, transit);
      WriteStart(sb, d, t, l, ip.inum, off, src);
      LogsNone(sb, d, l);
      data, bm, k, g := {}, {}, 0, 0;
      var tot := 0;
      while tot < |src|
        invariant 0 <= tot <= |src| && Valid() && Open(ip) && transit == {}
        invariant forall b :: 0 <= b < sb.bmapstart ==> blocks[b] == d[b]
        invariant Logs(sb, d, l, blocks[..], logged) && (tot > 0 ==> logged != {})
        invariant Writing(d, t, blocks[..], table, ip.inum, off, tot, src)
        invariant Progress(off, tot, |src|, k) && Track(l, logged, data, bm, k, g, t[ip.inum].addrs[NDIRECT], ip.addrs[NDIRECT], off)
      {
        var bn, o := (off + tot) / BSIZE, (off + tot) % BSIZE;
        var m := if |src| - tot < BSIZE - o then |src| - tot else BSIZE - o;
        ProgressStep(off, tot, |src|, k, bn, o, m);
        ProgressStart(off, tot, |src|, k);
        ghost var e, h := blocks[..], logged;
        ok, data, bm, g := WriteBlock(ip, src, off, tot, bn, o, m, d, t, l, data, bm, k, g);
        if !ok {
          return;
        }
        LogsTrans(sb, d, l, e, h, blocks[..], logged);
        tot, k := tot + m, k + 1;
      }
      return true, data, bm, k, g;
    }

    /** writei to a file: the splice, or -1, or nothing on a full disk (a panic).  The blocks it
        logs are among `extra`. */
    method Writei(ip: Ip, src: seq<Byte>, off: nat) returns (r: Option<int>, ghost extra: set<nat>)
      requires Clean() && Open(ip) && off < UINT && |src| < UINT
      modifies this`table, this`transit, this`logged, blocks, ip, ip.addrs
      ensures r == Some(-1) <==> off > old(ip.size) || off + |src| > MAXFILE * BSIZE
      ensures r == Some(-1) ==> blocks[..] == old(blocks[..]) && table == old(table) && logged == old(logged) && ip.Rec() == old(ip.Rec()) && transit == {}
      ensures r.Some? ==> Clean() && Open(ip) && |table| == old(|table|) && logged <= old(logged) + extra && |extra| <= SmallBound(off, |src|)
      ensures r.Some? && r.value != -1 ==> r.value == |src| && off <= old(ip.size)
      ensures r.Some? && r.value != -1 ==> ip.size <= MAXFILE * BSIZE && old(ip.size) <= MAXFILE * BSIZE
      ensures r.Some? && r.value != -1 ==> Content(blocks[..], ip.Rec()) == Splice(old(Content(blocks[..], ip.Rec())), off, src)
      ensures r.Some? && r.value != -1 ==> FilesSame(old(blocks[..]), old(table), blocks[..], table, ip.inum)
      ensures r.Some? && r.value != -1 ==> Logs(sb, old(blocks[..]), old(logged), blocks[..], logged) && (src != [] ==> logged != {})
      ensures r.None? ==> Full(sb, blocks[..])
    {
      OpenFilled(ip);
      hide Own, Writing, Addr, Synced, AllFilled, Track, Progress, Filled, Content, FilesSame, Logs, Full;
      extra := {};
      if off > ip.size || (off + |src|) % UINT < off {
        return Some(-1), extra;
      }
      if off + |src| > MAXFILE * BSIZE {
        return Some(-1), extra;
      }
      ghost var d, t, l := blocks[..], table, logged;
      var ok;
      ghost var data, bm, k, g;
      ok, data, bm, k, g := WriteBlocks(ip, src, off);
      if !ok {
        return None, extra;
      }
      ghost var i := ip.inum;
      ProgressEnd(off, |src|, k);
      TrackTotal(l, logged, data, bm, k, g, t[i].addrs[NDIRECT], ip.addrs[NDIRECT], off, |src|, IBlock(sb, i));
      extra := data + bm + {ip.addrs[NDIRECT], IBlock(sb, i)};
      ghost var e, h := blocks[..], logged;
      EndWrite(ip, src, off, d, t);
      LogsTrans(sb, d, l, e, h, blocks[..], logged);
      LogsGrows(sb, e, h, blocks[..], logged);
      return Some(|src|), extra;
    }

    /** The end of writei: size and disk inode, if the file has grown. */
    method EndWrite(ip: Ip, src: seq<Byte>, off: nat, ghost d: Store, ghost t: seq<Inode>)
      requires Valid() && Open(ip) && transit == {} && Written(sb, d, t, blocks[..], table, ip.inum, off, src)
      modifies this`table, this`logged, blocks, ip`size
      ensures Clean() && Open(ip) && logged <= old(logged) + {IBlock(sb, ip.inum)} && FilesSame(d, t, blocks[..], table, ip.inum)
      ensures Became(d, t, blocks[..], ip.Rec(), ip.inum, off, src)
      ensures Logs(sb, old(blocks[..]), old(logged), blocks[..], logged)
    {
      WrittenFacts(sb, d, t, blocks[..], table, ip.inum, off, src);
      LogsNone(sb, blocks[..], logged);
      hide Own, Written, Addr, Synced, AllFilled, FilesSame, Became, Logs;
      if |src| > 0 && off + |src| > ip.size {
        Grow(ip, src, off, d, t);
      } else {
        StayOwn(sb, d, t, blocks[..], table, ip.inum, off, src);
      }
    }

    method Grow(ip: Ip, src: seq<Byte>, off: nat, ghost d: Store, ghost t: seq<Inode>)
      requires Valid() && Open(ip) && transit == {} && Written(sb, d, t, blocks[..], table, ip.inum, off, src)
      requires ip.inum < |t| && off + |src| > t[ip.inum].size
      modifies this`table, this`logged, blocks, ip`size
      ensures Clean() && Open(ip) && logged == old(logged) + {IBlock(sb, ip.inum)} && FilesSame(d, t, blocks[..], table, ip.inum)
      ensures ip.size == off + |src| && Became(d, t, blocks[..], ip.Rec(), ip.inum, off, src)
      ensures Logs(sb, old(blocks[..]), old(logged), blocks[..], logged)
    {
      WrittenFacts(sb, d, t, blocks[..], table, ip.inum, off, src);
      hide Own, Written, Synced, AllFilled, FilesSame, PutInode, Became, Layout, InodeOk, IBlock, Logs;
      ghost var e, u, i := blocks[..], table, ip.inum;
      var size := off + |src|;
      ghost var y := u[i].(size := size);
      GrowOwn(sb, d, t, e, u, i, off, src, y);
      ip.size := size;
      assert ip.Rec() == y;
      table := table[i := y];
      Iupdate(ip);
    }

    /** itrunc frees the block in a direct slot; the bit was set, so bfree does not panic. */
    method FreeSlot(ip: Ip, s: nat)
      requires Valid() && Open(ip) && transit == {} && s < NDIRECT && ip.addrs[s] != 0
      modifies this`table, this`transit, this`logged, blocks, ip.addrs
      ensures Valid() && Open(ip) && transit == {} && ip.addrs[..] == old(ip.addrs[..])[s := 0] && Lost(sb, old(blocks[..]), old(table), blocks[..], table, ip.inum)
      ensures logged == old(logged) + {BBlock(sb, old(ip.addrs[s]))} && Logs(sb, old(blocks[..]), old(logged), blocks[..], logged)
      ensures forall c :: sb.data <= c < blocks.Length ==> blocks[c] == old(blocks[c])
    {
      hide Own, OthersSame, Used, Logs;
      ghost var d, t, n := blocks[..], table, ip.inum;
      TableOk(sb, d, t, transit);
      DropDirect(sb, d, t, {}, n, s);
      var a := ip.addrs[s];
      table, transit := SetAddr(t, n, s, 0), {a};
      assert {} + {a} == {a} && {a} - {a} == {};
      DropOthers(d, t, table, n);
      FreeOthers(sb, d, table, {a}, a, n);
      FreeOwn(sb, d, table, {a}, a);
      var ok := Bfree(a);
      assert ok;
      OthersTrans(d, t, d, table, blocks[..], table, n);
      ip.addrs[s] := 0;
      assert ip.addrs[..] == t[n].addrs[s := 0];
    }

    /** itrunc's loop over the direct blocks. */
    method FreeDirect(ip: Ip)
      requires Valid() && Open(ip) && transit == {}
      modifies this`table, this`transit, this`logged, blocks, ip.addrs
      ensures Valid() && Open(ip) && transit == {} && Lost(sb, old(blocks[..]), old(table), blocks[..], table, ip.inum)
      ensures ip.addrs[NDIRECT] == old(ip.addrs[NDIRECT]) && forall s :: 0 <= s < NDIRECT ==> ip.addrs[s] == 0
      ensures logged == old(logged) + BitsOf(sb, Direct(old(ip.addrs[..]), NDIRECT)) && Logs(sb, old(blocks[..]), old(logged), blocks[..], logged)
      ensures forall c :: sb.data <= c < blocks.Length ==> blocks[c] == old(blocks[c])
    {
      hide Own, Lost, Logs, BitsOf, Direct;
      ghost var d, t, n, l, addrs := blocks[..], table, ip.inum, logged, ip.addrs[..];
      TableOk(sb, d, t, transit);
      LostNone(sb, d, t, n);
      LogsNone(sb, d, l);
      NoBits(sb, l, addrs);
      var i := 0;
      while i < NDIRECT
        invariant 0 <= i <= NDIRECT && Valid() && Open(ip) && transit == {} && Lost(sb, d, t, blocks[..], table, n)
        invariant ip.addrs[NDIRECT] == t[n].addrs[NDIRECT] && forall s :: 0 <= s < i ==> ip.addrs[s] == 0
        invariant forall s :: i <= s <= NDIRECT ==> ip.addrs[s] == addrs[s]
        invariant logged == l + BitsOf(sb, Direct(addrs, i)) && Logs(sb, d, l, blocks[..], logged)
        invariant forall c :: sb.data <= c < blocks.Length ==> blocks[c] == d[c]
      {
        DirectNext(addrs, i);
        BitsMore(sb, l, Direct(addrs, i), addrs[i]);
        assert Direct(addrs, i) + {} == Direct(addrs, i);
        if ip.addrs[i] != 0 {
          ghost var e, u, m := blocks[..], table, logged;
          FreeSlot(ip, i);
          LostTrans(sb, d, t, e, u, blocks[..], table, n);
          LogsTrans(sb, d, l, e, m, blocks[..], logged);
        }
        i := i + 1;
      }
    }

    /** bfree of a block that has left its owner: its bit was set, so there is no panic. */
    method FreeLeft(b: nat, ghost n: nat)
      requires Valid() && b in transit && n < |table|
      modifies this`transit, this`logged, blocks
      ensures Valid() && transit == old(transit) - {b} && Lost(sb, old(blocks[..]), table, blocks[..], table, n)
      ensures forall c :: sb.data <= c < blocks.Length ==> blocks[c] == old(blocks[c])
      ensures logged == old(logged) + {BBlock(sb, b)} && Logs(sb, old(blocks[..]), old(logged), blocks[..], logged)
    {
      hide Own, Lost, Used, SetBit, Logs;
      ghost var d := blocks[..];
      TableOk(sb, d, table, transit);
      TransitIn(sb, d, table, transit);
      FreeLost(sb, d, table, transit, b, n);
      var ok := Bfree(b);
      assert ok;
    }

    /** itrunc's loop over the entries of the indirect block `p`, and the block itself. */
    method FreeEntries(p: nat, ghost n: nat)
      requires Valid() && sb.data <= p < blocks.Length && transit == Entries(blocks[p], 0) + {p} && n < |table|
      requires Once(blocks[p], p)
      modifies this`transit, this`logged, blocks
      ensures Valid() && transit == {} && Lost(sb, old(blocks[..]), table, blocks[..], table, n)
      ensures logged == old(logged) + BitsOf(sb, old(transit)) && Logs(sb, old(blocks[..]), old(logged), blocks[..], logged)
    {
      hide Own, Lost, Word, Entries, Once, Logs, BitsOf;
      ghost var d, b, x, l := blocks[..], blocks[p], transit, logged;
      TableOk(sb, d, table, transit);
      LostNone(sb, d, table, n);
      LogsNone(sb, d, l);
      BitsLeft(sb, l, x, x);
      var j := 0;
      while j < NINDIRECT
        invariant 0 <= j <= NINDIRECT && Valid() && blocks[p] == b && transit == Entries(b, j) + {p} && Lost(sb, d, table, blocks[..], table, n)
        invariant transit <= x && logged == l + BitsOf(sb, x - transit) && Logs(sb, d, l, blocks[..], logged)
      {
        var a := Word(blocks[p], j);
        EntriesStep(b, p, j);
        if a != 0 {
          ghost var e, m := blocks[..], logged;
          BitsNext(sb, l, x, transit, a);
          FreeLeft(a, n);
          LostTrans(sb, d, table, e, table, blocks[..], table, n);
          LogsTrans(sb, d, l, e, m, blocks[..], logged);
        }
        j := j + 1;
      }
      ghost var e, m := blocks[..], logged;
      NoEntries(b, p);
      BitsNext(sb, l, x, transit, p);
      FreeLeft(p, n);
      LostTrans(sb, d, table, e, table, blocks[..], table, n);
      LogsTrans(sb, d, l, e, m, blocks[..], logged);
      assert x - {} == x;
    }

    /** itrunc's treatment of the indirect block. */
    method FreeIndirect(ip: Ip)
      requires Valid() && Open(ip) && transit == {} && ip.addrs[NDIRECT] != 0
      modifies this`table, this`transit, this`logged, blocks, ip.addrs
      ensures Valid() && Open(ip) && transit == {} && ip.addrs[..] == old(ip.addrs[..])[NDIRECT := 0]
      ensures Lost(sb, old(blocks[..]), old(table), blocks[..], table, ip.inum)
      ensures var p := old(ip.addrs[NDIRECT]); p < blocks.Length && logged == old(logged) + BitsOf(sb, Entries(old(blocks[..])[p], 0) + {p})
      ensures Logs(sb, old(blocks[..]), old(logged), blocks[..], logged)
    {
      hide Own, Lost, Entries, Word, Logs, BitsOf;
      ghost var e, u, n := blocks[..], table, ip.inum;
      var p := ip.addrs[NDIRECT];
      TableOk(sb, e, u, {});
      DropIndirect(sb, e, u, {}, n);
      EntriesOnce(sb, e, u, {}, n);
      table, transit := SetAddr(u, n, NDIRECT, 0), Entries(e[p], 0) + {p};
      assert {} + transit == transit;
      TransitIn(sb, e, table, transit);
      LostDrop(sb, e, u, table, n);
      FreeEntries(p, n);
      ip.addrs[NDIRECT] := 0;
      assert ip.addrs[..] == u[n].addrs[NDIRECT := 0];
      LostTrans(sb, e, u, e, table, blocks[..], table, n);
    }

    /** Both halves of itrunc: the bitmap blocks of the file's blocks are logged, and no others. */
    method FreeAll(ip: Ip)
      requires Valid() && Open(ip) && transit == {}
      modifies this`table, this`transit, this`logged, blocks, ip.addrs
      ensures Valid() && Open(ip) && transit == {} && (forall s :: 0 <= s <= NDIRECT ==> ip.addrs[s] == 0)
      ensures Lost(sb, old(blocks[..]), old(table), blocks[..], table, ip.inum)
      ensures logged == old(logged) + BitsOf(sb, Blocks(old(blocks[..]), old(ip.Rec()))) && Logs(sb, old(blocks[..]), old(logged), blocks[..], logged)
    {
      hide Own, Lost, Logs, BitsOf, Blocks, Direct, Entries, Addr;
      ghost var d, t, n, l, x := blocks[..], table, ip.inum, logged, ip.Rec();
      IndirectIn(sb, d, t, transit, n);
      BlocksAre(d, x);
      ghost var direct, p := Direct(x.addrs, NDIRECT), x.addrs[NDIRECT];
      assert direct + {} == direct;
      FreeDirect(ip);
      ghost var e, u, m := blocks[..], table, logged;
      if ip.addrs[NDIRECT] != 0 {
        BitsUnion(sb, l, direct, Entries(d[p], 0) + {p});
        FreeIndirect(ip);
        LostTrans(sb, d, t, e, u, blocks[..], table, n);
        LogsTrans(sb, d, l, e, m, blocks[..], logged);
      }
    }

    /** itrunc: no block of the file remains, each was freed once, and no other file changes. */
    method Itrunc(ip: Ip)
      requires Clean() && Open(ip)
      modifies this`table, this`transit, this`logged, blocks, ip, ip.addrs
      ensures Clean() && Open(ip) && ip.size == 0 && (forall s :: 0 <= s <= NDIRECT ==> ip.addrs[s] == 0)
      ensures FilesSame(old(blocks[..]), old(table), blocks[..], table, ip.inum)
      ensures Freed(sb, old(blocks[..]), old(ip.Rec()), blocks[..])
      ensures logged == old(logged) + (BitsOf(sb, Blocks(old(blocks[..]), old(ip.Rec()))) + {IBlock(sb, ip.inum)})
      ensures Logs(sb, old(blocks[..]), old(logged), blocks[..], logged)
    {
      hide Own, Lost, Synced, AllFilled, FilesSame, Freed, Logs, BitsOf, Blocks, IBlock;
      ghost var d, t, l := blocks[..], table, logged;
      TableOk(sb, d, t, transit);
      FreeAll(ip);
      ghost var f, q := blocks[..], logged;
      EndTrunc(ip, d, t);
      LogsTrans(sb, d, l, f, q, blocks[..], logged);
    }

    method EndTrunc(ip: Ip, ghost d: Store, ghost t: seq<Inode>)
      requires Valid() && Open(ip) && transit == {} && Own(sb, d, t, {}) && Synced(sb, d, t) && AllFilled(d, t) && ip.inum < |t|
      requires Lost(sb, d, t, blocks[..], table, ip.inum) && forall s :: 0 <= s <= NDIRECT ==> ip.addrs[s] == 0
      modifies this`table, this`logged, blocks, ip`size
      ensures Clean() && Open(ip) && ip.size == 0 && FilesSame(d, t, blocks[..], table, ip.inum)
      ensures Freed(sb, d, t[ip.inum], blocks[..])
      ensures logged == old(logged) + {IBlock(sb, ip.inum)} && Logs(sb, old(blocks[..]), old(logged), blocks[..], logged)
    {
      ghost var f, v, n := blocks[..], table, ip.inum;
      TableOk(sb, f, v, {});
      hide Own, Lost, Synced, AllFilled, FilesSame, Freed, PutInode, Layout, InodeOk, IBlock, Logs;
      ghost var y := v[n].(size := 0);
      TruncEnd(sb, d, t, f, v, n, y);
      ip.size := 0;
      assert ip.Rec() == y;
      table := table[n := y];
      Iupdate(ip);
    }
  }
}
