/** filewrite of file.c: a write in chunks, each a transaction of its own. */
module FileWrites {
  import opened Sets
  import opened Params
  import opened Options
  import opened FsBlocks
  import opened FsSpec
  import opened FsFile
  import opened FsWrite
  import opened FsHistory
  import opened FsDisk

  /** An open file: an inode and the offset of the next read or write. */
  class File {
    const fs: Fs
    const ip: Ip
    var off: nat

    constructor (fs: Fs, ip: Ip)
      ensures this.fs == fs && this.ip == ip && off == 0
    {
      this.fs, this.ip, off := fs, ip, 0;
    }

    /** Between begin_op and end_op: one writei.  What it logs fits the reservation, and is all it
        changes; nothing at all happens only on a full disk. */
    method WriteChunk(piece: seq<Byte>) returns (r: Option<int>)
      requires fs.Clean() && fs.Open(ip) && off < UINT && |piece| <= MAXCHUNK
      modifies this`off, fs, fs.blocks, ip, ip.addrs
      ensures r == Some(-1) <==> old(off) > old(ip.size) || old(off) + |piece| > MAXFILE * BSIZE
      ensures r.Some? ==> fs.Clean() && fs.Open(ip)
      ensures r.None? ==> Full(fs.sb, fs.blocks[..]) && off == old(off)
      ensures r == Some(-1) ==> off == old(off) && fs.blocks[..] == old(fs.blocks[..]) && fs.table == old(fs.table) && ip.Rec() == old(ip.Rec())
      ensures r.Some? && r.value != -1 ==> r.value == |piece| && off == old(off) + |piece| <= MAXFILE * BSIZE && old(off) <= old(ip.size)
      ensures r.Some? && r.value != -1 && piece != [] ==> Transaction(fs.sb, old(fs.blocks[..]), fs.blocks[..], fs.logged)
      ensures r.Some? && r.value != -1 ==> SplicedAt(fs.sb, old(fs.blocks[..]), fs.blocks[..], ip.inum, old(off), piece)
    {
      hide Own, Synced, AllFilled, Content, FilesSame, SmallBound, Logs, Full, SplicedAt, Consistent;
      ChunkFits(off, |piece|);
      ghost var d, t, from := fs.blocks[..], fs.table, off;
      fs.logged := {};
      ghost var op;
      r, op := fs.Writei(ip, piece, off);
      if r.Some? && r.value > 0 {
        off := off + r.value;
      }
      if r.Some? && r.value != -1 {
        assert {} + op == op;
        Subset(fs.logged, op);
        CleanIs(fs.sb, fs.blocks[..], fs.table);
        SplicedNow(fs.sb, d, t, fs.blocks[..], fs.table, ip.inum, from, piece);
      }
    }

    /** filewrite: all of `src` lands at the offset, or the chunks up to the first that does not fit
        the file.  `states` are the disks before and after each chunk, `ops` the blocks that each
        chunk logged; only a full disk ends the write between two chunks. */
    method Write(src: seq<Byte>) returns (r: Option<int>, ghost states: seq<Store>, ghost ops: seq<set<nat>>)
      requires fs.Clean() && fs.Open(ip) && off < UINT
      modifies this`off, fs, fs.blocks, ip, ip.addrs
      ensures Chunked(fs.sb, ip.inum, old(off), src, states, ops) && states[0] == old(fs.blocks[..])
      ensures off == old(off) + Upto(|ops|, |src|)
      ensures r.None? ==> Full(fs.sb, fs.blocks[..]) && Upto(|ops|, |src|) < |src|
      ensures r.Some? ==> fs.Clean() && fs.Open(ip) && states[|ops|] == fs.blocks[..]
      ensures r.Some? ==> r.value == if Upto(|ops|, |src|) == |src| then |src| else -1
      ensures r.Some? && Upto(|ops|, |src|) < |src| ==> off > ip.size || off + Next(|src| - Upto(|ops|, |src|)) > MAXFILE * BSIZE
    {
      hide Own, Synced, AllFilled, Full, SplicedAt, Transaction, Chunked, Upto, Consistent;
      ghost var from := off;
      states, ops := [fs.blocks[..]], [];
      CleanIs(fs.sb, fs.blocks[..], fs.table);
      ChunkedNone(fs.sb, ip.inum, from, src, fs.blocks[..]);
      var i := 0;
      while i < |src|
        invariant 0 <= i <= |src| && fs.Clean() && fs.Open(ip) && off == from + i && off < UINT
        invariant i == Upto(|ops|, |src|) && |states| == |ops| + 1 && states[0] == old(fs.blocks[..]) && states[|ops|] == fs.blocks[..]
        invariant Chunked(fs.sb, ip.inum, from, src, states, ops)
      {
        UptoNext(|ops|, |src|);
        var n := Next(|src| - i);
        var w := WriteChunk(src[i..i + n]);
        if w.None? {
          return None, states, ops;
        }
        if w.value < 0 {
          return Some(-1), states, ops;
        }
        ChunkAdded(fs.sb, ip.inum, from, src, states, ops, fs.blocks[..], fs.logged);
        states, ops := states + [fs.blocks[..]], ops + [fs.logged];
        i := i + n;
      }
      return Some(|src|), states, ops;
    }
  }

  /** The length of the next chunk. */
  function Next(left: nat): nat {
    if left > MAXCHUNK then MAXCHUNK else left
  }

  lemma ChunkedNone(sb: Super, i: nat, off: nat, src: seq<Byte>, d: Store)
    requires Consistent(sb, d)
    ensures Chunked(sb, i, off, src, [d], []) && Upto(0, |src|) == 0
  {
  }

  lemma SplicedNow(sb: Super, d: Store, t: seq<Inode>, e: Store, u: seq<Inode>, i: nat, off: nat, src: seq<Byte>)
    requires Own(sb, d, t, {}) && Synced(sb, d, t) && AllFilled(d, t) && Own(sb, e, u, {}) && Synced(sb, e, u) && AllFilled(e, u)
    requires i < |t| && InodeOk(t[i]) && t[i].size <= MAXFILE * BSIZE && off <= t[i].size
    requires i < |u| && InodeOk(u[i]) && u[i].size <= MAXFILE * BSIZE && Content(e, u[i]) == Splice(Content(d, t[i]), off, src)
    requires FilesSame(d, t, e, u, i)
    ensures SplicedAt(sb, d, e, i, off, src)
  {
    CleanIs(sb, d, t);
    CleanIs(sb, e, u);
    hide Own, AllFilled, Synced, ByteAt, Dinode;
  }
}
