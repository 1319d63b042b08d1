/** The disk of a file system between transactions, and the disks that a write in chunks goes
    through. */
module FsHistory {
  import opened Params
  import opened FsBlocks
  import opened FsSpec
  import opened FsFile
  import opened FsWrite

  /** The inodes that the disk has. */
  function OnDisk(sb: Super, d: Store): (t: seq<Inode>)
    requires Layout(sb, d)
    ensures |t| == sb.ninodes && forall i: nat :: i < |t| ==> t[i] == Dinode(sb, d, i)
  {
    seq(sb.ninodes, i requires 0 <= i < sb.ninodes => Dinode(sb, d, i))
  }

  /** A disk on which the bitmap is exact, no block has two owners, and no file has a hole. */
  ghost predicate Consistent(sb: Super, d: Store) {
    Layout(sb, d) && Own(sb, d, OnDisk(sb, d), {}) && AllFilled(d, OnDisk(sb, d))
  }

  ghost function FileAt(sb: Super, d: Store, i: nat): seq<Byte>
    requires Consistent(sb, d) && i < sb.ninodes
  {
    FilledSize(d, OnDisk(sb, d)[i]);
    Content(d, OnDisk(sb, d)[i])
  }

  lemma CleanIs(sb: Super, d: Store, t: seq<Inode>)
    requires Own(sb, d, t, {}) && Synced(sb, d, t) && AllFilled(d, t)
    ensures Consistent(sb, d) && OnDisk(sb, d) == t
  {
    hide Own, AllFilled, Dinode;
    assert OnDisk(sb, d) == t;
  }

  /** How much of `n` bytes `k` chunks cover. */
  function Upto(k: nat, n: nat): nat {
    if k * MAXCHUNK < n then k * MAXCHUNK else n
  }

  /** From one disk to the next: an operation that logs every block it changes, and no more blocks than
      begin_op reserves. */
  ghost predicate Operation(sb: Super, d: Store, e: Store, op: set<nat>) {
    Consistent(sb, e) && Logs(sb, d, {}, e, op) && |op| <= MAXOPBLOCKS
  }

  ghost predicate Transaction(sb: Super, d: Store, e: Store, op: set<nat>) {
    Operation(sb, d, e, op) && op != {}
  }

  /** File `i` of `e` is that of `d` with `src` at `off`, and no other file differs. */
  ghost predicate SplicedAt(sb: Super, d: Store, e: Store, i: nat, off: nat, src: seq<Byte>) {
    && Consistent(sb, d) && Consistent(sb, e) && i < sb.ninodes && off <= |FileAt(sb, d, i)|
    && FileAt(sb, e, i) == Splice(FileAt(sb, d, i), off, src)
    && (forall j: nat :: j < sb.ninodes && j != i ==> FileAt(sb, e, j) == FileAt(sb, d, j))
  }

  /** The disks of a write of `src` to file `i` at `off`, one after each chunk. */
  ghost predicate Chunked(sb: Super, i: nat, off: nat, src: seq<Byte>, states: seq<Store>, ops: seq<set<nat>>) {
    && |states| == |ops| + 1 && Consistent(sb, states[0])
    && (forall k: nat :: k < |ops| ==> Transaction(sb, states[k], states[k + 1], ops[k]))
    && (forall k: nat :: 0 < k <= |ops| ==> SplicedAt(sb, states[0], states[k], i, off, src[..Upto(k, |src|)]))
  }

  lemma SpliceTwice(c: seq<Byte>, off: nat, a: seq<Byte>, b: seq<Byte>)
    requires off <= |c|
    ensures off + |a| <= |Splice(c, off, a)|
    ensures Splice(Splice(c, off, a), off + |a|, b) == Splice(c, off, a + b)
  {
  }

  lemma UptoNext(k: nat, n: nat)
    requires Upto(k, n) < n
    ensures Upto(k, n) == k * MAXCHUNK
    ensures Upto(k + 1, n) == if n - Upto(k, n) > MAXCHUNK then Upto(k, n) + MAXCHUNK else n
  {
  }

  /** One chunk more. */
  lemma ChunkAdded(sb: Super, i: nat, off: nat, src: seq<Byte>, states: seq<Store>, ops: seq<set<nat>>, e: Store, op: set<nat>)
    requires Chunked(sb, i, off, src, states, ops) && Upto(|ops|, |src|) < |src| && Transaction(sb, states[|ops|], e, op)
    requires SplicedAt(sb, states[|ops|], e, i, off + Upto(|ops|, |src|), src[Upto(|ops|, |src|)..Upto(|ops| + 1, |src|)])
    ensures Chunked(sb, i, off, src, states + [e], ops + [op])
  {
    hide Consistent, FileAt, Splice, Transaction;
    var n := |ops|;
    var a, b := Upto(n, |src|), Upto(n + 1, |src|);
    UptoNext(n, |src|);
    var s := states + [e];
    assert src[..b] == src[..a] + src[a..b];
    if n > 0 {
      SpliceTwice(FileAt(sb, states[0], i), off, src[..a], src[a..b]);
      SplicedAlong(sb, states[0], states[n], e, i, off, src[..a], src[a..b]);
    } else {
      assert src[..a] == [];
    }
    forall k: nat | k < n + 1 ensures Transaction(sb, s[k], s[k + 1], (ops + [op])[k]) {
    }
    forall k: nat | 0 < k <= n + 1 ensures SplicedAt(sb, s[0], s[k], i, off, src[..Upto(k, |src|)]) {
      if k <= n { assert SplicedAt(sb, states[0], states[k], i, off, src[..Upto(k, |src|)]); }
    }
  }

  lemma SplicedAlong(sb: Super, d: Store, e: Store, f: Store, i: nat, off: nat, a: seq<Byte>, b: seq<Byte>)
    requires SplicedAt(sb, d, e, i, off, a) && SplicedAt(sb, e, f, i, off + |a|, b)
    ensures SplicedAt(sb, d, f, i, off, a + b)
  {
    hide Consistent, FileAt;
    SpliceTwice(FileAt(sb, d, i), off, a, b);
  }

  // ------------------------------------------------------------ with others at work

  /** The disks before and after each operation, the blocks that each logged, and which of them were
      the chunks of a write. */
  datatype Work = Work(states: seq<Store>, ops: seq<set<nat>>, mine: seq<bool>)

  /** How many of the first `k` operations were the write's. */
  function Chunks(mine: seq<bool>, k: nat): nat
    requires k <= |mine|
  {
    if k == 0 then 0 else Chunks(mine, k - 1) + if mine[k - 1] then 1 else 0
  }

  function Chunk(src: seq<Byte>, c: nat): seq<Byte>
    requires Upto(c, |src|) < |src|
  {
    UptoNext(c, |src|);
    src[Upto(c, |src|)..Upto(c + 1, |src|)]
  }

  /** Operation `k` is the next chunk of the write, or leaves its file alone. */
  ghost predicate Turn(sb: Super, i: nat, off: nat, src: seq<Byte>, w: Work, k: nat)
    requires |w.states| == |w.ops| + 1 && |w.mine| == |w.ops| && k < |w.ops| && i < sb.ninodes
  {
    var c := Chunks(w.mine, k);
    && Consistent(sb, w.states[k]) && Operation(sb, w.states[k], w.states[k + 1], w.ops[k])
    && if w.mine[k] then
         Upto(c, |src|) < |src| && SplicedAt(sb, w.states[k], w.states[k + 1], i, off + Upto(c, |src|), Chunk(src, c))
       else FileAt(sb, w.states[k + 1], i) == FileAt(sb, w.states[k], i)
  }

  /** A write of `src` to file `i` at `off`, while other operations leave that file alone. */
  ghost predicate Mixed(sb: Super, i: nat, off: nat, src: seq<Byte>, w: Work) {
    && |w.states| == |w.ops| + 1 && |w.mine| == |w.ops| && i < sb.ninodes && Consistent(sb, w.states[0])
    && (forall k: nat :: k < |w.ops| ==> Turn(sb, i, off, src, w, k))
  }

  /** The file on `e` is that on `d` with the first `c` chunks. */
  ghost predicate FileHas(sb: Super, d: Store, e: Store, i: nat, off: nat, src: seq<Byte>, c: nat) {
    && Consistent(sb, d) && Consistent(sb, e) && i < sb.ninodes
    && (c == 0 ==> FileAt(sb, e, i) == FileAt(sb, d, i))
    && (c > 0 ==> off <= |FileAt(sb, d, i)| && FileAt(sb, e, i) == Splice(FileAt(sb, d, i), off, src[..Upto(c, |src|)]))
  }

  /** After any of the operations the file has the chunks there were so far. */
  lemma {:induction false} MixedFile(sb: Super, i: nat, off: nat, src: seq<Byte>, w: Work, k: nat)
    requires Mixed(sb, i, off, src, w) && k <= |w.ops|
    ensures FileHas(sb, w.states[0], w.states[k], i, off, src, Chunks(w.mine, k))
  {
    hide Consistent, FileAt, Splice, Upto;
    if k > 0 {
      MixedFile(sb, i, off, src, w, k - 1);
      assert Turn(sb, i, off, src, w, k - 1);
      if w.mine[k - 1] {
        NextChunk(sb, w.states[0], w.states[k - 1], w.states[k], i, off, src, Chunks(w.mine, k - 1));
      }
    }
  }

  lemma NextChunk(sb: Super, d: Store, e: Store, f: Store, i: nat, off: nat, src: seq<Byte>, c: nat)
    requires FileHas(sb, d, e, i, off, src, c) && Upto(c, |src|) < |src|
    requires SplicedAt(sb, e, f, i, off + Upto(c, |src|), Chunk(src, c))
    ensures FileHas(sb, d, f, i, off, src, c + 1)
  {
    hide Consistent, FileAt, Splice;
    UptoNext(c, |src|);
    var a, b := Upto(c, |src|), Upto(c + 1, |src|);
    assert src[..b] == src[..a] + src[a..b];
    if c > 0 {
      SpliceTwice(FileAt(sb, d, i), off, src[..a], src[a..b]);
    } else {
      assert src[..a] == [];
    }
  }

  /** The blocks that some consecutive operations logged. */
  function UnionOf(ops: seq<set<nat>>, a: nat, b: nat): set<nat>
    requires a <= b <= |ops|
    decreases b
  {
    if a == b then {} else UnionOf(ops, a, b - 1) + ops[b - 1]
  }

  /** Together they log every block they change. */
  lemma {:induction false} UnionLogs(sb: Super, i: nat, off: nat, src: seq<Byte>, w: Work, a: nat, b: nat)
    requires Mixed(sb, i, off, src, w) && a <= b <= |w.ops|
    ensures Logs(sb, w.states[a], {}, w.states[b], UnionOf(w.ops, a, b))
    decreases b
  {
    hide Consistent, FileAt, SplicedAt, Logs;
    if a == b {
      LogsNone(sb, w.states[a], {});
    } else {
      UnionLogs(sb, i, off, src, w, a, b - 1);
      assert Turn(sb, i, off, src, w, b - 1);
      LogsBoth(sb, w.states[a], w.states[b - 1], w.states[b], UnionOf(w.ops, a, b - 1), w.ops[b - 1]);
    }
  }

  lemma LogsBoth(sb: Super, d: Store, e: Store, f: Store, l: set<nat>, m: set<nat>)
    requires Logs(sb, d, {}, e, l) && Logs(sb, e, {}, f, m)
    ensures Logs(sb, d, {}, f, l + m)
  {
    forall b | 0 <= b < |d| && f[b] != d[b] ensures b in l + m {
      assert e[b] != d[b] || f[b] != e[b];
    }
  }
}
