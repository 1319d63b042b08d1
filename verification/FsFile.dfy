/** What a file holds: one byte sequence over direct and indirect blocks, without holes. */
module FsFile {
  import opened Params
  import opened FsBlocks
  import opened FsSpec

  /** The slot that bmap uses for file block `bn`. */
  function SlotOf(bn: nat): nat {
    if bn < NDIRECT then bn else bn + 1
  }

  /** File block `bn` has a disk block exactly if it starts before `end`, and the indirect block
      exists exactly if it is needed. */
  ghost predicate Filled(d: Store, x: Inode, end: nat) {
    && InodeOk(x) && end <= MAXFILE * BSIZE
    && (forall bn: nat :: bn < MAXFILE ==> (Addr(d, x, SlotOf(bn)) != 0 <==> bn * BSIZE < end))
    && (x.addrs[NDIRECT] != 0 <==> NDIRECT * BSIZE < end)
  }

  function ByteAt(d: Store, x: Inode, k: nat): Byte
    requires InodeOk(x) && k < MAXFILE * BSIZE
  {
    var a := Addr(d, x, SlotOf(k / BSIZE));
    if a < |d| then d[a][k % BSIZE] else 0
  }

  function Bytes(d: Store, x: Inode, n: nat): (r: seq<Byte>)
    requires InodeOk(x) && n <= MAXFILE * BSIZE
    ensures |r| == n && forall k :: 0 <= k < n ==> r[k] == ByteAt(d, x, k)
  {
    seq(n, k requires 0 <= k < n => ByteAt(d, x, k))
  }

  /** The content of a file. */
  function Content(d: Store, x: Inode): seq<Byte>
    requires InodeOk(x) && x.size <= MAXFILE * BSIZE
  {
    Bytes(d, x, x.size)
  }

  /** Every block in a slot stays there, and those that are not indirect blocks keep their bytes. */
  ghost predicate Keeps(d: Store, x: Inode, e: Store, y: Inode)
    requires InodeOk(x) && InodeOk(y)
  {
    forall s: nat :: s < NSLOT && Addr(d, x, s) != 0 ==>
      Addr(e, y, s) == Addr(d, x, s) && (s != NDIRECT && Addr(d, x, s) < |d| ==> Addr(d, x, s) < |e| && e[Addr(d, x, s)] == d[Addr(d, x, s)])
  }

  ghost predicate KeepsAll(d: Store, t: seq<Inode>, e: Store, u: seq<Inode>) {
    |t| == |u| && forall j :: 0 <= j < |t| ==> InodeOk(t[j]) && InodeOk(u[j]) && Keeps(d, t[j], e, u[j])
  }

  /** No block joins or leaves an inode. */
  ghost predicate SameSlots(d: Store, x: Inode, e: Store, y: Inode)
    requires InodeOk(x) && InodeOk(y)
  {
    forall s: nat :: s < NSLOT ==> Addr(e, y, s) == Addr(d, x, s)
  }

  lemma KeepsTrans(d: Store, x: Inode, e: Store, y: Inode, f: Store, z: Inode)
    requires InodeOk(x) && InodeOk(y) && InodeOk(z) && Keeps(d, x, e, y) && Keeps(e, y, f, z)
    ensures Keeps(d, x, f, z)
  {
    hide Addr;
  }

  lemma KeepsAllTrans(d: Store, t: seq<Inode>, e: Store, u: seq<Inode>, f: Store, v: seq<Inode>)
    requires KeepsAll(d, t, e, u) && KeepsAll(e, u, f, v)
    ensures KeepsAll(d, t, f, v)
  {
    forall j | 0 <= j < |t| ensures InodeOk(t[j]) && InodeOk(v[j]) && Keeps(d, t[j], f, v[j]) {
      KeepsTrans(d, t[j], e, u[j], f, v[j]);
    }
  }

  /** The allocation of a block leaves all files as they are. */
  lemma AllocKeeps(sb: Super, d: Store, t: seq<Inode>, x: set<nat>, b: nat)
    requires Own(sb, d, t, x) && b < sb.size && !Used(sb, d, b)
    ensures KeepsAll(d, t, Alloc(sb, d, b), t)
  {
    AllocOwn(sb, d, t, x, b);
    BBlockIn(sb, d, b);
    hide Addr, Used, PutBit;
    var e := Alloc(sb, d, b);
    forall j: nat, s: nat | j < |t| && s < NSLOT && Addr(d, t[j], s) != 0
      ensures Addr(e, t[j], s) == Addr(d, t[j], s) && e[Addr(d, t[j], s)] == d[Addr(d, t[j], s)]
    {
      assert Addr(d, t[j], s) != b;
    }
  }

  lemma AttachDirectKeeps(sb: Super, d: Store, t: seq<Inode>, x: set<nat>, i: nat, s: nat, b: nat)
    requires Own(sb, d, t, x) && i < |t| && s <= NDIRECT && b in x && t[i].addrs[s] == 0
    requires s == NDIRECT ==> b < |d| && d[b] == Zero()
    ensures KeepsAll(d, t, d, SetAddr(t, i, s, b))
  {
    AttachDirect(sb, d, t, x, i, s, b);
    hide Own, Used;
    var u := SetAddr(t, i, s, b);
    forall j: nat, r: nat | j < |t| && r < NSLOT && Addr(d, t[j], r) != 0 ensures Addr(d, u[j], r) == Addr(d, t[j], r) {
    }
  }

  lemma AttachEntryKeeps(sb: Super, d: Store, t: seq<Inode>, x: set<nat>, i: nat, k: nat, b: nat)
    requires Own(sb, d, t, x) && i < |t| && k < NINDIRECT && b in x && b < UINT
    requires 0 < t[i].addrs[NDIRECT] < |d| && Word(d[t[i].addrs[NDIRECT]], k) == 0
    ensures var p := t[i].addrs[NDIRECT]; KeepsAll(d, t, d[p := PutWord(d[p], k, b)], t)
  {
    AttachEntry(sb, d, t, x, i, k, b);
    var p := t[i].addrs[NDIRECT];
    var e := d[p := PutWord(d[p], k, b)];
    assert Addr(d, t[i], NDIRECT) == p && Addr(d, t[i], NDIRECT + 1 + k) == 0;
    hide Addr, Used, Word, PutWord;
    forall j: nat, r: nat | j < |t| && r < NSLOT && Addr(d, t[j], r) != 0
      ensures Addr(e, t[j], r) == Addr(d, t[j], r) && (r != NDIRECT && Addr(d, t[j], r) < |d| ==> e[Addr(d, t[j], r)] == d[Addr(d, t[j], r)])
    {
    }
  }
}
