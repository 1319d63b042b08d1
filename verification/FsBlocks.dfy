/** Bytes of a disk block, and the words and bits that fs.c keeps in them. */
module FsBlocks {
  import opened Params
  const BSIZE: nat := 512
  const NWORD: nat := 128
  const BPB: nat := 4096
  type Byte = x: int | 0 <= x < 256
  type Block = b: seq<Byte> | |b| == BSIZE witness seq(BSIZE, _ => 0)

  function Zero(): (z: Block)
    ensures forall i :: 0 <= i < BSIZE ==> z[i] == 0
  {
    seq(BSIZE, _ => 0)
  }

  // ------------------------------------------------------------ words, low byte first

  function Word(b: Block, i: nat): (w: nat)
    requires i < NWORD
    ensures w < UINT
  {
    b[4 * i] as int + 0x100 * (b[4 * i + 1] as int) + 0x1_0000 * (b[4 * i + 2] as int) + 0x100_0000 * (b[4 * i + 3] as int)
  }

  function PutWord(b: Block, i: nat, w: nat): (r: Block)
    requires i < NWORD && w < UINT
  {
    b[..4 * i] + [w % 0x100, w / 0x100 % 0x100, w / 0x1_0000 % 0x100, w / 0x100_0000] + b[4 * i + 4..]
  }

  lemma WordPut(b: Block, i: nat, w: nat, j: nat)
    requires i < NWORD && w < UINT && j < NWORD
    ensures Word(PutWord(b, i, w), j) == if i == j then w else Word(b, j)
  {
    var r := PutWord(b, i, w);
    if j == i {
      assert r[4 * i] == w % 0x100 && r[4 * i + 1] == w / 0x100 % 0x100;
      assert r[4 * i + 2] == w / 0x1_0000 % 0x100 && r[4 * i + 3] == w / 0x100_0000;
    } else {
      assert r[4 * j] == b[4 * j] && r[4 * j + 1] == b[4 * j + 1];
      assert r[4 * j + 2] == b[4 * j + 2] && r[4 * j + 3] == b[4 * j + 3];
    }
  }

  lemma ZeroWord(i: nat)
    requires i < NWORD
    ensures Word(Zero(), i) == 0
  {
  }

  function WordsAt(b: Block, at: nat, n: nat): (r: seq<nat>)
    requires at + n <= NWORD
    ensures |r| == n && forall k :: 0 <= k < n ==> r[k] == Word(b, at + k)
  {
    if n == 0 then [] else WordsAt(b, at, n - 1) + [Word(b, at + n - 1)]
  }

  /** Consecutive words from `at` on. */
  function PutWords(b: Block, at: nat, ws: seq<nat>): Block
    requires at + |ws| <= NWORD && forall i :: 0 <= i < |ws| ==> ws[i] < UINT
  {
    if ws == [] then b else PutWord(PutWords(b, at, ws[..|ws| - 1]), at + |ws| - 1, ws[|ws| - 1])
  }

  lemma {:induction false} WordsPut(b: Block, at: nat, ws: seq<nat>, j: nat)
    requires at + |ws| <= NWORD && j < NWORD && forall i :: 0 <= i < |ws| ==> ws[i] < UINT
    ensures Word(PutWords(b, at, ws), j) == if at <= j < at + |ws| then ws[j - at] else Word(b, j)
    decreases |ws|
  {
    if ws != [] {
      var n := |ws| - 1;
      WordsPut(b, at, ws[..n], j);
      WordPut(PutWords(b, at, ws[..n]), at + n, ws[n], j);
    }
  }

  // ------------------------------------------------------------ bits, lowest first

  predicate Bit(v: nat, k: nat) {
    if k == 0 then v % 2 == 1 else Bit(v / 2, k - 1)
  }

  /** `v | 1 << k` or `v & ~(1 << k)`. */
  function WithBit(v: nat, k: nat, on: bool): nat {
    if k == 0 then v - v % 2 + (if on then 1 else 0) else 2 * WithBit(v / 2, k - 1, on) + v % 2
  }

  lemma {:induction false} BitWith(v: nat, k: nat, on: bool, j: nat)
    ensures Bit(WithBit(v, k, on), j) == if j == k then on else Bit(v, j)
  {
    if k > 0 {
      if j > 0 {
        BitWith(v / 2, k - 1, on, j - 1);
        assert (2 * WithBit(v / 2, k - 1, on) + v % 2) / 2 == WithBit(v / 2, k - 1, on);
      }
    } else if j > 0 {
      assert (v - v % 2 + if on then 1 else 0) / 2 == v / 2;
    }
  }

  lemma {:induction false} WithBitSmall(v: nat, k: nat, on: bool, bound: nat)
    requires v < 2 * bound && k < 8 && Power(k) <= bound && Even(k, bound)
    ensures WithBit(v, k, on) < 2 * bound
    decreases k
  {
    if k > 0 {
      WithBitSmall(v / 2, k - 1, on, bound / 2);
    }
  }

  function Power(k: nat): nat {
    if k == 0 then 1 else 2 * Power(k - 1)
  }

  predicate Even(k: nat, bound: nat) {
    k == 0 || (bound % 2 == 0 && Even(k - 1, bound / 2))
  }

  function BitAt(b: Block, i: nat): bool
    requires i < BPB
  {
    Bit(b[i / 8], i % 8)
  }

  function PutBit(b: Block, i: nat, on: bool): (r: Block)
    requires i < BPB
  {
    ByteKept(b[i / 8], i % 8, on);
    b[i / 8 := WithBit(b[i / 8], i % 8, on)]
  }

  lemma ByteKept(v: Byte, k: nat, on: bool)
    requires k < 8
    ensures WithBit(v, k, on) < 256
  {
    assert Power(0) == 1 && Power(1) == 2 && Power(2) == 4 && Power(3) == 8 && Power(4) == 16 && Power(5) == 32 && Power(6) == 64 && Power(7) == 128;
    assert Even(7, 128) && Even(6, 128) && Even(5, 128) && Even(4, 128) && Even(3, 128) && Even(2, 128) && Even(1, 128);
    WithBitSmall(v, k, on, 128);
  }

  lemma BitPut(b: Block, i: nat, on: bool, j: nat)
    requires i < BPB && j < BPB
    ensures BitAt(PutBit(b, i, on), j) == if i == j then on else BitAt(b, j)
  {
    BitWith(b[i / 8], i % 8, on, j % 8);
    if i / 8 == j / 8 && i % 8 == j % 8 {
      assert i == j;
    }
  }
}
