/** The on-disk format of fs.h: a block is 512 bytes; the free map is one bit per block, and an indirect
    block is 128 little-endian 32-bit block numbers. */
module DiskFormat {
  import opened Common

  const BSIZE: nat := 512
  const BPB: nat := 4096               // BSIZE*8, bitmap bits per block
  const NDIRECT: nat := 12
  const NINDIRECT: nat := 128          // BSIZE / sizeof(uint)
  const MAXFILE: nat := 140            // NDIRECT + NINDIRECT
  const IPB: nat := 8                  // BSIZE / sizeof(struct dinode), inodes per block

  type Block = seq<byte>

  // ---- Bits of a number, bit 0 the lowest ----

  /** x & (1 << k) */
  predicate Bit(x: nat, k: nat) {
    if k == 0 then x % 2 == 1 else Bit(x / 2, k - 1)
  }

  /** x | (1 << k) */
  function SetBit(x: nat, k: nat): nat {
    if k == 0 then x / 2 * 2 + 1 else SetBit(x / 2, k - 1) * 2 + x % 2
  }

  /** x & ~(1 << k) */
  function ClearBit(x: nat, k: nat): nat {
    if k == 0 then x / 2 * 2 else ClearBit(x / 2, k - 1) * 2 + x % 2
  }

  lemma Double(y: nat, r: nat)
    requires r < 2
    ensures (y * 2 + r) / 2 == y && (y * 2 + r) % 2 == r
  {
  }

  /** Setting or clearing bit k changes bit k and no other bit. */
  lemma {:induction false} BitChanges(x: nat, k: nat, j: nat)
    ensures Bit(SetBit(x, k), j) == (j == k || Bit(x, j))
    ensures Bit(ClearBit(x, k), j) == (j != k && Bit(x, j))
  {
    if k > 0 {
      Double(SetBit(x / 2, k - 1), x % 2);
      Double(ClearBit(x / 2, k - 1), x % 2);
      if j > 0 { BitChanges(x / 2, k - 1, j - 1); }
    } else {
      Double(x / 2, 1);
      Double(x / 2, 0);
    }
  }

  function Limit(n: nat): nat {
    if n == 0 then 1 else 2 * Limit(n - 1)
  }

  /** Bits below n stay below 2^n. */
  lemma {:induction false} BitFits(x: nat, k: nat, n: nat)
    requires k < n && x < Limit(n)
    ensures SetBit(x, k) < Limit(n) && ClearBit(x, k) < Limit(n)
  {
    if k > 0 {
      BitFits(x / 2, k - 1, n - 1);
    }
  }

  /** The byte with its bit k set or cleared. */
  function WithBit(x: byte, k: nat, on: bool): (r: byte)
    requires k < 8
    ensures forall j :: 0 <= j < 8 ==> Bit(r, j) == (if j == k then on else Bit(x, j))
  {
    assert Limit(8) == 256;
    BitFits(x, k, 8);
    assert forall j :: 0 <= j < 8 ==>
        Bit(SetBit(x, k), j) == (j == k || Bit(x, j)) && Bit(ClearBit(x, k), j) == (j != k && Bit(x, j)) by {
      forall j | 0 <= j < 8 { BitChanges(x, k, j); }
    }
    if on then SetBit(x, k) else ClearBit(x, k)
  }

  // ---- Words of a block ----

  function Word(b: Block, j: nat): (w: nat)
    requires |b| == BSIZE && j < NINDIRECT
    ensures w < UINT
  {
    var b0: int, b1: int, b2: int, b3: int := b[4 * j], b[4 * j + 1], b[4 * j + 2], b[4 * j + 3];
    b0 + 0x100 * b1 + 0x1_0000 * b2 + 0x100_0000 * b3
  }

  function PutWord(b: Block, j: nat, w: nat): (r: Block)
    requires |b| == BSIZE && j < NINDIRECT && w < UINT
    ensures |r| == BSIZE
  {
    b[4 * j := w % 0x100][4 * j + 1 := w / 0x100 % 0x100]
     [4 * j + 2 := w / 0x1_0000 % 0x100][4 * j + 3 := w / 0x100_0000]
  }

  lemma Digits(w: nat)
    ensures w == w % 0x100 + 0x100 * (w / 0x100 % 0x100) + 0x1_0000 * (w / 0x1_0000 % 0x100) + 0x100_0000 * (w / 0x100_0000)
  {
    assert w / 0x1_0000 == w / 0x100 / 0x100 && w / 0x100_0000 == w / 0x1_0000 / 0x100;
  }

  lemma WordChanges(b: Block, j: nat, w: nat, k: nat)
    requires |b| == BSIZE && j < NINDIRECT && w < UINT && k < NINDIRECT
    ensures Word(PutWord(b, j, w), k) == if k == j then w else Word(b, k)
  {
    if k == j {
      Digits(w);
    } else {
      var r := PutWord(b, j, w);
      assert r[4 * k] == b[4 * k] && r[4 * k + 1] == b[4 * k + 1];
      assert r[4 * k + 2] == b[4 * k + 2] && r[4 * k + 3] == b[4 * k + 3];
    }
  }

  function Zeroes(): (r: Block)
    ensures |r| == BSIZE && forall i :: 0 <= i < BSIZE ==> r[i] == 0
  {
    seq(BSIZE, i => 0)
  }

  lemma ZeroWords(k: nat)
    requires k < NINDIRECT
    ensures Word(Zeroes(), k) == 0
  {
  }
}
