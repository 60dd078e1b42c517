/** How inodes lie in inode blocks (fs.h): eight 64-byte records to a block, each two words of type, device numbers
    and link count, one of size, and thirteen block numbers. */
module InodeBlocks {
  import opened Common
  import opened DiskFormat
  import opened BlockMap

  /** The 16-bit fields of struct dinode. */
  datatype Meta = Meta(kind: nat, major: nat, minor: nat, nlink: nat)

  datatype Dinode = Dinode(meta: Meta, inode: Inode)

  predicate MetaOk(m: Meta) {
    m.kind < 0x1_0000 && m.major < 0x1_0000 && m.minor < 0x1_0000 && m.nlink < 0x1_0000
  }

  predicate DinodeOk(x: Dinode) {
    && MetaOk(x.meta) && x.inode.size < UINT && |x.inode.addrs| == NDIRECT + 1
    && forall i :: 0 <= i <= NDIRECT ==> x.inode.addrs[i] < UINT
  }

  // ---- A run of words in a block ----

  predicate AllWords(ws: seq<nat>) {
    forall i :: 0 <= i < |ws| ==> ws[i] < UINT
  }

  /** The block with the words stored from word `at` on. */
  function PutWords(b: Block, at: nat, ws: seq<nat>): (r: Block)
    requires |b| == BSIZE && at + |ws| <= NINDIRECT && AllWords(ws)
    ensures |r| == BSIZE
  {
    if ws == [] then b
    else var n := |ws| - 1; PutWord(PutWords(b, at, ws[..n]), at + n, ws[n])
  }

  lemma {:induction false} PutWordsAt(b: Block, at: nat, ws: seq<nat>, k: nat)
    requires |b| == BSIZE && at + |ws| <= NINDIRECT && AllWords(ws) && k < NINDIRECT
    ensures Word(PutWords(b, at, ws), k) == if at <= k < at + |ws| then ws[k - at] else Word(b, k)
  {
    if ws != [] {
      var n := |ws| - 1;
      PutWordsAt(b, at, ws[..n], k);
      WordChanges(PutWords(b, at, ws[..n]), at + n, ws[n], k);
    }
  }

  // ---- One record ----

  /** The sixteen words of a record. */
  function WordsOf(x: Dinode): (ws: seq<nat>)
    requires DinodeOk(x)
    ensures |ws| == 16 && AllWords(ws)
  {
    [x.meta.kind + 0x1_0000 * x.meta.major, x.meta.minor + 0x1_0000 * x.meta.nlink, x.inode.size] + x.inode.addrs
  }

  function Put(b: Block, k: nat, x: Dinode): (r: Block)
    requires |b| == BSIZE && k < IPB && DinodeOk(x)
    ensures |r| == BSIZE
  {
    PutWords(b, 16 * k, WordsOf(x))
  }

  /** n words of a block from word `at` on. */
  function Run(b: Block, at: nat, n: nat): (ws: seq<nat>)
    requires |b| == BSIZE && at + n <= NINDIRECT
    ensures |ws| == n && forall i :: 0 <= i < n ==> ws[i] == Word(b, at + i)
  {
    if n == 0 then [] else Run(b, at, n - 1) + [Word(b, at + n - 1)]
  }

  function OfWords(ws: seq<nat>): Dinode
    requires |ws| == 16
  {
    Dinode(Meta(ws[0] % 0x1_0000, ws[0] / 0x1_0000, ws[1] % 0x1_0000, ws[1] / 0x1_0000), Inode(ws[2], ws[3..]))
  }

  function Get(b: Block, k: nat): Dinode
    requires |b| == BSIZE && k < IPB
  {
    OfWords(Run(b, 16 * k, 16))
  }

  lemma Halves(low: nat, high: nat)
    requires low < 0x1_0000
    ensures (low + 0x1_0000 * high) % 0x1_0000 == low && (low + 0x1_0000 * high) / 0x1_0000 == high
  {
  }

  lemma WordsBack(x: Dinode)
    requires DinodeOk(x)
    ensures OfWords(WordsOf(x)) == x
  {
    Halves(x.meta.kind, x.meta.major);
    Halves(x.meta.minor, x.meta.nlink);
    assert WordsOf(x)[3..] == x.inode.addrs;
  }

  /** A record stored in a block reads back, and the other seven are as they were. */
  lemma PutGet(b: Block, k: nat, x: Dinode, j: nat)
    requires |b| == BSIZE && k < IPB && j < IPB && DinodeOk(x)
    ensures Get(Put(b, k, x), j) == if j == k then x else Get(b, j)
  {
    hide Word, PutWords, WordsOf, OfWords;
    var r, ws := Put(b, k, x), WordsOf(x);
    forall i | 0 <= i < 16
      ensures Run(r, 16 * j, 16)[i] == if j == k then ws[i] else Run(b, 16 * j, 16)[i]
    {
      PutWordsAt(b, 16 * k, ws, 16 * j + i);
    }
    if j == k {
      assert Run(r, 16 * j, 16) == ws;
      WordsBack(x);
    } else {
      assert Run(r, 16 * j, 16) == Run(b, 16 * j, 16);
    }
  }

  // ---- All inode blocks ----

  ghost predicate TableOk(table: seq<Block>, n: nat) {
    |table| == n / IPB + 1 && forall i :: 0 <= i < |table| ==> |table[i]| == BSIZE
  }

  /** The record of inode ino: record ino % IPB of block ino / IPB. */
  function At(table: seq<Block>, ino: nat): Dinode
    requires ino / IPB < |table| && |table[ino / IPB]| == BSIZE
  {
    Get(table[ino / IPB], ino % IPB)
  }

  function Store(table: seq<Block>, ino: nat, x: Dinode): (r: seq<Block>)
    requires ino / IPB < |table| && |table[ino / IPB]| == BSIZE && DinodeOk(x)
    ensures |r| == |table|
  {
    table[ino / IPB := Put(table[ino / IPB], ino % IPB, x)]
  }

  /** Storing one inode changes no other, in its own block or elsewhere. */
  lemma StoreAt(table: seq<Block>, n: nat, ino: nat, x: Dinode, m: nat)
    requires TableOk(table, n) && ino < n && m < n && DinodeOk(x)
    ensures TableOk(Store(table, ino, x), n) && ino / IPB < |table| && m / IPB < |table|
    ensures At(Store(table, ino, x), m) == if m == ino then x else At(table, m)
  {
    hide Get, Put;
    assert ino / IPB <= n / IPB && m / IPB <= n / IPB;
    if m / IPB == ino / IPB {
      PutGet(table[ino / IPB], ino % IPB, x, m % IPB);
      assert m == m / IPB * IPB + m % IPB && ino == ino / IPB * IPB + ino % IPB;
    }
  }

  /** Every inode's record is the one in memory. */
  ghost predicate Saved(table: seq<Block>, meta: seq<Meta>, inodes: seq<Inode>) {
    && |meta| == |inodes| && TableOk(table, |inodes|)
    && forall n: nat :: n < |inodes| ==> n / IPB < |table| && At(table, n) == Dinode(meta[n], inodes[n])
  }

  /** With one inode changed in memory, storing it, and nothing less, brings the records up to date. */
  lemma StoreSaves(table: seq<Block>, meta: seq<Meta>, inodes: seq<Inode>, ino: nat, m: Meta, ip: Inode)
    requires Saved(table, meta, inodes) && ino < |inodes| && DinodeOk(Dinode(m, ip))
    ensures Saved(Store(table, ino, Dinode(m, ip)), meta[ino := m], inodes[ino := ip])
    ensures Saved(table, meta[ino := m], inodes[ino := ip]) <==> Dinode(m, ip) == Dinode(meta[ino], inodes[ino])
  {
    hide Get, Put;
    var t', meta', inodes' := Store(table, ino, Dinode(m, ip)), meta[ino := m], inodes[ino := ip];
    forall n: nat | n < |inodes|
      ensures n / IPB < |t'| && At(t', n) == Dinode(meta'[n], inodes'[n])
    {
      StoreAt(table, |inodes|, ino, Dinode(m, ip), n);
    }
    StoreAt(table, |inodes|, ino, Dinode(m, ip), ino);
    assert At(table, ino) == Dinode(meta[ino], inodes[ino]);
    if Dinode(m, ip) == Dinode(meta[ino], inodes[ino]) {
      assert meta' == meta && inodes' == inodes;
    } else {
      assert !(At(table, ino) == Dinode(meta'[ino], inodes'[ino]));
    }
  }
}
