/** readi and writei (fs.c) and the chunking of filewrite (file.c): a file is a flat sequence of bytes, and one
    chunk of a write stays within the log's allowance. */
module FileContents {
  import opened Common
  import opened DiskFormat
  import opened BlockMap
  import opened FileSystem
  import opened InodeBlocks

  const MAXBYTES: nat := 71680         // MAXFILE*BSIZE

  /** Byte k of the file lies in a block the file has. */
  ghost predicate Mapped(sb: Super, d: Disk, ino: nat, k: nat)
    requires Shape(sb, d) && ino < sb.ninodes
  {
    k < MAXBYTES && 0 < Ref(sb, d, DataSlot(ino, k / BSIZE)) < sb.size
  }

  /** Byte k of the file; a hole reads as zeroes. */
  ghost function ByteAt(sb: Super, d: Disk, ino: nat, k: nat): byte
    requires Shape(sb, d) && ino < sb.ninodes
  {
    if Mapped(sb, d, ino, k) then d.blocks[Ref(sb, d, DataSlot(ino, k / BSIZE))][k % BSIZE] else 0
  }

  ghost predicate FileOk(d: Disk, ino: nat)
    requires ino < |d.inodes|
  {
    d.inodes[ino].size <= MAXBYTES
  }

  /** Every byte below the size has its block. */
  ghost predicate NoHoles(sb: Super, d: Disk, ino: nat)
    requires Shape(sb, d) && ino < sb.ninodes
  {
    FileOk(d, ino) && forall k: nat :: k < d.inodes[ino].size ==> Mapped(sb, d, ino, k)
  }

  /** The file as a flat sequence of bytes. */
  ghost function Content(sb: Super, d: Disk, ino: nat): (c: seq<byte>)
    requires Shape(sb, d) && ino < sb.ninodes
    ensures |c| == d.inodes[ino].size
    ensures forall k :: 0 <= k < |c| ==> c[k] == ByteAt(sb, d, ino, k)
  {
    seq(d.inodes[ino].size, k requires 0 <= k < d.inodes[ino].size => ByteAt(sb, d, ino, k))
  }

  /** c with src written over it at off. */
  function Splice<T>(c: seq<T>, off: nat, src: seq<T>): (r: seq<T>)
    requires off <= |c|
    ensures |r| == if off + |src| > |c| then off + |src| else |c|
  {
    c[..off] + src + if off + |src| < |c| then c[off + |src|..] else []
  }

  lemma SpliceAt<T>(c: seq<T>, off: nat, src: seq<T>)
    requires off <= |c|
    ensures forall k :: 0 <= k < |Splice(c, off, src)| ==>
              Splice(c, off, src)[k] == if off <= k < off + |src| then src[k - off] else c[k]
  {
  }

  function Max(a: nat, b: nat): nat {
    if a > b then a else b
  }

  function Min(a: nat, b: nat): nat {
    if a < b then a else b
  }

  // ---- One write, block by block ----

  /** Every file but `ino` has the same inode, the same slots and the same data. */
  ghost predicate OthersSame(sb: Super, d0: Disk, d: Disk, ino: nat)
    requires Shape(sb, d0) && Shape(sb, d)
  {
    && (forall s :: SlotOk(sb, s) && s.ino != ino ==> Ref(sb, d, s) == Ref(sb, d0, s))
    && (forall s :: SlotOk(sb, s) && s.ino != ino && !s.Indirect? && 0 < Ref(sb, d0, s) < sb.size ==>
          d.blocks[Ref(sb, d0, s)] == d0.blocks[Ref(sb, d0, s)])
    && (forall n :: 0 <= n < sb.ninodes && n != ino ==> d.inodes[n] == d0.inodes[n])
  }

  /** d is d0 with the bytes of src stored in file `ino` at `off`; the size is not yet updated.  No byte loses its
      block, and a block that is new reads as the hole it fills. */
  ghost predicate Written(sb: Super, d0: Disk, d: Disk, ino: nat, off: nat, src: seq<byte>)
    requires Shape(sb, d0) && Shape(sb, d) && ino < sb.ninodes
  {
    && off + |src| <= MAXBYTES
    && OthersSame(sb, d0, d, ino)
    && d.inodes[ino].size == d0.inodes[ino].size
    && (forall k: nat :: Mapped(sb, d0, ino, k) || off <= k < off + |src| ==> Mapped(sb, d, ino, k))
    && (forall k: nat :: ByteAt(sb, d, ino, k) == if off <= k < off + |src| then src[k - off] else ByteAt(sb, d0, ino, k))
  }

  lemma WrittenNothing(sb: Super, d0: Disk, ino: nat, off: nat)
    requires Shape(sb, d0) && ino < sb.ninodes && off <= MAXBYTES
    ensures Written(sb, d0, d0, ino, off, [])
  {
  }

  lemma WrittenThen(sb: Super, d0: Disk, d: Disk, d': Disk, ino: nat, off: nat, a: seq<byte>, b: seq<byte>)
    requires Shape(sb, d0) && Shape(sb, d) && Shape(sb, d') && ino < sb.ninodes
    requires Written(sb, d0, d, ino, off, a) && Written(sb, d, d', ino, off + |a|, b)
    ensures Written(sb, d0, d', ino, off, a + b)
  {
    hide Ref, ByteAt, Mapped;
  }

  /** The block with m bytes of src replaced. */
  function PutBytes(b: Block, at: nat, src: seq<byte>): (r: Block)
    requires |b| == BSIZE && at + |src| <= BSIZE
    ensures |r| == BSIZE
    ensures forall k :: 0 <= k < BSIZE ==> r[k] == if at <= k < at + |src| then src[k - at] else b[k]
  {
    Splice(b, at, src)
  }

  /** d1 with m bytes stored in the block of slot (ino, bn). */
  ghost function Stored(sb: Super, d1: Disk, ino: nat, bn: nat, at: nat, src: seq<byte>): Disk
    requires Shape(sb, d1) && ino < sb.ninodes && bn < MAXFILE && at + |src| <= BSIZE
    requires Ref(sb, d1, DataSlot(ino, bn)) < sb.size
  {
    var addr := Ref(sb, d1, DataSlot(ino, bn));
    d1.(blocks := d1.blocks[addr := PutBytes(d1.blocks[addr], at, src)])
  }

  lemma StoredKeeps(sb: Super, d1: Disk, owner: map<nat, Slot>, ino: nat, bn: nat, at: nat, src: seq<byte>)
    requires Own(sb, d1, owner, {}) && ino < sb.ninodes && bn < MAXFILE && at + |src| <= BSIZE
    requires Ref(sb, d1, DataSlot(ino, bn)) != 0
    ensures Ref(sb, d1, DataSlot(ino, bn)) < sb.size
    ensures Own(sb, Stored(sb, d1, ino, bn, at, src), owner, {})
    ensures forall s :: SlotOk(sb, s) ==> Ref(sb, Stored(sb, d1, ino, bn, at, src), s) == Ref(sb, d1, s)
    ensures forall s :: SlotOk(sb, s) && 0 < Ref(sb, d1, s) < sb.size && s != DataSlot(ino, bn) ==>
              Stored(sb, d1, ino, bn, at, src).blocks[Ref(sb, d1, s)] == d1.blocks[Ref(sb, d1, s)]
  {
    hide BitsMatch, PutBytes;
    var slot := DataSlot(ino, bn);
    assert SlotOk(sb, slot);
    OwnFacts(sb, d1, owner, {});
    DataKeeps(sb, d1, owner, Ref(sb, d1, slot), PutBytes(d1.blocks[Ref(sb, d1, slot)], at, src));
  }

  lemma SamePage(p: nat, k: nat, m: nat)
    requires p % BSIZE + m <= BSIZE
    ensures p <= k < p + m ==> k / BSIZE == p / BSIZE && k % BSIZE == p % BSIZE + (k - p)
    ensures k / BSIZE == p / BSIZE ==> k - p == k % BSIZE - p % BSIZE
    ensures p < MAXBYTES ==> p + m <= MAXBYTES
    ensures p < MAXBYTES && k / BSIZE == p / BSIZE ==> k < MAXBYTES
  {
    assert BSIZE == 512;
  }

  /** What one iteration of writei does to byte k of the file: bmap takes d to d1, then src goes into the block
      that holds byte p. */
  lemma StepByte(sb: Super, d: Disk, d1: Disk, owner: map<nat, Slot>, ino: nat, p: nat, src: seq<byte>, k: nat)
    requires Shape(sb, d) && Own(sb, d1, owner, {}) && ino < sb.ninodes && p < MAXBYTES
    requires p % BSIZE + |src| <= BSIZE && Grew(sb, d, d1, ino, p / BSIZE)
    ensures Ref(sb, d1, DataSlot(ino, p / BSIZE)) < sb.size
    ensures var d2 := Stored(sb, d1, ino, p / BSIZE, p % BSIZE, src);
            && Shape(sb, d2)
            && (Mapped(sb, d, ino, k) || k / BSIZE == p / BSIZE ==> Mapped(sb, d2, ino, k))
            && ByteAt(sb, d2, ino, k) == if p <= k < p + |src| then src[k - p] else ByteAt(sb, d, ino, k)
  {
    hide Own;
    var bn := p / BSIZE;
    assert SlotOk(sb, DataSlot(ino, bn));
    OwnFacts(sb, d1, owner, {});
    StoredKeeps(sb, d1, owner, ino, bn, p % BSIZE, src);
    OwnFacts(sb, Stored(sb, d1, ino, bn, p % BSIZE, src), owner, {});
    SamePage(p, k, |src|);
    if k < MAXBYTES { assert SlotOk(sb, DataSlot(ino, k / BSIZE)); }
  }

  /** One iteration of writei leaves the other files alone. */
  lemma OthersStep(sb: Super, d: Disk, d1: Disk, owner: map<nat, Slot>, ino: nat, p: nat, src: seq<byte>)
    requires Shape(sb, d) && Own(sb, d1, owner, {}) && ino < sb.ninodes && p < MAXBYTES
    requires p % BSIZE + |src| <= BSIZE && Grew(sb, d, d1, ino, p / BSIZE)
    ensures Ref(sb, d1, DataSlot(ino, p / BSIZE)) < sb.size
    ensures var d2 := Stored(sb, d1, ino, p / BSIZE, p % BSIZE, src);
            Own(sb, d2, owner, {}) && Shape(sb, d2) && d2.inodes == d1.inodes && OthersSame(sb, d, d2, ino)
  {
    hide Own, PutBytes;
    assert SlotOk(sb, DataSlot(ino, p / BSIZE));
    OwnFacts(sb, d1, owner, {});
    StoredKeeps(sb, d1, owner, ino, p / BSIZE, p % BSIZE, src);
    OwnFacts(sb, Stored(sb, d1, ino, p / BSIZE, p % BSIZE, src), owner, {});
  }

  lemma GrewSize(sb: Super, d: Disk, d1: Disk, ino: nat, bn: nat)
    requires Shape(sb, d) && Shape(sb, d1) && ino < sb.ninodes && bn < MAXFILE && Grew(sb, d, d1, ino, bn)
    ensures d1.inodes[ino].size == d.inodes[ino].size
  {
  }

  /** One iteration of writei stores its bytes in the file. */
  lemma WrittenPart(sb: Super, d: Disk, d1: Disk, owner: map<nat, Slot>, ino: nat, p: nat, src: seq<byte>)
    requires Shape(sb, d) && Own(sb, d1, owner, {}) && ino < sb.ninodes && p < MAXBYTES
    requires p % BSIZE + |src| <= BSIZE && Grew(sb, d, d1, ino, p / BSIZE)
    ensures Ref(sb, d1, DataSlot(ino, p / BSIZE)) < sb.size
    ensures var d2 := Stored(sb, d1, ino, p / BSIZE, p % BSIZE, src);
            && Own(sb, d2, owner, {}) && Shape(sb, d2) && d2.inodes == d1.inodes && Written(sb, d, d2, ino, p, src)
            && forall k: nat :: k / BSIZE == p / BSIZE ==> Mapped(sb, d2, ino, k)
  {
    hide Own, Stored, Mapped, ByteAt, OthersSame, Ref;
    OwnFacts(sb, d1, owner, {});
    OthersStep(sb, d, d1, owner, ino, p, src);
    GrewSize(sb, d, d1, ino, p / BSIZE);
    var d2 := Stored(sb, d1, ino, p / BSIZE, p % BSIZE, src);
    SamePage(p, p, |src|);
    forall k: nat
      ensures Mapped(sb, d, ino, k) || k / BSIZE == p / BSIZE ==> Mapped(sb, d2, ino, k)
      ensures p <= k < p + |src| ==> k / BSIZE == p / BSIZE
      ensures ByteAt(sb, d2, ino, k) == if p <= k < p + |src| then src[k - p] else ByteAt(sb, d, ino, k)
    {
      SamePage(p, k, |src|);
      StepByte(sb, d, d1, owner, ino, p, src, k);
    }
  }

  // ---- Which addresses of the inode are filled in ----

  /** Bytes off .. off + n - 1 need address i of the inode. */
  predicate Covers(off: nat, n: nat, i: nat) {
    n > 0 && if i < NDIRECT then off / BSIZE <= i <= (off + n - 1) / BSIZE else (off + n - 1) / BSIZE >= NDIRECT
  }

  /** An address that those bytes need is empty. */
  ghost predicate Missing(addrs: seq<nat>, off: nat, n: nat) {
    exists i :: 0 <= i < |addrs| && addrs[i] == 0 && Covers(off, n, i)
  }

  /** Exactly the addresses needed and empty have been filled in. */
  ghost predicate Filled(addrs: seq<nat>, addrs': seq<nat>, off: nat, n: nat) {
    && |addrs| == |addrs'| == NDIRECT + 1
    && forall i :: 0 <= i <= NDIRECT ==>
         if addrs[i] == 0 && Covers(off, n, i) then addrs'[i] != 0 else addrs'[i] == addrs[i]
  }

  lemma FilledSame(addrs: seq<nat>, addrs': seq<nat>, off: nat, n: nat)
    requires Filled(addrs, addrs', off, n)
    ensures addrs' == addrs <==> !Missing(addrs, off, n)
  {
  }

  lemma CoversBoth(off: nat, a: nat, b: nat, i: nat)
    ensures Covers(off, a + b, i) <==> Covers(off, a, i) || Covers(off + a, b, i)
  {
    if a > 0 && b > 0 {
      assert (off + a - 1) / BSIZE <= (off + a) / BSIZE <= (off + a - 1) / BSIZE + 1;
      assert (off + a) / BSIZE <= (off + a + b - 1) / BSIZE;
    }
  }

  lemma FilledThen(a0: seq<nat>, a1: seq<nat>, a2: seq<nat>, off: nat, n: nat, m: nat)
    requires Filled(a0, a1, off, n) && Filled(a1, a2, off + n, m)
    ensures Filled(a0, a2, off, n + m)
  {
    hide Covers;
    forall i | 0 <= i <= NDIRECT
      ensures if a0[i] == 0 && Covers(off, n + m, i) then a2[i] != 0 else a2[i] == a0[i]
    {
      CoversBoth(off, n, m, i);
    }
  }

  lemma FilledPart(sb: Super, d: Disk, d1: Disk, ino: nat, p: nat, m: nat)
    requires Shape(sb, d) && Shape(sb, d1) && ino < sb.ninodes && p < MAXBYTES && m > 0 && p % BSIZE + m <= BSIZE
    requires Grew(sb, d, d1, ino, p / BSIZE)
    ensures Filled(d.inodes[ino].addrs, d1.inodes[ino].addrs, p, m)
  {
    SamePage(p, p + m - 1, m);
    var slot := DataSlot(ino, p / BSIZE);
    assert SlotOk(sb, slot) && SlotOk(sb, Indirect(ino));
    forall i | 0 <= i < NDIRECT
      ensures d.inodes[ino].addrs[i] == Ref(sb, d, Direct(ino, i)) && d1.inodes[ino].addrs[i] == Ref(sb, d1, Direct(ino, i))
    {
      assert SlotOk(sb, Direct(ino, i));
    }
  }

  /** Bytes that all have their blocks need no address that is empty. */
  lemma NoneMissing(sb: Super, d: Disk, ino: nat, off: nat, n: nat)
    requires Shape(sb, d) && ino < sb.ninodes && forall k: nat :: off <= k < off + n ==> Mapped(sb, d, ino, k)
    ensures !Missing(d.inodes[ino].addrs, off, n)
  {
    var addrs, last := d.inodes[ino].addrs, off + n - 1;
    forall i | 0 <= i < |addrs| && Covers(off, n, i)
      ensures addrs[i] != 0
    {
      var k := if i == NDIRECT then last else Max(off, i * BSIZE);
      assert k <= last && (i < NDIRECT ==> k / BSIZE == i) by { assert last / 512 * 512 <= last; }
      assert Mapped(sb, d, ino, k);
    }
  }

  // ---- readi ----

  /** The same bytes in every file, with no byte left without the block it had. */
  ghost predicate Kept(sb: Super, d0: Disk, d: Disk, ino: nat)
    requires Shape(sb, d0) && Shape(sb, d) && ino < sb.ninodes
  {
    Written(sb, d0, d, ino, 0, [])
  }

  lemma StoredNothing(sb: Super, d1: Disk, ino: nat, bn: nat, at: nat)
    requires Shape(sb, d1) && ino < sb.ninodes && bn < MAXFILE && at <= BSIZE
    requires Ref(sb, d1, DataSlot(ino, bn)) < sb.size
    ensures Stored(sb, d1, ino, bn, at, []) == d1
  {
    var addr := Ref(sb, d1, DataSlot(ino, bn));
    assert PutBytes(d1.blocks[addr], at, []) == d1.blocks[addr];
  }

  lemma ReadKeeps(sb: Super, d: Disk, d1: Disk, owner: map<nat, Slot>, ino: nat, p: nat)
    requires Shape(sb, d) && Own(sb, d1, owner, {}) && ino < sb.ninodes && p < MAXBYTES && Grew(sb, d, d1, ino, p / BSIZE)
    ensures Shape(sb, d1) && Kept(sb, d, d1, ino)
    ensures forall k: nat :: k / BSIZE == p / BSIZE ==> Mapped(sb, d1, ino, k)
  {
    hide Own, Grew, Ref, ByteAt, Mapped, OthersSame;
    OwnFacts(sb, d1, owner, {});
    WrittenPart(sb, d, d1, owner, ino, p, []);
    assert Stored(sb, d1, ino, p / BSIZE, p % BSIZE, []) == d1 by { StoredNothing(sb, d1, ino, p / BSIZE, p % BSIZE); }
  }

  lemma MappedStays(sb: Super, d: Disk, d': Disk, ino: nat, bn: nat)
    requires Shape(sb, d) && Shape(sb, d') && ino < sb.ninodes && bn < MAXFILE
    requires Grew(sb, d, d', ino, bn) && Ref(sb, d, DataSlot(ino, bn)) != 0
    ensures d' == d
  {
  }

  /** One pass of readi's loop: m bytes from the block that holds byte p. */
  method ReadPart(fs: FileSys, ino: nat, p: nat, m: nat) returns (ok: bool, part: seq<byte>)
    requires fs.Valid() && ino < fs.sb.ninodes && p < MAXBYTES && 0 < m && p % BSIZE + m <= BSIZE
    modifies fs`blocks, fs`inodes, fs`owner, fs`logged
    ensures !ok ==> forall c :: DataStart(fs.sb) <= c < fs.sb.size ==> c in fs.owner
    ensures ok ==> fs.Valid() && Shape(fs.sb, fs.Now()) && Kept(fs.sb, old(fs.Now()), fs.Now(), ino)
    ensures ok ==> forall k: nat :: k / BSIZE == p / BSIZE ==> Mapped(fs.sb, fs.Now(), ino, k)
    ensures Mapped(fs.sb, old(fs.Now()), ino, p) ==> ok && fs.Now() == old(fs.Now()) && fs.logged == old(fs.logged)
    ensures ok ==> Filled(old(fs.inodes)[ino].addrs, fs.inodes[ino].addrs, p, m)
    ensures ok ==> |part| == m && forall i :: 0 <= i < m ==> part[i] == ByteAt(fs.sb, fs.Now(), ino, p + i)
  {
    hide Own, Grew, Kept, FileSys.Records, Filled;
    ghost var d := fs.Now();
    OwnFacts(fs.sb, d, fs.owner, {});
    part := [];
    var addr;
    ok, addr := fs.Bmap(ino, p / BSIZE);
    if !ok { return; }
    OwnFacts(fs.sb, fs.Now(), fs.owner, {});
    if Mapped(fs.sb, d, ino, p) { MappedStays(fs.sb, d, fs.Now(), ino, p / BSIZE); }
    ReadKeeps(fs.sb, d, fs.Now(), fs.owner, ino, p);
    FilledPart(fs.sb, d, fs.Now(), ino, p, m);
    part := fs.blocks[addr][p % BSIZE..p % BSIZE + m];
    forall i | 0 <= i < m
      ensures part[i] == ByteAt(fs.sb, fs.Now(), ino, p + i)
    {
      SamePage(p, p + i, m);
      assert Mapped(fs.sb, fs.Now(), ino, p + i);
    }
  }

  /** How far readi has come: `dst` is the part of the file from off on, its bytes have their blocks, and anything that
      changed was a hole before. */
  ghost predicate ReadSoFar(sb: Super, d0: Disk, d: Disk, ino: nat, off: nat, dst: seq<byte>)
    requires Shape(sb, d0) && Shape(sb, d) && ino < sb.ninodes
  {
    && Kept(sb, d0, d, ino)
    && (forall i :: 0 <= i < |dst| ==> dst[i] == ByteAt(sb, d0, ino, off + i))
    && (forall k: nat :: off <= k < off + |dst| ==> Mapped(sb, d, ino, k))
    && (d == d0 <==> forall k: nat :: off <= k < off + |dst| ==> Mapped(sb, d0, ino, k))
    && Filled(d0.inodes[ino].addrs, d.inodes[ino].addrs, off, |dst|)
  }

  lemma ReadStart(sb: Super, d0: Disk, ino: nat, off: nat)
    requires Shape(sb, d0) && ino < sb.ninodes
    ensures ReadSoFar(sb, d0, d0, ino, off, [])
  {
    hide Ref, ByteAt, Mapped, OthersSame;
    assert OthersSame(sb, d0, d0, ino) by { WrittenNothing(sb, d0, ino, 0); }
  }

  lemma PageMapped(sb: Super, d: Disk, ino: nat, p: nat, k: nat)
    requires Shape(sb, d) && ino < sb.ninodes && k / BSIZE == p / BSIZE
    ensures Mapped(sb, d, ino, k) <==> Mapped(sb, d, ino, p)
  {
  }

  lemma ReadStep(sb: Super, d0: Disk, d: Disk, d': Disk, ino: nat, off: nat, dst: seq<byte>, part: seq<byte>)
    requires Shape(sb, d0) && Shape(sb, d) && Shape(sb, d') && ino < sb.ninodes
    requires ReadSoFar(sb, d0, d, ino, off, dst) && Kept(sb, d, d', ino) && 0 < |part|
    requires (off + |dst|) % BSIZE + |part| <= BSIZE
    requires forall k: nat :: k / BSIZE == (off + |dst|) / BSIZE ==> Mapped(sb, d', ino, k)
    requires Mapped(sb, d, ino, off + |dst|) ==> d' == d
    requires Filled(d.inodes[ino].addrs, d'.inodes[ino].addrs, off + |dst|, |part|)
    requires forall i :: 0 <= i < |part| ==> part[i] == ByteAt(sb, d', ino, off + |dst| + i)
    ensures ReadSoFar(sb, d0, d', ino, off, dst + part)
  {
    hide Ref, ByteAt, Mapped, OthersSame, Filled, Covers;
    var p := off + |dst|;
    assert Kept(sb, d0, d', ino) by {
      var none: seq<byte> := [];
      WrittenThen(sb, d0, d, d', ino, 0, none, none);
      assert none + none == none;
    }
    FilledThen(d0.inodes[ino].addrs, d.inodes[ino].addrs, d'.inodes[ino].addrs, off, |dst|, |part|);
    forall k: nat | p <= k < p + |part|
      ensures Mapped(sb, d', ino, k) && (Mapped(sb, d0, ino, k) <==> Mapped(sb, d0, ino, p))
    {
      SamePage(p, k, |part|);
      PageMapped(sb, d0, ino, p, k);
    }
    if forall k: nat :: off <= k < p + |part| ==> Mapped(sb, d0, ino, k) {
      assert Mapped(sb, d0, ino, p) && d == d0;
    }
  }

  /** readi's loop. */
  method ReadLoop(fs: FileSys, ino: nat, off: nat, len: nat) returns (ok: bool, dst: seq<byte>)
    requires fs.Valid() && ino < fs.sb.ninodes && off + len <= MAXBYTES
    modifies fs`blocks, fs`inodes, fs`owner, fs`logged
    ensures !ok ==> forall c :: DataStart(fs.sb) <= c < fs.sb.size ==> c in fs.owner
    ensures (forall k: nat :: off <= k < off + len ==> Mapped(fs.sb, old(fs.Now()), ino, k)) ==> ok && fs.logged == old(fs.logged)
    ensures ok ==> fs.Valid() && Shape(fs.sb, fs.Now()) && |dst| == len && ReadSoFar(fs.sb, old(fs.Now()), fs.Now(), ino, off, dst)
  {
    hide Own, Ref, ByteAt, Mapped, ReadSoFar, Kept, Filled, FileSys.Records;
    ghost var d0 := fs.Now();
    OwnFacts(fs.sb, d0, fs.owner, {});
    ok, dst := true, [];
    ReadStart(fs.sb, d0, ino, off);
    while |dst| < len
      invariant |dst| <= len && fs.Valid() && Shape(fs.sb, fs.Now())
      invariant ReadSoFar(fs.sb, d0, fs.Now(), ino, off, dst)
      invariant (forall k: nat :: off <= k < off + len ==> Mapped(fs.sb, d0, ino, k)) ==> fs.Now() == d0 && fs.logged == old(fs.logged)
    {
      var p := off + |dst|;
      var m := Min(len - |dst|, BSIZE - p % BSIZE);
      ghost var d := fs.Now();
      var part;
      ok, part := ReadPart(fs, ino, p, m);
      if !ok { return; }
      ReadStep(fs.sb, d0, d, fs.Now(), ino, off, dst, part);
      dst := dst + part;
    }
  }

  lemma Wraps(off: nat, n: nat)
    requires off < UINT && n < UINT
    ensures (off + n) % UINT < off <==> off + n >= UINT
    ensures off + n < UINT ==> (off + n) % UINT == off + n
  {
  }

  /** File n is the same in both. */
  ghost predicate SameFile(sb: Super, d0: Disk, d: Disk, n: nat)
    requires Shape(sb, d0) && Shape(sb, d) && n < sb.ninodes
  {
    && d.inodes[n] == d0.inodes[n] && Content(sb, d, n) == Content(sb, d0, n)
    && (NoHoles(sb, d, n) <==> NoHoles(sb, d0, n))
  }

  lemma OtherContent(sb: Super, d0: Disk, d: Disk, ino: nat, n: nat)
    requires Shape(sb, d0) && Shape(sb, d) && n < sb.ninodes && n != ino && OthersSame(sb, d0, d, ino)
    ensures SameFile(sb, d0, d, n)
  {
    forall k: nat
      ensures Mapped(sb, d, n, k) == Mapped(sb, d0, n, k) && ByteAt(sb, d, n, k) == ByteAt(sb, d0, n, k)
    {
      if k < MAXBYTES { assert SlotOk(sb, DataSlot(n, k / BSIZE)); }
    }
  }

  lemma ReadContent(sb: Super, d0: Disk, d: Disk, ino: nat, off: nat, dst: seq<byte>)
    requires Shape(sb, d0) && Shape(sb, d) && ino < sb.ninodes
    requires ReadSoFar(sb, d0, d, ino, off, dst) && off + |dst| <= d0.inodes[ino].size
    ensures dst == Content(sb, d0, ino)[off..off + |dst|]
    ensures forall n :: 0 <= n < sb.ninodes ==> Content(sb, d, n) == Content(sb, d0, n)
    ensures d == d0 <==> forall k: nat :: off <= k < off + |dst| ==> Mapped(sb, d0, ino, k)
    ensures d.inodes == d0.inodes[ino := d0.inodes[ino].(addrs := d.inodes[ino].addrs)]
    ensures d.inodes[ino].addrs == d0.inodes[ino].addrs <==> !Missing(d0.inodes[ino].addrs, off, |dst|)
  {
    hide Ref, ByteAt, Mapped, Filled, Missing;
    FilledSame(d0.inodes[ino].addrs, d.inodes[ino].addrs, off, |dst|);
    forall n | 0 <= n < sb.ninodes
      ensures Content(sb, d, n) == Content(sb, d0, n)
    {
      if n != ino { OtherContent(sb, d0, d, ino, n); }
    }
  }

  lemma NothingMissing(addrs: seq<nat>, off: nat)
    ensures !Missing(addrs, off, 0)
  {
  }

  /** With iupdate not called, the inode blocks are up to date exactly when the addresses are as before. */
  lemma FallsBehind(fs: FileSys, d0: Disk, ino: nat)
    requires fs.Valid() && Shape(fs.sb, d0) && ino < fs.sb.ninodes && Saved(fs.table, fs.meta, d0.inodes)
    requires fs.inodes == d0.inodes[ino := d0.inodes[ino].(addrs := fs.inodes[ino].addrs)] && d0.inodes[ino].size < UINT
    ensures fs.Synced() <==> fs.inodes[ino].addrs == d0.inodes[ino].addrs
  {
    hide Own, Saved;
    OwnFacts(fs.sb, fs.Now(), fs.owner, {});
    assert InodeShape(fs.sb, fs.inodes[ino]);
    assert fs.meta[ino := fs.meta[ino]] == fs.meta;
    assert d0.inodes[ino].(addrs := d0.inodes[ino].addrs) == d0.inodes[ino];
    StoreSaves(fs.table, fs.meta, d0.inodes, ino, fs.meta[ino], fs.inodes[ino]);
  }

  /** readi returns exactly the part of the file between off and off + n, cut at the end of the file, and the contents
      of every file stay.  Its calls of bmap change something exactly when the range has a hole, and since readi does
      not call iupdate, the inode on disk falls behind exactly when an address was filled in. */
  method Readi(fs: FileSys, ino: nat, off: nat, n: nat) returns (ok: bool, r: int, dst: seq<byte>)
    requires fs.Valid() && ino < fs.sb.ninodes && FileOk(fs.Now(), ino) && off < UINT && n < UINT
    modifies fs
    ensures !ok ==> forall c :: DataStart(fs.sb) <= c < fs.sb.size ==> c in fs.owner
    ensures r == -1 <==> off > old(fs.inodes)[ino].size || off + n >= UINT
    ensures r == -1 ==> ok && dst == []
    ensures ok && r != -1 ==>
              r == |dst| && dst == Content(fs.sb, old(fs.Now()), ino)[off..Min(off + n, old(fs.inodes)[ino].size)]
    ensures ok ==> fs.Valid() && fs.table == old(fs.table) && fs.meta == old(fs.meta)
    ensures ok ==> forall m :: 0 <= m < fs.sb.ninodes ==> Content(fs.sb, fs.Now(), m) == Content(fs.sb, old(fs.Now()), m)
    ensures ok ==> (fs.Now() == old(fs.Now()) <==> forall k: nat :: off <= k < off + |dst| ==> Mapped(fs.sb, old(fs.Now()), ino, k))
    ensures ok && fs.Now() == old(fs.Now()) ==> fs.logged == old(fs.logged)
    ensures NoHoles(fs.sb, old(fs.Now()), ino) ==> ok && fs.Now() == old(fs.Now())
    ensures ok && old(fs.Synced()) ==> (fs.Synced() <==> !Missing(old(fs.inodes)[ino].addrs, off, |dst|))
  {
    hide Own, Ref, ByteAt, Mapped, ReadSoFar, Filled, Missing, Saved, At, Get, FileSys.Records;
    OwnFacts(fs.sb, fs.Now(), fs.owner, {});
    ghost var d0 := fs.Now();
    Wraps(off, n);
    var size := fs.inodes[ino].size;
    dst := [];
    if off > size || (off + n) % UINT < off {
      NothingMissing(fs.inodes[ino].addrs, off);
      return true, -1, [];
    }
    var len := if (off + n) % UINT > size then size - off else n;
    r := len;
    ok, dst := ReadLoop(fs, ino, off, len);
    if !ok { return; }
    ReadContent(fs.sb, d0, fs.Now(), ino, off, dst);
    if old(fs.Synced()) { FallsBehind(fs, d0, ino); }
  }

  // ---- writei ----

  /** The number of blocks that bytes off .. off + n - 1 lie in. */
  function BlocksTouched(off: nat, n: nat): nat {
    if n == 0 then 0 else (off + n - 1) / BSIZE - off / BSIZE + 1
  }

  /** At most this many distinct blocks are logged by a write of n bytes at off: each data block; a bitmap block for
      each of them that is new, which the first is not when the write starts inside it; and the indirect
      block, its bitmap block and the inode block. */
  function LogCost(off: nat, n: nat): int {
    2 * BlocksTouched(off, n) - (if n > 0 && off % BSIZE != 0 then 1 else 0) + 3
  }

  /** The indirect block and its bitmap block, for a byte that lies beyond the direct blocks. */
  ghost function IndirectLog(fs: FileSys, ino: nat, p: nat): set<nat>
    requires Shape(fs.sb, fs.Now()) && ino < fs.sb.ninodes
    reads fs
  {
    var ind := Ref(fs.sb, fs.Now(), Indirect(ino));
    if p / BSIZE < NDIRECT then {} else {ind, BBlock(fs.sb, ind)}
  }

  /** One pass of writei's loop: the chunk goes into the block that holds byte p. */
  method WritePart(fs: FileSys, ino: nat, p: nat, chunk: seq<byte>) returns (ok: bool, addr: nat, ghost d1: Disk)
    requires fs.Valid() && ino < fs.sb.ninodes && p < MAXBYTES && p % BSIZE + |chunk| <= BSIZE
    modifies fs`blocks, fs`inodes, fs`owner, fs`logged
    ensures !ok ==> forall c :: DataStart(fs.sb) <= c < fs.sb.size ==> c in fs.owner
    ensures Ref(fs.sb, old(fs.Now()), DataSlot(ino, p / BSIZE)) != 0 ==> ok && fs.inodes == old(fs.inodes)
    ensures ok ==> Own(fs.sb, d1, fs.owner, {}) && Grew(fs.sb, old(fs.Now()), d1, ino, p / BSIZE)
    ensures ok ==> addr == Ref(fs.sb, d1, DataSlot(ino, p / BSIZE)) && 0 < addr < fs.sb.size
    ensures ok ==> fs.Now() == Stored(fs.sb, d1, ino, p / BSIZE, p % BSIZE, chunk)
    ensures ok ==> fs.Valid() && fs.Now().inodes == d1.inodes
    ensures ok ==> Ref(fs.sb, fs.Now(), Indirect(ino)) == Ref(fs.sb, d1, Indirect(ino))
    ensures ok ==> old(fs.logged) <= fs.logged
    ensures ok && Ref(fs.sb, old(fs.Now()), DataSlot(ino, p / BSIZE)) != 0 ==> fs.logged == old(fs.logged) + {addr}
    ensures ok ==> fs.logged <= old(fs.logged) + {addr, BBlock(fs.sb, addr)} + IndirectLog(fs, ino, p)
    ensures ok ==> Covered(old(fs.blocks), fs.blocks, 0, fs.logged)
  {
    hide Own, Grew, PutBytes;
    OwnFacts(fs.sb, fs.Now(), fs.owner, {});
    ghost var d := fs.Now();
    ok, addr := fs.Bmap(ino, p / BSIZE);
    d1 := fs.Now();
    if !ok { return; }
    OwnFacts(fs.sb, d1, fs.owner, {});
    if Ref(fs.sb, d, DataSlot(ino, p / BSIZE)) != 0 { MappedStays(fs.sb, d, d1, ino, p / BSIZE); }
    StoredKeeps(fs.sb, d1, fs.owner, ino, p / BSIZE, p % BSIZE, chunk);
    fs.blocks := fs.blocks[addr := PutBytes(fs.blocks[addr], p % BSIZE, chunk)];
    fs.logged := fs.logged + {addr};
    OwnFacts(fs.sb, fs.Now(), fs.owner, {});
    assert fs.Now() == Stored(fs.sb, d1, ino, p / BSIZE, p % BSIZE, chunk);
    assert SlotOk(fs.sb, Indirect(ino));
  }

  /** How the blocks logged so far by one write divide up: data blocks, bitmap blocks of new data blocks, and the
      indirect block with its bitmap block. */
  datatype Tally = Tally(data: set<nat>, maps: set<nat>, indirect: set<nat>)

  ghost predicate Tallied(sb: Super, d: Disk, ino: nat, before: set<nat>, logged: set<nat>, t: Tally,
                          blocks: nat, created: nat)
    requires Shape(sb, d) && ino < sb.ninodes
  {
    var ind := Ref(sb, d, Indirect(ino));
    && before <= logged <= before + t.data + t.maps + t.indirect
    && |t.data| <= blocks && |t.maps| <= created
    && (t.indirect == {} || (ind != 0 && t.indirect == {ind, BBlock(sb, ind)}))
  }

  /** One more pass: `had` says whether the block was there before. */
  ghost function Count(sb: Super, d: Disk, ino: nat, t: Tally, addr: nat, p: nat, had: bool): Tally
    requires Shape(sb, d) && ino < sb.ninodes
  {
    var ind := Ref(sb, d, Indirect(ino));
    if had then t.(data := t.data + {addr})
    else Tally(t.data + {addr}, t.maps + {BBlock(sb, addr)},
               t.indirect + if p / BSIZE < NDIRECT then {} else {ind, BBlock(sb, ind)})
  }

  lemma TallyStep(sb: Super, d: Disk, d': Disk, ino: nat, before: set<nat>, logged: set<nat>, logged': set<nat>,
                  t: Tally, blocks: nat, created: nat, addr: nat, p: nat, had: bool)
    requires Shape(sb, d) && Shape(sb, d') && ino < sb.ninodes && Tallied(sb, d, ino, before, logged, t, blocks, created)
    requires Ref(sb, d, Indirect(ino)) != 0 ==> Ref(sb, d', Indirect(ino)) == Ref(sb, d, Indirect(ino))
    requires !had && p / BSIZE >= NDIRECT ==> Ref(sb, d', Indirect(ino)) != 0
    requires logged <= logged' && (had ==> logged' == logged + {addr})
    requires var ind := Ref(sb, d', Indirect(ino));
             logged' <= logged + {addr, BBlock(sb, addr)} + if p / BSIZE < NDIRECT then {} else {ind, BBlock(sb, ind)}
    ensures Tallied(sb, d', ino, before, logged', Count(sb, d', ino, t, addr, p, had),
                    blocks + 1, if had then created else created + 1)
  {
    hide Ref;
  }

  lemma TallyBound(sb: Super, d: Disk, ino: nat, before: set<nat>, logged: set<nat>, t: Tally, blocks: nat, created: nat)
    requires Shape(sb, d) && ino < sb.ninodes && Tallied(sb, d, ino, before, logged, t, blocks, created)
    ensures |logged - before| <= blocks + created + 2
  {
    SubsetSize(logged - before, t.data + t.maps + t.indirect);
    assert |t.indirect| <= 2;
    assert |t.data + t.maps| <= |t.data| + |t.maps|;
    assert |t.data + t.maps + t.indirect| <= |t.data + t.maps| + |t.indirect|;
  }

  /** A write that starts inside a block of a file without holes finds that block there. */
  lemma StartsInside(sb: Super, d0: Disk, ino: nat, off: nat)
    requires Shape(sb, d0) && ino < sb.ninodes && NoHoles(sb, d0, ino) && off <= d0.inodes[ino].size
    requires off % BSIZE != 0
    ensures Mapped(sb, d0, ino, off)
  {
    assert Mapped(sb, d0, ino, off - 1);
    assert (off - 1) / BSIZE == off / BSIZE;
  }

  /** The loop stops at block boundaries, so each pass touches one block more. */
  lemma TouchesOneMore(off: nat, tot: nat, m: nat)
    requires m > 0 && (off + tot) % BSIZE + m <= BSIZE && (tot == 0 || (off + tot) % BSIZE == 0)
    ensures BlocksTouched(off, tot + m) == BlocksTouched(off, tot) + 1
  {
    SamePage(off + tot, off + tot + m - 1, m);
    if tot > 0 {
      assert (off + tot - 1) / BSIZE == (off + tot) / BSIZE - 1;
    }
  }

  lemma TouchesNone(off: nat)
    ensures BlocksTouched(off, 0) == 0
  {
  }

  lemma GrewIndirect(sb: Super, d: Disk, d1: Disk, ino: nat, bn: nat)
    requires Shape(sb, d) && Shape(sb, d1) && ino < sb.ninodes && bn < MAXFILE && Grew(sb, d, d1, ino, bn)
    ensures Ref(sb, d, Indirect(ino)) != 0 ==> Ref(sb, d1, Indirect(ino)) == Ref(sb, d, Indirect(ino))
    ensures Ref(sb, d1, DataSlot(ino, bn)) != 0
    ensures bn >= NDIRECT ==> Ref(sb, d1, Indirect(ino)) != 0
  {
    assert SlotOk(sb, DataSlot(ino, bn));
  }

  /** The invariant of writei's loop. */
  ghost predicate Midway(sb: Super, d0: Disk, d: Disk, ino: nat, off: nat, src: seq<byte>, tot: nat,
                         before: set<nat>, logged: set<nat>, t: Tally, created: nat)
    requires Shape(sb, d0) && Shape(sb, d) && ino < sb.ninodes && tot <= |src|
  {
    && Written(sb, d0, d, ino, off, src[..tot])
    && Filled(d0.inodes[ino].addrs, d.inodes[ino].addrs, off, tot)
    && (tot == 0 || tot == |src| || (off + tot) % BSIZE == 0)
    && Tallied(sb, d, ino, before, logged, t, BlocksTouched(off, tot), created)
    && created <= BlocksTouched(off, tot)
    && (tot > 0 && off % BSIZE != 0 && Mapped(sb, d0, ino, off) ==> created < BlocksTouched(off, tot))
  }

  lemma MidwayStart(sb: Super, d0: Disk, ino: nat, off: nat, src: seq<byte>, logged: set<nat>)
    requires Shape(sb, d0) && ino < sb.ninodes && off <= MAXBYTES
    ensures Midway(sb, d0, d0, ino, off, src, 0, logged, logged, Tally({}, {}, {}), 0)
  {
    WrittenNothing(sb, d0, ino, off);
    assert src[..0] == [];
  }

  lemma MidwayEnd(sb: Super, d0: Disk, d: Disk, ino: nat, off: nat, src: seq<byte>,
                  before: set<nat>, logged: set<nat>, t: Tally, created: nat)
    requires Shape(sb, d0) && Shape(sb, d) && ino < sb.ninodes
    requires Midway(sb, d0, d, ino, off, src, |src|, before, logged, t, created)
    ensures Written(sb, d0, d, ino, off, src) && Filled(d0.inodes[ino].addrs, d.inodes[ino].addrs, off, |src|)
    ensures before <= logged && |logged - before| <= LogCost(off, |src|)
    ensures off % BSIZE == 0 || src == [] || Mapped(sb, d0, ino, off) ==>
              |logged - before| <= LogCost(off, |src|) - 1
  {
    hide Written, Filled, Mapped, Ref;
    assert src[..|src|] == src;
    TallyBound(sb, d, ino, before, logged, t, BlocksTouched(off, |src|), created);
  }

  /** The size of one pass: up to the end of the block or of src. */
  function PassLength(src: seq<byte>, tot: nat, p: nat): (m: nat)
    requires tot < |src|
    ensures 0 < m && tot + m <= |src| && p % BSIZE + m <= BSIZE && (tot + m == |src| || (p + m) % BSIZE == 0)
  {
    Min(|src| - tot, BSIZE - p % BSIZE)
  }

  /** The bytes and addresses of one more pass. */
  lemma WrittenStep(sb: Super, d0: Disk, d: Disk, d1: Disk, owner: map<nat, Slot>, ino: nat, off: nat,
                    src: seq<byte>, tot: nat, m: nat)
    requires Shape(sb, d0) && Shape(sb, d) && ino < sb.ninodes
    requires 0 < m && tot + m <= |src| && off + tot < MAXBYTES && (off + tot) % BSIZE + m <= BSIZE
    requires Written(sb, d0, d, ino, off, src[..tot]) && Filled(d0.inodes[ino].addrs, d.inodes[ino].addrs, off, tot)
    requires Own(sb, d1, owner, {}) && Grew(sb, d, d1, ino, (off + tot) / BSIZE)
    ensures Ref(sb, d1, DataSlot(ino, (off + tot) / BSIZE)) < sb.size
    ensures var d2 := Stored(sb, d1, ino, (off + tot) / BSIZE, (off + tot) % BSIZE, src[tot..tot + m]);
            && Own(sb, d2, owner, {}) && Shape(sb, d2) && Written(sb, d0, d2, ino, off, src[..tot + m])
            && Filled(d0.inodes[ino].addrs, d2.inodes[ino].addrs, off, tot + m)
  {
    hide Own, Stored, Written, Filled, Grew, Ref;
    var p := off + tot;
    OwnFacts(sb, d1, owner, {});
    WrittenPart(sb, d, d1, owner, ino, p, src[tot..tot + m]);
    var d2 := Stored(sb, d1, ino, p / BSIZE, p % BSIZE, src[tot..tot + m]);
    assert src[..tot] + src[tot..tot + m] == src[..tot + m];
    WrittenThen(sb, d0, d, d2, ino, off, src[..tot], src[tot..tot + m]);
    FilledPart(sb, d, d1, ino, p, m);
    FilledThen(d0.inodes[ino].addrs, d.inodes[ino].addrs, d2.inodes[ino].addrs, off, tot, m);
  }

  lemma StillMapped(sb: Super, d0: Disk, d: Disk, ino: nat, off: nat, src: seq<byte>, k: nat)
    requires Shape(sb, d0) && Shape(sb, d) && ino < sb.ninodes && Written(sb, d0, d, ino, off, src) && Mapped(sb, d0, ino, k)
    ensures Mapped(sb, d, ino, k)
  {
  }

  lemma MidwayStep(sb: Super, d0: Disk, d: Disk, d1: Disk, d2: Disk, owner: map<nat, Slot>, ino: nat, off: nat,
                   src: seq<byte>, tot: nat, before: set<nat>, logged: set<nat>, logged': set<nat>, t: Tally, created: nat,
                   addr: nat)
    requires Shape(sb, d0) && Shape(sb, d) && ino < sb.ninodes
    requires tot < |src| && off + |src| <= MAXBYTES
    requires Midway(sb, d0, d, ino, off, src, tot, before, logged, t, created)
    requires Own(sb, d1, owner, {}) && Grew(sb, d, d1, ino, (off + tot) / BSIZE)
    requires Ref(sb, d1, DataSlot(ino, (off + tot) / BSIZE)) < sb.size && Shape(sb, d2)
    requires d2 == Stored(sb, d1, ino, (off + tot) / BSIZE, (off + tot) % BSIZE,
                          src[tot..tot + PassLength(src, tot, off + tot)])
    requires Ref(sb, d2, Indirect(ino)) == Ref(sb, d1, Indirect(ino))
    requires logged <= logged'
    requires Ref(sb, d, DataSlot(ino, (off + tot) / BSIZE)) != 0 ==> logged' == logged + {addr}
    requires var ind := Ref(sb, d2, Indirect(ino));
             logged' <= logged + {addr, BBlock(sb, addr)} +
                        if (off + tot) / BSIZE < NDIRECT then {} else {ind, BBlock(sb, ind)}
    ensures var had := Ref(sb, d, DataSlot(ino, (off + tot) / BSIZE)) != 0;
            Midway(sb, d0, d2, ino, off, src, tot + PassLength(src, tot, off + tot), before, logged',
                   Count(sb, d2, ino, t, addr, off + tot, had), if had then created else created + 1)
  {
    hide Own, Grew, Written, Filled, Tallied, Count, BlocksTouched, Stored, Ref;
    var p, m := off + tot, PassLength(src, tot, off + tot);
    OwnFacts(sb, d1, owner, {});
    GrewIndirect(sb, d, d1, ino, p / BSIZE);
    WrittenStep(sb, d0, d, d1, owner, ino, off, src, tot, m);
    TouchesOneMore(off, tot, m);
    TouchesNone(off);
    if tot == 0 && Mapped(sb, d0, ino, off) { StillMapped(sb, d0, d, ino, off, src[..tot], off); }
    TallyStep(sb, d, d2, ino, before, logged, logged', t, BlocksTouched(off, tot), created, addr, p,
              Ref(sb, d, DataSlot(ino, p / BSIZE)) != 0);
  }

  lemma MidwayMapped(sb: Super, d0: Disk, d: Disk, ino: nat, off: nat, src: seq<byte>, tot: nat,
                     before: set<nat>, logged: set<nat>, t: Tally, created: nat)
    requires Shape(sb, d0) && Shape(sb, d) && ino < sb.ninodes && tot <= |src| && off + tot < MAXBYTES
    requires Midway(sb, d0, d, ino, off, src, tot, before, logged, t, created)
    ensures Mapped(sb, d0, ino, off + tot) ==> Ref(sb, d, DataSlot(ino, (off + tot) / BSIZE)) != 0
  {
    if Mapped(sb, d0, ino, off + tot) { StillMapped(sb, d0, d, ino, off, src[..tot], off + tot); }
  }

  lemma Uncovered(a: seq<Block>, base: nat, logged: set<nat>)
    ensures Covered(a, a, base, logged)
  {
  }

  /** writei's loop over the blocks. */
  method WriteLoop(fs: FileSys, ino: nat, off: nat, src: seq<byte>) returns (ok: bool)
    requires fs.Valid() && ino < fs.sb.ninodes && off + |src| <= MAXBYTES
    modifies fs`blocks, fs`inodes, fs`owner, fs`logged
    ensures !ok ==> forall c :: DataStart(fs.sb) <= c < fs.sb.size ==> c in fs.owner
    ensures (forall k: nat :: off <= k < off + |src| ==> Mapped(fs.sb, old(fs.Now()), ino, k)) ==> ok
    ensures ok ==> fs.Valid() && Shape(fs.sb, fs.Now()) && Written(fs.sb, old(fs.Now()), fs.Now(), ino, off, src)
    ensures ok ==> Filled(old(fs.inodes)[ino].addrs, fs.inodes[ino].addrs, off, |src|)
    ensures ok ==> old(fs.logged) <= fs.logged && |fs.logged - old(fs.logged)| <= LogCost(off, |src|)
    ensures ok && (off % BSIZE == 0 || src == [] || Mapped(fs.sb, old(fs.Now()), ino, off)) ==>
              |fs.logged - old(fs.logged)| <= LogCost(off, |src|) - 1
    ensures ok ==> Covered(old(fs.blocks), fs.blocks, 0, fs.logged)
  {
    hide Own, Grew, Written, Stored, Mapped, Midway, Count, LogCost, Filled, Covered, FileSys.Records;
    ok := true;
    ghost var d0 := fs.Now();
    OwnFacts(fs.sb, d0, fs.owner, {});
    MidwayStart(fs.sb, d0, ino, off, src, fs.logged);
    ghost var t, created := Tally({}, {}, {}), 0;
    Uncovered(fs.blocks, 0, fs.logged);
    var tot := 0;
    while tot < |src|
      invariant 0 <= tot <= |src| && fs.Valid() && Shape(fs.sb, fs.Now())
      invariant Midway(fs.sb, d0, fs.Now(), ino, off, src, tot, old(fs.logged), fs.logged, t, created)
      invariant Covered(old(fs.blocks), fs.blocks, 0, fs.logged)
    {
      var p := off + tot;
      var m := PassLength(src, tot, p);
      ghost var d, logged := fs.Now(), fs.logged;
      ghost var had := Ref(fs.sb, d, DataSlot(ino, p / BSIZE)) != 0;
      MidwayMapped(fs.sb, d0, d, ino, off, src, tot, old(fs.logged), logged, t, created);
      var addr; ghost var d1;
      ok, addr, d1 := WritePart(fs, ino, p, src[tot..tot + m]);
      if !ok { return; }
      CoveredThen(d0.blocks, d.blocks, fs.blocks, 0, logged, fs.logged);
      OwnFacts(fs.sb, fs.Now(), fs.owner, {});
      OwnFacts(fs.sb, d1, fs.owner, {});
      MidwayStep(fs.sb, d0, d, d1, fs.Now(), fs.owner, ino, off, src, tot, old(fs.logged), logged, fs.logged, t, created, addr);
      t := Count(fs.sb, fs.Now(), ino, t, addr, p, had);
      created := if had then created else created + 1;
      tot := tot + m;
    }
    MidwayEnd(fs.sb, d0, fs.Now(), ino, off, src, old(fs.logged), fs.logged, t, created);
  }

  lemma SizeShape(sb: Super, d: Disk, d': Disk, ino: nat)
    requires Shape(sb, d) && ino < sb.ninodes
    requires exists size :: d' == d.(inodes := d.inodes[ino := d.inodes[ino].(size := size)])
    ensures Shape(sb, d')
    ensures forall s :: SlotOk(sb, s) ==> Ref(sb, d', s) == Ref(sb, d, s)
    ensures forall k: nat :: Mapped(sb, d', ino, k) == Mapped(sb, d, ino, k)
    ensures forall k: nat :: ByteAt(sb, d', ino, k) == ByteAt(sb, d, ino, k)
  {
    forall n | 0 <= n < sb.ninodes
      ensures InodeShape(sb, d'.inodes[n])
    {
      assert InodeShape(sb, d.inodes[n]);
    }
  }

  /** With the size updated, the file reads as the old contents with src spliced in, every other file as before, and
      a file without holes has none still. */
  lemma WrittenContent(sb: Super, d0: Disk, d: Disk, ino: nat, off: nat, src: seq<byte>, d': Disk)
    requires Shape(sb, d0) && Shape(sb, d) && ino < sb.ninodes && FileOk(d0, ino)
    requires off <= d0.inodes[ino].size && Written(sb, d0, d, ino, off, src)
    requires d' == d.(inodes := d.inodes[ino := d.inodes[ino].(size := Max(d0.inodes[ino].size, off + |src|))])
    ensures Shape(sb, d') && FileOk(d', ino)
    ensures Content(sb, d', ino) == Splice(Content(sb, d0, ino), off, src)
    ensures NoHoles(sb, d0, ino) ==> NoHoles(sb, d', ino)
    ensures forall n :: 0 <= n < sb.ninodes && n != ino ==> SameFile(sb, d0, d', n)
  {
    hide SameFile, ByteAt, Mapped, Ref;
    SizeShape(sb, d, d', ino);
    SpliceAt(Content(sb, d0, ino), off, src);
    assert Content(sb, d', ino) == Splice(Content(sb, d0, ino), off, src);
    assert OthersSame(sb, d0, d', ino);
    forall n | 0 <= n < sb.ninodes && n != ino
      ensures SameFile(sb, d0, d', n)
    {
      OtherContent(sb, d0, d', ino, n);
    }
  }

  lemma Unchanged(sb: Super, d: Disk)
    requires Shape(sb, d)
    ensures forall n :: 0 <= n < sb.ninodes ==> SameFile(sb, d, d, n)
  {
  }

  /** In a file without holes a write that starts inside a block finds it, and one that stays within needs no address. */
  lemma WholeFile(sb: Super, d0: Disk, ino: nat, off: nat, n: nat)
    requires Shape(sb, d0) && ino < sb.ninodes && NoHoles(sb, d0, ino) && off <= d0.inodes[ino].size
    ensures off % BSIZE == 0 || Mapped(sb, d0, ino, off)
    ensures off + n <= d0.inodes[ino].size ==> !Missing(d0.inodes[ino].addrs, off, n)
  {
    hide Missing;
    if off % BSIZE != 0 { StartsInside(sb, d0, ino, off); }
    if off + n <= d0.inodes[ino].size { NoneMissing(sb, d0, ino, off, n); }
  }

  lemma WrittenInodes(sb: Super, d0: Disk, d: Disk, ino: nat, off: nat, src: seq<byte>)
    requires Shape(sb, d0) && Shape(sb, d) && ino < sb.ninodes && Written(sb, d0, d, ino, off, src)
    ensures d.inodes[ino].size == d0.inodes[ino].size
    ensures d.inodes == d0.inodes[ino := d0.inodes[ino].(addrs := d.inodes[ino].addrs)]
  {
  }

  lemma SizeKeeps(sb: Super, d: Disk, d': Disk, owner: map<nat, Slot>, ino: nat)
    requires Own(sb, d, owner, {}) && ino < sb.ninodes
    requires exists size :: d' == d.(inodes := d.inodes[ino := d.inodes[ino].(size := size)])
    ensures Own(sb, d', owner, {})
  {
    hide BitsMatch;
    SizeShape(sb, d, d', ino);
  }

  /** The end of writei: the new size, then iupdate. */
  method NewSize(fs: FileSys, ghost d0: Disk, ino: nat, size: nat)
    requires fs.Valid() && Shape(fs.sb, d0) && ino < fs.sb.ninodes && size <= MAXBYTES
    requires fs.inodes == d0.inodes[ino := d0.inodes[ino].(addrs := fs.inodes[ino].addrs)]
    modifies fs`inodes, fs`table, fs`logged
    ensures fs.Valid() && fs.logged == old(fs.logged) + {IBlock(fs.sb, ino)}
    ensures fs.inodes == old(fs.inodes)[ino := old(fs.inodes)[ino].(size := size)]
    ensures Saved(old(fs.table), fs.meta, d0.inodes) ==> fs.Synced()
    ensures Covered(old(fs.table), fs.table, fs.sb.inodestart, fs.logged)
  {
    hide Own, Saved, At, Get, Put;
    ghost var d := fs.Now();
    OwnFacts(fs.sb, d, fs.owner, {});
    fs.inodes := fs.inodes[ino := fs.inodes[ino].(size := size)];
    SizeKeeps(fs.sb, d, fs.Now(), fs.owner, ino);
    assert InodeShape(fs.sb, d.inodes[ino]);
    if Saved(fs.table, fs.meta, d0.inodes) {
      StoreSaves(fs.table, fs.meta, d0.inodes, ino, fs.meta[ino], fs.inodes[ino]);
      assert fs.meta[ino := fs.meta[ino]] == fs.meta && fs.inodes == d0.inodes[ino := fs.inodes[ino]];
    }
    fs.Iupdate(ino);
  }

  lemma OneMore(after: set<nat>, logged: set<nat>, before: set<nat>, b: nat)
    requires after == logged + {b}
    ensures |after - before| <= |logged - before| + 1
  {
    SubsetSize(after - before, (logged - before) + {b});
  }

  /** writei.  -1 exactly when the offset is past the end, the range wraps around or the file would grow too big;
      then nothing changes.  Otherwise all of src is spliced into the file, every other file keeps its contents and
      at most LogCost blocks are logged, one more if the file has holes.  The inode on disk stays up to date exactly
      when the size grew or no address was filled in, so always for a file without holes.  ok == false: out of blocks. */
  method Writei(fs: FileSys, ino: nat, src: seq<byte>, off: nat) returns (ok: bool, r: int)
    requires fs.Valid() && ino < fs.sb.ninodes && FileOk(fs.Now(), ino) && off < UINT && |src| < UINT
    modifies fs
    ensures !ok ==> forall c :: DataStart(fs.sb) <= c < fs.sb.size ==> c in fs.owner
    ensures r == -1 <==> off > old(fs.inodes)[ino].size || off + |src| >= UINT || off + |src| > MAXBYTES
    ensures r == -1 ==> ok && fs.Now() == old(fs.Now()) && fs.logged == old(fs.logged) && fs.table == old(fs.table)
    ensures r == -1 ==> fs.owner == old(fs.owner)
    ensures r != -1 ==> r == |src|
    ensures ok ==> fs.Valid() && Shape(fs.sb, fs.Now()) && FileOk(fs.Now(), ino) && fs.meta == old(fs.meta)
    ensures ok && r != -1 ==>
              Content(fs.sb, fs.Now(), ino) == Splice(Content(fs.sb, old(fs.Now()), ino), off, src)
    ensures ok ==> forall n :: 0 <= n < fs.sb.ninodes && n != ino ==> SameFile(fs.sb, old(fs.Now()), fs.Now(), n)
    ensures ok && NoHoles(fs.sb, old(fs.Now()), ino) ==> NoHoles(fs.sb, fs.Now(), ino)
    ensures ok && r != -1 && old(fs.Synced()) ==>
              (fs.Synced() <==> off + |src| > old(fs.inodes)[ino].size || !Missing(old(fs.inodes)[ino].addrs, off, |src|))
    ensures ok && r != -1 && NoHoles(fs.sb, old(fs.Now()), ino) && off + |src| <= old(fs.inodes)[ino].size ==>
              !Missing(old(fs.inodes)[ino].addrs, off, |src|)
    ensures ok && r != -1 ==> |fs.logged - old(fs.logged)| <= LogCost(off, |src|) + 1
    ensures ok && r != -1 && NoHoles(fs.sb, old(fs.Now()), ino) ==> |fs.logged - old(fs.logged)| <= LogCost(off, |src|)
    ensures ok ==> Covered(old(fs.blocks), fs.blocks, 0, fs.logged)
    ensures ok ==> Covered(old(fs.table), fs.table, fs.sb.inodestart, fs.logged)
  {
    hide Covered, Own, Written, NoHoles, SameFile, Mapped, Ref, ByteAt, LogCost, Filled, Missing, Saved, At, Get, Put, FileSys.Records;
    OwnFacts(fs.sb, fs.Now(), fs.owner, {});
    ghost var d0 := fs.Now();
    Uncovered(fs.blocks, 0, fs.logged);
    Uncovered(fs.table, fs.sb.inodestart, fs.logged);
    Wraps(off, |src|);
    var n := |src|;
    if off > fs.inodes[ino].size || (off + n) % UINT < off || (off + n) % UINT > MAXBYTES {
      Unchanged(fs.sb, d0);
      return true, -1;
    }
    r := n;
    ok := WriteLoop(fs, ino, off, src);
    if !ok { return; }
    ghost var d := fs.Now();
    OwnFacts(fs.sb, d, fs.owner, {});
    ghost var d' := d.(inodes := d.inodes[ino := d.inodes[ino].(size := Max(d0.inodes[ino].size, off + n))]);
    WrittenContent(fs.sb, d0, d, ino, off, src, d');
    WrittenInodes(fs.sb, d0, d, ino, off, src);
    SizeKeeps(fs.sb, d, d', fs.owner, ino);
    if NoHoles(fs.sb, d0, ino) { WholeFile(fs.sb, d0, ino, off, n); }
    Uncovered(fs.table, fs.sb.inodestart, fs.logged);
    if n > 0 && off + n > fs.inodes[ino].size {
      ghost var logged := fs.logged;
      NewSize(fs, d0, ino, off + n);
      Uncovered(fs.blocks, 0, fs.logged);
      CoveredThen(d0.blocks, d.blocks, fs.blocks, 0, logged, fs.logged);
      OneMore(fs.logged, logged, old(fs.logged), IBlock(fs.sb, ino));
    } else {
      assert d' == d;
      FilledSame(d0.inodes[ino].addrs, d.inodes[ino].addrs, off, n);
      if old(fs.Synced()) { FallsBehind(fs, d0, ino); }
    }
  }

  // ---- filewrite ----

  const CHUNK: nat := 1536             // filewrite's max, ((MAXOPBLOCKS-1-1-2) / 2) * 512

  /** Whatever the offset and its alignment, a chunk of filewrite logs at most MAXOPBLOCKS blocks. */
  lemma ChunkFits(off: nat, n: nat)
    requires n <= CHUNK
    ensures LogCost(off, n) <= MAXOPBLOCKS
  {
    assert CHUNK == 1536 && BSIZE == 512;
    if n > 0 {
      assert (off + n - 1) / 512 <= (off + 1535) / 512;
      assert (off + 1535) / 512 <= off / 512 + 3;
      if off % 512 == 0 {
        assert (off + 1535) / 512 == off / 512 + 2;
      }
    }
  }

  lemma SpliceNone<T>(c: seq<T>, off: nat, none: seq<T>)
    requires off <= |c| && none == []
    ensures Splice(c, off, none) == c
  {
  }

  lemma SpliceTwice<T>(c: seq<T>, off: nat, a: seq<T>, b: seq<T>)
    requires off <= |c|
    ensures Splice(Splice(c, off, a), off + |a|, b) == Splice(c, off, a + b)
  {
  }

  /** One transaction of filewrite. */
  method WriteChunk(fs: FileSys, ino: nat, chunk: seq<byte>, off: nat) returns (ok: bool, r: int)
    requires fs.Valid() && ino < fs.sb.ninodes && FileOk(fs.Now(), ino) && off < UINT && |chunk| <= CHUNK
    modifies fs
    ensures !ok ==> forall c :: DataStart(fs.sb) <= c < fs.sb.size ==> c in fs.owner
    ensures r == -1 <==> off > old(fs.inodes)[ino].size || off + |chunk| >= UINT || off + |chunk| > MAXBYTES
    ensures r == -1 ==> ok && fs.Now() == old(fs.Now()) && fs.table == old(fs.table) && fs.owner == old(fs.owner)
    ensures r != -1 ==> r == |chunk|
    ensures ok ==> fs.Valid() && Shape(fs.sb, fs.Now()) && FileOk(fs.Now(), ino) && fs.meta == old(fs.meta)
    ensures ok && r != -1 ==>
              Content(fs.sb, fs.Now(), ino) == Splice(Content(fs.sb, old(fs.Now()), ino), off, chunk)
    ensures ok ==> forall n :: 0 <= n < fs.sb.ninodes && n != ino ==> SameFile(fs.sb, old(fs.Now()), fs.Now(), n)
    ensures ok ==> |fs.logged| <= MAXOPBLOCKS + 1
    ensures ok && NoHoles(fs.sb, old(fs.Now()), ino) ==>
              |fs.logged| <= MAXOPBLOCKS && NoHoles(fs.sb, fs.Now(), ino) && (old(fs.Synced()) ==> fs.Synced())
    ensures ok ==> Covered(old(fs.blocks), fs.blocks, 0, fs.logged)
    ensures ok ==> Covered(old(fs.table), fs.table, fs.sb.inodestart, fs.logged)
  {
    hide Covered, Own, Mapped, Ref, ByteAt, LogCost, SameFile, Missing, Saved, NoHoles, FileSys.Records;
    fs.logged := {};                                  // begin_op
    ChunkFits(off, |chunk|);
    ok, r := Writei(fs, ino, chunk, off);
    assert fs.logged - {} == fs.logged;
  }

  lemma StillSame(sb: Super, d0: Disk, d: Disk, d': Disk, ino: nat)
    requires Shape(sb, d0) && Shape(sb, d) && Shape(sb, d')
    requires forall n :: 0 <= n < sb.ninodes && n != ino ==> SameFile(sb, d0, d, n)
    requires forall n :: 0 <= n < sb.ninodes && n != ino ==> SameFile(sb, d, d', n)
    ensures forall n :: 0 <= n < sb.ninodes && n != ino ==> SameFile(sb, d0, d', n)
  {
    hide Content, NoHoles;
    forall n | 0 <= n < sb.ninodes && n != ino
      ensures SameFile(sb, d0, d', n)
    {
      assert SameFile(sb, d0, d, n) && SameFile(sb, d, d', n);
    }
  }

  // ---- Between the transactions of filewrite ----

  /** A file system at rest: the blocks, the inode blocks, what is in memory, and what the last transaction logged. */
  datatype Snapshot = Snapshot(blocks: seq<Block>, inodes: seq<Inode>, table: seq<Block>, meta: seq<Meta>,
                               owner: map<nat, Slot>, logged: set<nat>)

  ghost function DiskOf(x: Snapshot): Disk {
    Disk(x.blocks, x.inodes)
  }

  ghost function Snap(fs: FileSys): Snapshot
    reads fs
  {
    Snapshot(fs.blocks, fs.inodes, fs.table, fs.meta, fs.owner, fs.logged)
  }

  /** Ownership holds, the inode blocks are up to date, file ino has contents c, and every other file is as in x0. */
  ghost predicate Intact(sb: Super, x0: Snapshot, x: Snapshot, ino: nat, c: seq<byte>)
    requires Shape(sb, DiskOf(x0)) && ino < sb.ninodes
  {
    && Own(sb, DiskOf(x), x.owner, {}) && Shape(sb, DiskOf(x)) && Saved(x.table, x.meta, x.inodes)
    && Content(sb, DiskOf(x), ino) == c
    && forall n :: 0 <= n < sb.ninodes && n != ino ==> SameFile(sb, DiskOf(x0), DiskOf(x), n)
  }

  /** Every block changed from x to y was logged, and there are few enough of them for one operation. */
  ghost predicate OneTransaction(sb: Super, x: Snapshot, y: Snapshot) {
    && Covered(x.blocks, y.blocks, 0, y.logged) && Covered(x.table, y.table, sb.inodestart, y.logged)
    && |y.logged| <= MAXOPBLOCKS
  }

  /** Snapshot k is intact and holds the first k chunks of data, and one transaction leads to the next. */
  ghost predicate Chunked(sb: Super, xs: seq<Snapshot>, ino: nat, off: nat, data: seq<byte>) {
    && |xs| > 0 && Shape(sb, DiskOf(xs[0])) && ino < sb.ninodes && off <= xs[0].inodes[ino].size
    && (forall k: nat :: k < |xs| ==>
          Intact(sb, xs[0], xs[k], ino, Splice(Content(sb, DiskOf(xs[0]), ino), off, data[..Min(k * CHUNK, |data|)])))
    && (forall k: nat :: k < |xs| - 1 ==> OneTransaction(sb, xs[k], xs[k + 1]))
  }

  lemma ChunkedOne(sb: Super, xs: seq<Snapshot>, y: Snapshot, ino: nat, off: nat, data: seq<byte>)
    requires Chunked(sb, xs, ino, off, data) && OneTransaction(sb, xs[|xs| - 1], y)
    requires Intact(sb, xs[0], y, ino, Splice(Content(sb, DiskOf(xs[0]), ino), off, data[..Min(|xs| * CHUNK, |data|)]))
    ensures Chunked(sb, xs + [y], ino, off, data)
  {
    hide Intact, OneTransaction, Splice, Content;
  }

  lemma ChunkedNone(sb: Super, x: Snapshot, ino: nat, off: nat, data: seq<byte>)
    requires Own(sb, DiskOf(x), x.owner, {}) && ino < sb.ninodes && Shape(sb, DiskOf(x)) && off <= x.inodes[ino].size
    requires Saved(x.table, x.meta, x.inodes)
    ensures Chunked(sb, [x], ino, off, data)
  {
    hide Own, Saved, SameFile;
    Unchanged(sb, DiskOf(x));
    SpliceNone(Content(sb, DiskOf(x), ino), off, data[..0]);
    assert Intact(sb, x, x, ino, Content(sb, DiskOf(x), ino));
  }

  lemma ChunkedNext(fs: FileSys, d0: Disk, xs: seq<Snapshot>, ino: nat, off: nat, data: seq<byte>, i: nat)
    requires fs.Valid() && Shape(fs.sb, fs.Now()) && fs.Synced()
    requires Chunked(fs.sb, xs, ino, off, data) && DiskOf(xs[0]) == d0 && OneTransaction(fs.sb, xs[|xs| - 1], Snap(fs))
    requires i <= |data| && i == Min(|xs| * CHUNK, |data|)
    requires Content(fs.sb, fs.Now(), ino) == Splice(Content(fs.sb, d0, ino), off, data[..i])
    requires forall n :: 0 <= n < fs.sb.ninodes && n != ino ==> SameFile(fs.sb, d0, fs.Now(), n)
    ensures Chunked(fs.sb, xs + [Snap(fs)], ino, off, data)
  {
    hide Own, Saved, SameFile, OneTransaction, Splice;
    assert Intact(fs.sb, xs[0], Snap(fs), ino, Splice(Content(fs.sb, d0, ino), off, data[..i]));
    ChunkedOne(fs.sb, xs, Snap(fs), ino, off, data);
  }

  /** The current state is the last snapshot, but for what has been logged since. */
  ghost predicate AtLast(fs: FileSys, xs: seq<Snapshot>)
    reads fs
  {
    |xs| > 0 && xs[|xs| - 1].(logged := fs.logged) == Snap(fs)
  }

  /** filewrite has written the first i bytes; d0 is the file system at its start, up to date on disk if `synced`. */
  ghost predicate Partway(fs: FileSys, d0: Disk, synced: bool, ino: nat, off: nat, data: seq<byte>, i: nat)
    requires Shape(fs.sb, d0) && ino < fs.sb.ninodes
    reads fs
  {
    && i <= |data| && fs.Valid() && Shape(fs.sb, fs.Now()) && FileOk(fs.Now(), ino)
    && (forall n :: 0 <= n < fs.sb.ninodes && n != ino ==> SameFile(fs.sb, d0, fs.Now(), n))
    && (NoHoles(fs.sb, d0, ino) ==> NoHoles(fs.sb, fs.Now(), ino) && (synced ==> fs.Synced()))
    && (off <= d0.inodes[ino].size ==>
          Content(fs.sb, fs.Now(), ino) == Splice(Content(fs.sb, d0, ino), off, data[..i]) && off + i <= MAXBYTES)
    && (off > d0.inodes[ino].size ==> fs.Now() == d0 && i == 0)
  }

  /** The snapshots so far, for a file that is kept track of. */
  ghost predicate Tracked(fs: FileSys, d0: Disk, synced: bool, ino: nat, off: nat, data: seq<byte>, i: nat, xs: seq<Snapshot>)
    requires Shape(fs.sb, d0) && ino < fs.sb.ninodes
    reads fs
  {
    && |xs| > 0 && DiskOf(xs[0]) == d0
    && (off <= d0.inodes[ino].size && NoHoles(fs.sb, d0, ino) && synced ==>
          Chunked(fs.sb, xs, ino, off, data) && AtLast(fs, xs) && i == Min((|xs| - 1) * CHUNK, |data|))
  }

  /** One pass of filewrite's loop. */
  method OneChunk(fs: FileSys, ino: nat, data: seq<byte>, off0: nat, i: nat, ghost d0: Disk, ghost synced: bool,
                  ghost xs: seq<Snapshot>)
    returns (ok: bool, r: int, ghost xs': seq<Snapshot>)
    requires Shape(fs.sb, d0) && ino < fs.sb.ninodes && FileOk(d0, ino) && off0 < UINT && i < |data| < UINT / 2
    requires Partway(fs, d0, synced, ino, off0, data, i) && Tracked(fs, d0, synced, ino, off0, data, i, xs)
    modifies fs
    ensures !ok ==> (forall c :: DataStart(fs.sb) <= c < fs.sb.size ==> c in fs.owner) && xs' == xs
    ensures ok ==> |fs.logged| <= MAXOPBLOCKS + 1 && (NoHoles(fs.sb, d0, ino) ==> |fs.logged| <= MAXOPBLOCKS)
    ensures r < 0 <==> off0 > d0.inodes[ino].size || off0 + i + Min(CHUNK, |data| - i) > MAXBYTES
    ensures ok && r < 0 ==> Partway(fs, d0, synced, ino, off0, data, i) && Tracked(fs, d0, synced, ino, off0, data, i, xs')
    ensures r >= 0 ==> r == Min(CHUNK, |data| - i)
    ensures ok && r >= 0 ==>
              Partway(fs, d0, synced, ino, off0, data, i + r) && Tracked(fs, d0, synced, ino, off0, data, i + r, xs')
    ensures |xs'| > 0 && xs'[0] == xs[0]
  {
    hide Own, Mapped, Ref, ByteAt, LogCost, Splice, SameFile, Saved, NoHoles, Covered, Chunked, Intact, FileSys.Records;
    xs' := xs;
    var n1 := |data| - i;
    if n1 > CHUNK { n1 := CHUNK; }
    ghost var d := fs.Now();
    ok, r := WriteChunk(fs, ino, data[i..i + n1], off0 + i);
    if !ok { return; }
    StillSame(fs.sb, d0, d, fs.Now(), ino);
    if r < 0 { return; }
    if off0 <= d0.inodes[ino].size {
      SpliceTwice(Content(fs.sb, d0, ino), off0, data[..i], data[i..i + n1]);
      assert data[..i] + data[i..i + n1] == data[..i + n1];
    }
    xs' := xs + [Snap(fs)];
    if off0 <= d0.inodes[ino].size && NoHoles(fs.sb, d0, ino) && synced { ChunkedNext(fs, d0, xs, ino, off0, data, i + r); }
  }

  lemma FilewriteStart(fs: FileSys, ino: nat, off: nat, data: seq<byte>)
    requires fs.Valid() && ino < fs.sb.ninodes && FileOk(fs.Now(), ino) && Shape(fs.sb, fs.Now())
    ensures Partway(fs, fs.Now(), fs.Synced(), ino, off, data, 0)
    ensures Tracked(fs, fs.Now(), fs.Synced(), ino, off, data, 0, [Snap(fs)])
  {
    hide Own, Mapped, Ref, ByteAt, Splice, SameFile, Saved, NoHoles, Chunked, FileSys.Records;
    Unchanged(fs.sb, fs.Now());
    if off <= fs.inodes[ino].size {
      SpliceNone(Content(fs.sb, fs.Now(), ino), off, data[..0]);
      if fs.Synced() { ChunkedNone(fs.sb, Snap(fs), ino, off, data); }
    }
  }

  lemma FilewriteEnd(fs: FileSys, d0: Disk, synced: bool, ino: nat, off: nat, data: seq<byte>, i: nat, xs: seq<Snapshot>)
    requires Shape(fs.sb, d0) && ino < fs.sb.ninodes
    requires Partway(fs, d0, synced, ino, off, data, i) && Tracked(fs, d0, synced, ino, off, data, i, xs)
    ensures fs.Valid() && Shape(fs.sb, fs.Now()) && FileOk(fs.Now(), ino)
    ensures forall n :: 0 <= n < fs.sb.ninodes && n != ino ==> SameFile(fs.sb, d0, fs.Now(), n)
    ensures NoHoles(fs.sb, d0, ino) ==> NoHoles(fs.sb, fs.Now(), ino) && (synced ==> fs.Synced())
    ensures off <= d0.inodes[ino].size ==>
              Content(fs.sb, fs.Now(), ino) == Splice(Content(fs.sb, d0, ino), off, data[..i]) && off + i <= MAXBYTES
    ensures off > d0.inodes[ino].size ==> fs.Now() == d0 && i == 0
    ensures off <= d0.inodes[ino].size && NoHoles(fs.sb, d0, ino) && synced ==> Chunked(fs.sb, xs, ino, off, data) && AtLast(fs, xs)
  {
    hide Own, Mapped, Ref, ByteAt, Splice, SameFile, Saved, NoHoles, Chunked, FileSys.Records;
  }

  /** filewrite on an inode: every chunk is a transaction of its own that logs at most MAXOPBLOCKS blocks (one more
      where the file has a hole); the accepted part of the data is spliced into the file and f->off moves past it;
      every other file keeps its contents; -1 unless all was accepted.  `xs` are the states between the transactions. */
  method Filewrite(fs: FileSys, ino: nat, data: seq<byte>, off0: nat)
    returns (ok: bool, r: int, off: nat, ghost most: nat, ghost xs: seq<Snapshot>)
    requires fs.Valid() && ino < fs.sb.ninodes && FileOk(fs.Now(), ino) && off0 < UINT && |data| < UINT / 2
    modifies fs
    ensures ok ==> fs.Valid() && FileOk(fs.Now(), ino)
    ensures !ok ==> forall c :: DataStart(fs.sb) <= c < fs.sb.size ==> c in fs.owner
    ensures ok ==> forall n :: 0 <= n < fs.sb.ninodes && n != ino ==> SameFile(fs.sb, old(fs.Now()), fs.Now(), n)
    ensures ok ==> most <= MAXOPBLOCKS + 1
    ensures ok && NoHoles(fs.sb, old(fs.Now()), ino) ==>
              most <= MAXOPBLOCKS && NoHoles(fs.sb, fs.Now(), ino) && (old(fs.Synced()) ==> fs.Synced())
    ensures ok && off0 <= old(fs.inodes)[ino].size ==>
              var i := off - off0;
              && 0 <= i <= |data|
              && Content(fs.sb, fs.Now(), ino) == Splice(Content(fs.sb, old(fs.Now()), ino), off0, data[..i])
              && r == (if i == |data| then |data| else -1)
              && (i == |data| <==> off0 + |data| <= MAXBYTES || |data| == 0)
    ensures ok && off0 > old(fs.inodes)[ino].size ==>
              fs.Now() == old(fs.Now()) && off == off0 && r == if data == [] then 0 else -1
    ensures ok && off0 <= old(fs.inodes)[ino].size && NoHoles(fs.sb, old(fs.Now()), ino) && old(fs.Synced()) ==>
              Chunked(fs.sb, xs, ino, off0, data) && xs[0] == old(Snap(fs)) && AtLast(fs, xs)
  {
    hide Own, Mapped, Ref, ByteAt, Splice, SameFile, Saved, NoHoles, Chunked, Partway, Tracked, FileSys.Records;
    OwnFacts(fs.sb, fs.Now(), fs.owner, {});
    ghost var d0, synced := fs.Now(), fs.Synced();
    ok, off, most, xs := true, off0, 0, [Snap(fs)];
    var i := 0;
    FilewriteStart(fs, ino, off0, data);
    while i < |data|
      invariant 0 <= i <= |data| && off == off0 + i && most <= MAXOPBLOCKS + 1
      invariant NoHoles(fs.sb, d0, ino) ==> most <= MAXOPBLOCKS
      invariant Partway(fs, d0, synced, ino, off0, data, i) && Tracked(fs, d0, synced, ino, off0, data, i, xs)
      invariant |xs| > 0 && xs[0] == old(Snap(fs))
      invariant i > 0 ==> off0 + i <= MAXBYTES && off0 <= d0.inodes[ino].size
    {
      var r1;
      ok, r1, xs := OneChunk(fs, ino, data, off0, i, d0, synced, xs);
      if !ok { r := -1; return; }
      most := Max(most, |fs.logged|);
      if r1 < 0 { break; }
      off := off + r1;
      i := i + r1;
    }
    r := if i == |data| then |data| else -1;
    FilewriteEnd(fs, d0, synced, ino, off0, data, i, xs);
  }
}
