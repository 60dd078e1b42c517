/** mkfs.c: the image it builds is one that fs.c's invariants accept.  The bitmap is written last; until then
    the proofs speak of `View`, the image with the bitmap that would be written now. */
module Mkfs {
  import opened Common
  import opened DiskFormat
  import opened BlockMap
  import opened InodeBlocks
  import opened FileSystem
  import opened FileContents

  /** FSSIZE 1000, NINODES 200, 30 log blocks, 26 inode blocks, 1 bitmap block: 59 metadata blocks. */
  const SB: Super := Super(1000, 941, 200, 32, 58)
  const ROOTINO: nat := 1
  const NINODES: nat := 200

  /** balloc's buffer after `used` blocks have been marked. */
  function BitmapFor(used: nat): (r: Block)
    requires used < BPB
    ensures |r| == BSIZE
  {
    if used == 0 then Zeroes() else
    var m: Block := BitmapFor(used - 1);
    var i := used - 1;
    var x: byte := WithBit(m[i / 8], i % 8, true);
    m[i / 8 := x]
  }

  lemma {:induction false} ZeroBit(k: nat)
    ensures !Bit(0, k)
  {
    if k > 0 { ZeroBit(k - 1); }
  }

  /** The bits of that buffer are exactly the first `used`. */
  lemma {:induction false} BitmapBits(used: nat, b: nat)
    requires used < BPB && b < BPB
    ensures Bit(BitmapFor(used)[b / 8], b % 8) <==> b < used
  {
    if used == 0 {
      ZeroBit(b % 8);
    } else {
      BitmapBits(used - 1, b);
      var i := used - 1;
      if b / 8 == i / 8 && b % 8 == i % 8 {
        assert b == b / 8 * 8 + b % 8 && i == i / 8 * 8 + i % 8;
      }
    }
  }

  // ---- What the tool writes ----

  const T_DIR: nat := 1
  const T_FILE: nat := 2
  const SLASH: byte := 47
  const UNDERSCORE: byte := 95
  const DOT: byte := 46

  /** The name of a file argument without its leading underscore. */
  function Stripped(name: seq<byte>): seq<byte> {
    if name != [] && name[0] == UNDERSCORE then name[1..] else name
  }

  /** A directory entry: inode number and name, 16 bytes. */
  function Dirent(inum: nat, name: seq<byte>): (r: seq<byte>)
    requires inum < NINODES
    ensures |r| == 16
  {
    var low: byte := inum % 256;
    var high: byte := inum / 256;
    [low, high] + seq(14, i requires 0 <= i < 14 => if i < |name| then name[i] else 0)
  }

  /** The entries of the root directory: ".", ".." and one for each file. */
  function Entries(names: seq<seq<byte>>): (r: seq<byte>)
    requires |names| + 2 <= NINODES
    ensures |r| == 16 * (|names| + 2)
  {
    if names == [] then Dirent(ROOTINO, [DOT]) + Dirent(ROOTINO, [DOT, DOT])
    else var n := |names| - 1; Entries(names[..n]) + Dirent(n + 2, Stripped(names[n]))
  }

  lemma Within<T>(a: seq<T>, b: seq<T>, i: nat, j: nat)
    requires i <= j <= |a|
    ensures (a + b)[i..j] == a[i..j]
  {
  }

  /** Entry k + 2 is that of the k-th file: its inode is number k + 2. */
  lemma {:induction false} EntriesAt(names: seq<seq<byte>>, k: nat)
    requires k < |names| && |names| + 2 <= NINODES
    ensures Entries(names)[16 * (k + 2)..16 * (k + 3)] == Dirent(k + 2, Stripped(names[k]))
  {
    hide Dirent, Stripped;
    var n := |names| - 1;
    var init := Entries(names[..n]);
    if k < n {
      EntriesAt(names[..n], k);
      Within(init, Dirent(n + 2, Stripped(names[n])), 16 * (k + 2), 16 * (k + 3));
      assert names[..n][k] == names[k];
    }
  }

  function Zeros(n: nat): (r: seq<byte>)
    ensures |r| == n && forall i :: 0 <= i < n ==> r[i] == 0
  {
    seq(n, i => 0)
  }

  /** The root directory as the image holds it: its size is rounded up past the next block boundary. */
  function RootBytes(names: seq<seq<byte>>): (r: seq<byte>)
    requires |names| + 2 <= NINODES
    ensures |r| == (|names| + 2) / 32 * BSIZE + BSIZE
  {
    Entries(names) + Zeros((|names| + 2) / 32 * BSIZE + BSIZE - 16 * (|names| + 2))
  }

  /** Inode n of the image: the root directory, then a file for each argument. */
  function MetaOf(files: nat, n: nat): Meta {
    if n == ROOTINO then Meta(T_DIR, 0, 0, 1)
    else if 2 <= n < files + 2 then Meta(T_FILE, 0, 0, 1) else Meta(0, 0, 0, 0)
  }

  function NoData(n: nat): (r: seq<Block>)
    ensures |r| == n && forall i :: 0 <= i < n ==> r[i] == Zeroes()
  {
    seq(n, i => Zeroes())
  }

  function NoInodes(): (r: seq<Inode>)
    ensures |r| == NINODES && forall i :: 0 <= i < NINODES ==> r[i] == Inode(0, NoAddrs())
  {
    seq(NINODES, i => Inode(0, NoAddrs()))
  }

  function NoMeta(): (r: seq<Meta>)
    ensures |r| == NINODES && forall i :: 0 <= i < NINODES ==> r[i] == Meta(0, 0, 0, 0)
  {
    seq(NINODES, i => Meta(0, 0, 0, 0))
  }

  // ---- What is behind the end of a file ----

  /** From byte `end` on the file has no block of its own and only zeroes. */
  ghost predicate Clean(sb: Super, d: Disk, ino: nat, end: nat)
    requires Shape(sb, d) && ino < sb.ninodes
  {
    && (forall bn :: 0 <= bn < MAXFILE && end <= bn * BSIZE ==> Ref(sb, d, DataSlot(ino, bn)) == 0)
    && (forall k: nat :: end <= k ==> ByteAt(sb, d, ino, k) == 0)
  }

  ghost predicate CleanEnd(sb: Super, d: Disk, ino: nat)
    requires Shape(sb, d) && ino < sb.ninodes
  {
    Clean(sb, d, ino, d.inodes[ino].size)
  }

  lemma CleanStep(sb: Super, d: Disk, d1: Disk, owner: map<nat, Slot>, ino: nat, p: nat, chunk: seq<byte>)
    requires Shape(sb, d) && ino < sb.ninodes && p < MAXBYTES && p % BSIZE + |chunk| <= BSIZE && 0 < |chunk|
    requires Clean(sb, d, ino, p) && Own(sb, d1, owner, {}) && Grew(sb, d, d1, ino, p / BSIZE)
    requires 0 < Ref(sb, d1, DataSlot(ino, p / BSIZE)) < sb.size
    ensures Shape(sb, Stored(sb, d1, ino, p / BSIZE, p % BSIZE, chunk))
    ensures Clean(sb, Stored(sb, d1, ino, p / BSIZE, p % BSIZE, chunk), ino, p + |chunk|)
  {
    hide Own, Stored, Mapped, OthersSame, ByteAt;
    OwnFacts(sb, d1, owner, {});
    StoredKeeps(sb, d1, owner, ino, p / BSIZE, p % BSIZE, chunk);
    WrittenPart(sb, d, d1, owner, ino, p, chunk);
    var d2 := Stored(sb, d1, ino, p / BSIZE, p % BSIZE, chunk);
    forall bn | 0 <= bn < MAXFILE && p + |chunk| <= bn * BSIZE
      ensures Ref(sb, d2, DataSlot(ino, bn)) == 0
    {
      assert SlotOk(sb, DataSlot(ino, bn));
      assert p / 512 * 512 <= p;
    }
  }

  lemma CleanWritten(sb: Super, d0: Disk, d: Disk, ino: nat, off: nat, data: seq<byte>, d': Disk, n: nat)
    requires Shape(sb, d0) && Shape(sb, d) && ino < sb.ninodes && n < sb.ninodes
    requires off == d0.inodes[ino].size && Written(sb, d0, d, ino, off, data)
    requires d' == d.(inodes := d.inodes[ino := d.inodes[ino].(size := off + |data|)])
    requires CleanEnd(sb, d0, n) && (n == ino ==> Clean(sb, d, ino, off + |data|))
    ensures Shape(sb, d') && CleanEnd(sb, d', n)
  {
    SizeShape(sb, d, d', ino);
    forall bn | 0 <= bn < MAXFILE && d'.inodes[n].size <= bn * BSIZE
      ensures Ref(sb, d', DataSlot(n, bn)) == 0
    {
      assert SlotOk(sb, DataSlot(n, bn));
    }
    forall k: nat | d'.inodes[n].size <= k
      ensures ByteAt(sb, d', n, k) == 0
    {
      if n != ino {
        assert ByteAt(sb, d0, n, k) == 0;
        if k < MAXBYTES { assert SlotOk(sb, DataSlot(n, k / BSIZE)); }
      }
    }
  }

  lemma SmallFile(sb: Super, d: Disk, ino: nat)
    requires Shape(sb, d) && ino < sb.ninodes && NoHoles(sb, d, ino)
    ensures FileOk(d, ino)
  {
  }

  lemma SavedSizes(table: seq<Block>, meta: seq<Meta>, inodes: seq<Inode>)
    requires Saved(table, meta, inodes)
    ensures |meta| == |inodes| && TableOk(table, |inodes|)
  {
  }

  lemma SpliceAtEnd<T>(c: seq<T>, data: seq<T>)
    ensures Splice(c, |c|, data) == c + data
  {
  }

  lemma WithinFile(p: nat, m: nat)
    requires p / BSIZE < MAXFILE && p % BSIZE + m <= BSIZE && m > 0
    ensures p + m <= MAXBYTES && p < MAXBYTES
  {
    assert p == p / 512 * 512 + p % 512;
  }

  lemma EmptyImage()
    ensures Own(SB, Disk(NoData(SB.size)[SB.bmapstart := BitmapFor(59)], NoInodes()), map[], {})
  {
    hide BitmapFor, Bit, NoData, NoInodes;
    var d := Disk(NoData(SB.size)[SB.bmapstart := BitmapFor(59)], NoInodes());
    forall b | 0 <= b < SB.size
      ensures BBlock(SB, b) == SB.bmapstart && (Used(SB, d.blocks, b) <==> b < 59)
    {
      BitmapBits(59, b);
    }
  }

  /** Marking the next block in the bitmap is what the next bitmap buffer says. */
  lemma ViewAlloced(blocks: seq<Block>, inodes: seq<Inode>, b: nat)
    requires |blocks| == SB.size && DataStart(SB) <= b < SB.size && blocks[b] == Zeroes()
    requires Shape(SB, Disk(blocks[SB.bmapstart := BitmapFor(b)], inodes))
    ensures Alloced(SB, Disk(blocks[SB.bmapstart := BitmapFor(b)], inodes), b) ==
            Disk(blocks[SB.bmapstart := BitmapFor(b + 1)], inodes)
  {
    hide WithBit;
    assert BBlock(SB, b) == SB.bmapstart;
  }

  lemma ZeroRecord(k: nat)
    requires k < IPB
    ensures Get(Zeroes(), k) == Dinode(Meta(0, 0, 0, 0), Inode(0, NoAddrs()))
  {
    hide Word;
    var ws := Run(Zeroes(), 16 * k, 16);
    forall i | 0 <= i < 16
      ensures ws[i] == 0
    {
      ZeroWords(16 * k + i);
    }
    assert ws[3..] == NoAddrs();
  }

  lemma EmptyTable()
    ensures Saved(NoData(26), NoMeta(), NoInodes())
  {
    hide Get, NoData, NoInodes, NoMeta;
    forall n: nat | n < NINODES
      ensures n / IPB < 26 && At(NoData(26), n) == Dinode(NoMeta()[n], NoInodes()[n])
    {
      ZeroRecord(n % IPB);
    }
  }

  class Image {
    var blocks: seq<Block>
    var inodes: seq<Inode>               // as rinode reads them and iappend changes them
    var meta: seq<Meta>
    var table: seq<Block>                // the inode blocks
    var freeblock: nat
    var freeinode: nat
    ghost var owner: map<nat, Slot>

    ghost function View(): Disk
      requires |blocks| == SB.size && freeblock < BPB
      reads this
    {
      Disk(blocks[SB.bmapstart := BitmapFor(freeblock)], inodes)
    }

    /** Blocks from 59 up to freeblock are owned, the rest are zero and free. */
    ghost predicate Valid()
      reads this
    {
      && |blocks| == SB.size && DataStart(SB) <= freeblock <= SB.size
      && 1 <= freeinode
      && Own(SB, View(), owner, {})
      && (forall b :: b in owner ==> b < freeblock)
      && (forall b :: freeblock <= b < SB.size ==> blocks[b] == Zeroes())
      && (forall n :: freeinode <= n < NINODES ==> inodes[n] == Inode(0, NoAddrs()))
    }

    /** The inode blocks hold every inode, byte for byte. */
    ghost predicate Synced()
      reads this`inodes, this`meta, this`table
    {
      Saved(table, meta, inodes) && forall n :: 0 <= n < |meta| ==> MetaOk(meta[n])
    }

    /** main() up to the first ialloc: a zeroed image. */
    constructor ()
      ensures Valid() && Synced() && freeblock == DataStart(SB) && freeinode == 1 && owner == map[]
      ensures meta == NoMeta()
    {
      blocks, table := NoData(SB.size), NoData(26);
      inodes, meta := NoInodes(), NoMeta();
      freeblock, freeinode, owner := DataStart(SB), 1, map[];
      new;
      Begun();
    }

    lemma Begun()
      requires blocks == NoData(SB.size) && table == NoData(26) && inodes == NoInodes() && meta == NoMeta()
      requires freeblock == DataStart(SB) && freeinode == 1 && owner == map[]
      ensures Valid() && Synced()
    {
      hide Own, Saved, BitmapFor, NoData, NoInodes, NoMeta;
      EmptyImage();
      EmptyTable();
    }

    /** winode. */
    method Winode(ino: nat, ghost before: seq<Inode>, ghost metaBefore: seq<Meta>)
      requires Valid() && ino < NINODES == |before| == |metaBefore| == |meta| && MetaOk(meta[ino]) && inodes[ino].size < UINT
      requires Saved(table, metaBefore, before) && forall n :: 0 <= n < NINODES ==> MetaOk(metaBefore[n])
      requires inodes == before[ino := inodes[ino]] && meta == metaBefore[ino := meta[ino]]
      modifies this`table
      ensures Synced()
    {
      hide Own, Saved, Get, Put, BitmapFor;
      OwnFacts(SB, View(), owner, {});
      assert InodeShape(SB, inodes[ino]);
      SavedSizes(table, metaBefore, before);
      StoreSaves(table, metaBefore, before, ino, meta[ino], inodes[ino]);
      table := Store(table, ino, Dinode(meta[ino], inodes[ino]));
    }

    /** Store a block number in a slot. */
    method SetSlot(s: Slot, b: nat)
      requires |blocks| == SB.size && freeblock < BPB && Shape(SB, View()) && SlotOk(SB, s) && b < SB.size
      requires s.Entry? ==> DataStart(SB) <= Ref(SB, View(), Indirect(s.ino))
      modifies this`blocks, this`inodes
      ensures |blocks| == SB.size && View() == Attach(SB, old(View()), s, b)
      ensures forall c :: DataStart(SB) <= c < SB.size && !(s.Entry? && c == Ref(SB, old(View()), Indirect(s.ino))) ==>
                            blocks[c] == old(blocks)[c]
    {
      hide BitmapFor;
      match s {
        case Direct(n, i) =>
          inodes := inodes[n := inodes[n].(addrs := inodes[n].addrs[i := b])];
        case Indirect(n) =>
          inodes := inodes[n := inodes[n].(addrs := inodes[n].addrs[NDIRECT := b])];
        case Entry(n, j) =>
          var ind := inodes[n].addrs[NDIRECT];
          assert ind == Ref(SB, View(), Indirect(n)) && blocks[ind] == View().blocks[ind];
          blocks := blocks[ind := PutWord(blocks[ind], j, b)];
      }
      assert View() == Attach(SB, old(View()), s, b);
    }

    /** freeblock++ stored in an empty slot; false when the image is full. */
    method Take(s: Slot) returns (fits: bool, b: nat)
      requires Valid() && SlotOk(SB, s) && s.ino < freeinode && Ref(SB, View(), s) == 0
      requires s.Entry? ==> Ref(SB, View(), Indirect(s.ino)) != 0
      modifies this`blocks, this`inodes, this`freeblock, this`owner
      ensures fits <==> old(freeblock) < SB.size
      ensures freeblock == if fits then old(freeblock) + 1 else old(freeblock)
      ensures fits ==> Valid() && b == old(freeblock) && freeblock == b + 1 && owner == old(owner)[b := s] && b > 0
      ensures fits ==> forall n :: 0 <= n < NINODES ==> inodes[n].size == old(inodes)[n].size
      ensures fits ==> forall n :: 0 <= n < NINODES && n != s.ino ==> inodes[n] == old(inodes)[n]
      ensures fits ==> forall t :: SlotOk(SB, t) ==> Ref(SB, View(), t) == if t == s then b else Ref(SB, old(View()), t)
      ensures fits ==> View().blocks[b] == Zeroes()
      ensures fits ==> forall c :: c in old(owner) && !(s.Entry? && c == Ref(SB, old(View()), Indirect(s.ino))) ==>
                                     View().blocks[c] == old(View()).blocks[c]
    {
      hide Own, BitsMatch, MarkBit, WithBit, Alloced, BitmapFor;
      OwnFacts(SB, View(), owner, {});
      fits, b := freeblock < SB.size, freeblock;
      if !fits { return; }
      ghost var d0 := View();
      AllocKeeps(SB, d0, owner, {}, b);
      AllocedBlocks(SB, d0, owner, b);
      ghost var d1 := Alloced(SB, d0, b);
      assert {} + {b} == {b};
      OwnFacts(SB, d1, owner, {b});
      freeblock := freeblock + 1;
      assert View() == d1 by { ViewAlloced(blocks, inodes, b); }
      AttachKeeps(SB, d1, owner, {b}, s, b);
      assert {b} - {b} == {};
      SetSlot(s, b);
      owner := owner[b := s];
    }

    /** The entry of an indirect block that is there, with a new block if there is none. */
    method EntryFor(ino: nat, fbn: nat) returns (fits: bool, x: nat)
      requires Valid() && ino < NINODES && ino < freeinode && NDIRECT <= fbn < MAXFILE && Ref(SB, View(), Indirect(ino)) != 0
      modifies this`blocks, this`inodes, this`freeblock, this`owner
      ensures fits ==> Valid() && Grew(SB, old(View()), View(), ino, fbn)
      ensures fits ==> x == Ref(SB, View(), DataSlot(ino, fbn)) && 0 < x < SB.size
      ensures old(freeblock) <= freeblock && (!fits ==> freeblock + 2 > SB.size)
    {
      hide Own, Alloced, Attach, BitmapFor;
      OwnFacts(SB, View(), owner, {});
      fits := true;
      var ind := inodes[ino].addrs[NDIRECT];
      assert ind == Ref(SB, View(), Indirect(ino)) && blocks[ind] == View().blocks[ind];
      x := Word(blocks[ind], fbn - NDIRECT);
      assert x == Ref(SB, View(), Entry(ino, fbn - NDIRECT));
      if x == 0 {
        fits, x := Take(Entry(ino, fbn - NDIRECT));
        if fits { OwnFacts(SB, View(), owner, {}); }
      }
    }

    /** iappend's lookup past the direct blocks. */
    method IndirectFor(ino: nat, fbn: nat) returns (fits: bool, x: nat)
      requires Valid() && ino < NINODES && ino < freeinode && NDIRECT <= fbn < MAXFILE
      modifies this`blocks, this`inodes, this`freeblock, this`owner
      ensures fits ==> Valid() && Grew(SB, old(View()), View(), ino, fbn)
      ensures fits ==> x == Ref(SB, View(), DataSlot(ino, fbn)) && 0 < x < SB.size
      ensures old(freeblock) <= freeblock && (!fits ==> freeblock + 2 > SB.size)
    {
      hide Own, Alloced, Attach, BitmapFor, Grew;
      ghost var d := View();
      OwnFacts(SB, d, owner, {});
      fits, x := true, 0;
      assert inodes[ino].addrs[NDIRECT] == Ref(SB, d, Indirect(ino));
      if inodes[ino].addrs[NDIRECT] == 0 {
        var made;
        fits, made := Take(Indirect(ino));
        if !fits { return; }
        OwnFacts(SB, View(), owner, {});
      }
      ghost var d1 := View();
      fits, x := EntryFor(ino, fbn);
      if fits {
        OwnFacts(SB, View(), owner, {});
        GrewTwice(SB, d, d1, View(), old(owner), ino, fbn);
      }
    }

    /** iappend's lookup of block fbn of the file, taking new blocks as needed. */
    method BlockFor(ino: nat, fbn: nat) returns (fits: bool, x: nat)
      requires Valid() && ino < NINODES && ino < freeinode && fbn < MAXFILE
      modifies this`blocks, this`inodes, this`freeblock, this`owner
      ensures fits ==> Valid() && Grew(SB, old(View()), View(), ino, fbn)
      ensures fits ==> x == Ref(SB, View(), DataSlot(ino, fbn)) && 0 < x < SB.size
      ensures old(freeblock) <= freeblock && (!fits ==> freeblock + 2 > SB.size)
    {
      hide Own, Alloced, Attach, BitmapFor;
      OwnFacts(SB, View(), owner, {});
      if fbn < NDIRECT {
        fits, x := true, inodes[ino].addrs[fbn];
        assert x == Ref(SB, View(), Direct(ino, fbn));
        if x == 0 {
          fits, x := Take(Direct(ino, fbn));
          if fits { OwnFacts(SB, View(), owner, {}); }
        }
      } else {
        fits, x := IndirectFor(ino, fbn);
      }
    }

    /** One pass of iappend's loop: the chunk goes into the block that holds byte p. */
    method AppendPart(ino: nat, p: nat, chunk: seq<byte>) returns (fits: bool, ghost d1: Disk)
      requires Valid() && ino < NINODES && ino < freeinode && p < MAXBYTES && p % BSIZE + |chunk| <= BSIZE
      modifies this`blocks, this`inodes, this`freeblock, this`owner
      ensures old(freeblock) <= freeblock && (!fits ==> freeblock + 2 > SB.size)
      ensures fits ==> Own(SB, d1, owner, {}) && Grew(SB, old(View()), d1, ino, p / BSIZE)
      ensures fits ==> 0 < Ref(SB, d1, DataSlot(ino, p / BSIZE)) < SB.size
      ensures fits ==> Valid() && View() == Stored(SB, d1, ino, p / BSIZE, p % BSIZE, chunk)
    {
      hide Own, Grew, PutBytes, BitmapFor;
      OwnFacts(SB, View(), owner, {});
      var x;
      fits, x := BlockFor(ino, p / BSIZE);
      if !fits { d1 := Disk([], []); return; }
      d1 := View();
      OwnFacts(SB, d1, owner, {});
      StoredKeeps(SB, d1, owner, ino, p / BSIZE, p % BSIZE, chunk);
      assert SlotOk(SB, DataSlot(ino, p / BSIZE));
      blocks := blocks[x := PutBytes(blocks[x], p % BSIZE, chunk)];
      assert View() == Stored(SB, d1, ino, p / BSIZE, p % BSIZE, chunk);
    }

    /** iappend's loop over the blocks. */
    method AppendLoop(ino: nat, data: seq<byte>) returns (fits: bool)
      requires Valid() && ino < NINODES && ino < freeinode && FileOk(View(), ino)
      modifies this`blocks, this`inodes, this`freeblock, this`owner
      ensures fits ==> Valid() && Shape(SB, View()) && Written(SB, old(View()), View(), ino, old(inodes)[ino].size, data)
      ensures fits && Clean(SB, old(View()), ino, old(inodes)[ino].size) ==>
                Clean(SB, View(), ino, old(inodes)[ino].size + |data|)
      ensures !fits ==> old(inodes)[ino].size + |data| > MAXBYTES || freeblock + 2 > SB.size
    {
      hide Own, Grew, Written, Stored, BitmapFor, Clean;
      ghost var d0 := View();
      OwnFacts(SB, d0, owner, {});
      var off := inodes[ino].size;
      WrittenNothing(SB, d0, ino, off);
      assert data[..0] == [];
      fits := true;
      var tot := 0;
      while tot < |data|
        invariant 0 <= tot <= |data| && Valid() && Shape(SB, View())
        invariant Written(SB, d0, View(), ino, off, data[..tot])
        invariant Clean(SB, d0, ino, off) ==> Clean(SB, View(), ino, off + tot)
      {
        var p := off + tot;
        if p / BSIZE >= MAXFILE {
          return false;                            // assert(fbn < MAXFILE)
        }
        var m := PassLength(data, tot, p);
        WithinFile(p, m);
        ghost var d := View();
        ghost var d1;
        fits, d1 := AppendPart(ino, p, data[tot..tot + m]);
        if !fits { return; }
        WrittenPart(SB, d, d1, owner, ino, p, data[tot..tot + m]);
        assert data[..tot] + data[tot..tot + m] == data[..tot + m];
        WrittenThen(SB, d0, d, View(), ino, off, data[..tot], data[tot..tot + m]);
        if Clean(SB, d0, ino, off) { CleanStep(SB, d, d1, owner, ino, p, data[tot..tot + m]); }
        tot := tot + m;
      }
      assert data[..|data|] == data;
    }

    /** iappend adds the bytes at the end of the file and leaves every other file alone. */
    method Iappend(ino: nat, data: seq<byte>) returns (fits: bool)
      requires Valid() && Synced() && ino < NINODES && ino < freeinode && FileOk(View(), ino)
      modifies this`blocks, this`inodes, this`table, this`freeblock, this`owner
      ensures !fits ==> old(inodes)[ino].size + |data| > MAXBYTES || freeblock + 2 > SB.size
      ensures fits ==> Valid() && Synced() && Shape(SB, View()) && FileOk(View(), ino)
      ensures fits ==> Content(SB, View(), ino) == Content(SB, old(View()), ino) + data
      ensures fits && NoHoles(SB, old(View()), ino) ==> NoHoles(SB, View(), ino)
      ensures fits ==> forall n :: 0 <= n < NINODES && CleanEnd(SB, old(View()), n) ==> CleanEnd(SB, View(), n)
      ensures fits ==> forall n :: 0 <= n < NINODES && n != ino ==> SameFile(SB, old(View()), View(), n)
    {
      hide Own, Written, Mapped, Ref, ByteAt, BitmapFor, Splice, Clean, NoHoles, SameFile, Saved;
      ghost var d0 := View();
      OwnFacts(SB, d0, owner, {});
      SavedSizes(table, meta, inodes);
      var off := inodes[ino].size;
      fits := AppendLoop(ino, data);
      if !fits { return; }
      ghost var d := View();
      ghost var d' := d.(inodes := d.inodes[ino := d.inodes[ino].(size := off + |data|)]);
      WrittenContent(SB, d0, d, ino, off, data, d');
      WrittenInodes(SB, d0, d, ino, off, data);
      SizeKeeps(SB, d, d', owner, ino);
      inodes := inodes[ino := inodes[ino].(size := off + |data|)];
      assert meta[ino := meta[ino]] == meta && inodes == d0.inodes[ino := inodes[ino]];
      Winode(ino, d0.inodes, meta);
      SpliceAtEnd(Content(SB, d0, ino), data);
      forall n | 0 <= n < NINODES && CleanEnd(SB, d0, n)
        ensures CleanEnd(SB, View(), n)
      {
        CleanWritten(SB, d0, d, ino, off, data, d', n);
      }
    }

    /** ialloc: the next inode, of the given type and with one link. */
    method Ialloc(kind: nat) returns (inum: nat)
      requires Valid() && Synced() && freeinode < NINODES && kind < 0x1_0000
      modifies this`freeinode, this`meta, this`table
      ensures Valid() && Synced() && inum == old(freeinode) && freeinode == inum + 1
      ensures |old(meta)| == NINODES && meta == old(meta)[inum := Meta(kind, 0, 0, 1)]
      ensures NoHoles(SB, View(), inum) && Content(SB, View(), inum) == []
    {
      hide Own, Saved, BitmapFor;
      inum := freeinode;
      freeinode := freeinode + 1;
      OwnFacts(SB, View(), owner, {});
      SavedSizes(table, meta, inodes);
      meta := meta[inum := Meta(kind, 0, 0, 1)];
      assert inodes[inum := inodes[inum]] == inodes;
      Winode(inum, inodes, old(meta));
    }

    /** The read loop of main(): a file goes in piece by piece. */
    method CopyIn(ino: nat, file: seq<byte>) returns (fits: bool)
      requires Valid() && Synced() && ino < NINODES && ino < freeinode
      requires NoHoles(SB, View(), ino) && Content(SB, View(), ino) == []
      modifies this`blocks, this`inodes, this`table, this`freeblock, this`owner
      ensures !fits ==> |file| > MAXBYTES || freeblock + 2 > SB.size
      ensures fits ==> Valid() && Synced() && Shape(SB, View()) && NoHoles(SB, View(), ino) && Content(SB, View(), ino) == file
      ensures fits ==> forall n :: 0 <= n < NINODES && CleanEnd(SB, old(View()), n) ==> CleanEnd(SB, View(), n)
      ensures fits ==> forall n :: 0 <= n < NINODES && n != ino ==> SameFile(SB, old(View()), View(), n)
    {
      hide Own, NoHoles, BitmapFor, Ref, ByteAt, Mapped, Clean, SameFile, Saved;
      OwnFacts(SB, View(), owner, {});
      ghost var d0 := View();
      Unchanged(SB, d0);
      fits := true;
      var pos := 0;
      while pos < |file|
        invariant 0 <= pos <= |file| && Valid() && Synced() && Shape(SB, View())
        invariant NoHoles(SB, View(), ino) && Content(SB, View(), ino) == file[..pos]
        invariant forall n :: 0 <= n < NINODES && CleanEnd(SB, d0, n) ==> CleanEnd(SB, View(), n)
        invariant forall n :: 0 <= n < NINODES && n != ino ==> SameFile(SB, d0, View(), n)
      {
        var cc := Min(BSIZE, |file| - pos);
        ghost var d := View();
        assert FileOk(d, ino) by { SmallFile(SB, d, ino); }
        fits := Iappend(ino, file[pos..pos + cc]);
        if !fits { return; }
        StillSame(SB, d0, d, View(), ino);
        assert file[..pos] + file[pos..pos + cc] == file[..pos + cc];
        pos := pos + cc;
      }
    }

    /** balloc: the bitmap for the blocks used so far; the image is then what View described. */
    method Balloc()
      requires |blocks| == SB.size && freeblock <= SB.size
      modifies this`blocks
      ensures Disk(blocks, inodes) == old(View())
    {
      hide WithBit;
      var buf: Block := Zeroes();
      var i := 0;
      while i < freeblock
        invariant 0 <= i <= freeblock && buf == BitmapFor(i)
      {
        var x: byte := WithBit(buf[i / 8], i % 8, true);
        buf := buf[i / 8 := x];
        i := i + 1;
      }
      blocks := blocks[SB.bmapstart := buf];
    }

    /** One file argument of main(): an inode, an entry in the root directory, and the bytes. */
    method AddFile(name: seq<byte>, file: seq<byte>) returns (fits: bool)
      requires Valid() && Synced() && ROOTINO < freeinode < NINODES && FileOk(View(), ROOTINO)
      modifies this
      ensures !fits ==> SLASH in name || |file| > MAXBYTES || old(inodes)[ROOTINO].size + 16 > MAXBYTES || freeblock + 2 > SB.size
      ensures fits ==> Valid() && Synced() && Shape(SB, View()) && freeinode == old(freeinode) + 1
      ensures fits ==> |old(meta)| == NINODES && meta == old(meta)[old(freeinode) := Meta(T_FILE, 0, 0, 1)]
      ensures fits ==> NoHoles(SB, View(), old(freeinode)) && Content(SB, View(), old(freeinode)) == file
      ensures fits ==> FileOk(View(), ROOTINO)
      ensures fits ==>
                Content(SB, View(), ROOTINO) == Content(SB, old(View()), ROOTINO) + Dirent(old(freeinode), Stripped(name))
      ensures fits && NoHoles(SB, old(View()), ROOTINO) ==> NoHoles(SB, View(), ROOTINO)
      ensures fits && CleanEnd(SB, old(View()), ROOTINO) ==> CleanEnd(SB, View(), ROOTINO)
      ensures fits ==> forall n :: 0 <= n < NINODES && n != ROOTINO && n != old(freeinode) ==>
                SameFile(SB, old(View()), View(), n)
    {
      hide Own, NoHoles, BitmapFor, Ref, ByteAt, Mapped, Dirent, Clean, Saved, Content;
      OwnFacts(SB, View(), owner, {});
      if SLASH in name { return false; }                // assert(index(argv[i], '/') == 0)
      var inum := Ialloc(T_FILE);
      ghost var d0 := View();
      fits := Iappend(ROOTINO, Dirent(inum, Stripped(name)));
      if !fits { return; }
      ghost var d1 := View();
      assert SameFile(SB, d0, d1, inum);
      fits := CopyIn(inum, file);
      if !fits { return; }
      assert SameFile(SB, d1, View(), ROOTINO);
      forall n | 0 <= n < NINODES && n != ROOTINO && n != inum
        ensures SameFile(SB, d0, View(), n)
      {
        assert SameFile(SB, d0, d1, n) && SameFile(SB, d1, View(), n);
      }
    }

    /** "fix size of root inode dir": rounded up past the next block boundary. */
    method FixRoot()
      requires Valid() && Synced() && ROOTINO < freeinode && inodes[ROOTINO].size <= MAXBYTES
      modifies this`inodes, this`table
      ensures Valid() && Synced()
      ensures inodes == old(inodes)[ROOTINO := inodes[ROOTINO]]
      ensures inodes[ROOTINO] == old(inodes)[ROOTINO].(size := (old(inodes)[ROOTINO].size / BSIZE + 1) * BSIZE)
    {
      hide Own, BitmapFor, Saved;
      ghost var d := View();
      OwnFacts(SB, d, owner, {});
      SavedSizes(table, meta, inodes);
      var off := inodes[ROOTINO].size;
      off := (off / BSIZE + 1) * BSIZE;
      inodes := inodes[ROOTINO := inodes[ROOTINO].(size := off)];
      SizeKeeps(SB, d, View(), owner, ROOTINO);
      assert meta[ROOTINO := meta[ROOTINO]] == meta;
      Winode(ROOTINO, d.inodes, meta);
    }
  }

  /** The records read back are the inodes. */
  lemma SavedReads(table: seq<Block>, meta: seq<Meta>, inodes: seq<Inode>)
    requires Saved(table, meta, inodes)
    ensures TableOk(table, |inodes|) && Inodes(table, |inodes|) == inodes
  {
    hide Get;
    forall n: nat | n < |inodes|
      ensures Inodes(table, |inodes|)[n] == inodes[n]
    {
      assert n / IPB < |table| && At(table, n) == Dinode(meta[n], inodes[n]);
    }
  }

  /** Rounding the size of the root directory up past the next block boundary pads it with zeroes.  It leaves it without
      holes exactly when the size was not a multiple of the block size; otherwise the rounding adds a block the directory
      does not have. */
  lemma RootHole(d: Disk, d': Disk)
    requires Shape(SB, d) && NoHoles(SB, d, ROOTINO) && CleanEnd(SB, d, ROOTINO) && d.inodes[ROOTINO].size < MAXBYTES
    requires var size := d.inodes[ROOTINO].size;
             d' == d.(inodes := d.inodes[ROOTINO := d.inodes[ROOTINO].(size := (size / BSIZE + 1) * BSIZE)])
    ensures Shape(SB, d') && FileOk(d', ROOTINO)
    ensures var size := d.inodes[ROOTINO].size;
            Content(SB, d', ROOTINO) == Content(SB, d, ROOTINO) + Zeros((size / BSIZE + 1) * BSIZE - size)
    ensures NoHoles(SB, d', ROOTINO) <==> d.inodes[ROOTINO].size % BSIZE != 0
  {
    hide ByteAt;
    SizeShape(SB, d, d', ROOTINO);
    var size := d.inodes[ROOTINO].size;
    assert size == size / 512 * 512 + size % 512;
    if size % BSIZE != 0 {
      forall k: nat | k < d'.inodes[ROOTINO].size
        ensures Mapped(SB, d', ROOTINO, k)
      {
        if k >= size {
          assert Mapped(SB, d, ROOTINO, size - 1);
          assert k / 512 == (size - 1) / 512;
        }
      }
    } else {
      assert Ref(SB, d, DataSlot(ROOTINO, size / BSIZE)) == 0;
      assert !Mapped(SB, d', ROOTINO, size);
    }
  }

  lemma NothingYet(d: Disk, owner: map<nat, Slot>)
    requires Own(SB, d, owner, {}) && owner == map[]
    ensures CleanEnd(SB, d, ROOTINO)
  {
    hide BitsMatch, Ref;
  }

  method MakeRoot(img: Image) returns (fits: bool)
    requires img.Valid() && img.Synced() && img.freeinode == 1 && img.owner == map[]
    modifies img
    ensures !fits ==> img.freeblock + 2 > SB.size
    ensures fits ==> img.Valid() && img.Synced() && Shape(SB, img.View()) && img.freeinode == 2
    ensures fits ==> |old(img.meta)| == NINODES && img.meta == old(img.meta)[ROOTINO := Meta(T_DIR, 0, 0, 1)]
    ensures fits ==> NoHoles(SB, img.View(), ROOTINO) && Content(SB, img.View(), ROOTINO) == Entries([])
    ensures fits ==> CleanEnd(SB, img.View(), ROOTINO)
  {
    hide Own, NoHoles, BitmapFor, ByteAt, Mapped, Dirent, Saved;
    OwnFacts(SB, img.View(), img.owner, {});
    assert CleanEnd(SB, img.View(), ROOTINO) by { NothingYet(img.View(), img.owner); }
    var root := img.Ialloc(T_DIR);
    fits := img.Iappend(root, Dirent(root, [DOT]));         // "."
    if !fits { return; }
    fits := img.Iappend(root, Dirent(root, [DOT, DOT]));     // ".."
  }

  /** The first inodes after the root are the files. */
  ghost predicate Holds(d: Disk, files: seq<seq<byte>>)
    requires Shape(SB, d) && |files| + 2 <= NINODES
  {
    forall n :: 2 <= n < |files| + 2 ==> NoHoles(SB, d, n) && Content(SB, d, n) == files[n - 2]
  }

  ghost predicate MetaFor(meta: seq<Meta>, files: nat) {
    |meta| == NINODES && forall n :: 0 <= n < NINODES ==> meta[n] == MetaOf(files, n)
  }

  lemma HoldsOne(d: Disk, d': Disk, files: seq<seq<byte>>, i: nat)
    requires Shape(SB, d) && Shape(SB, d') && i < |files| && |files| + 2 <= NINODES && Holds(d, files[..i])
    requires NoHoles(SB, d', i + 2) && Content(SB, d', i + 2) == files[i]
    requires forall n :: 0 <= n < NINODES && n != ROOTINO && n != i + 2 ==> SameFile(SB, d, d', n)
    ensures Holds(d', files[..i + 1])
  {
    hide Content, NoHoles;
    forall n | 2 <= n < i + 3
      ensures NoHoles(SB, d', n) && Content(SB, d', n) == files[..i + 1][n - 2]
    {
      if n != i + 2 { assert SameFile(SB, d, d', n); }
    }
  }

  lemma HoldsNone(d: Disk, files: seq<seq<byte>>)
    requires Shape(SB, d) && files == []
    ensures Holds(d, files)
  {
  }

  lemma MetaOne(meta: seq<Meta>, i: nat)
    requires MetaFor(meta, i) && i + 2 < NINODES
    ensures MetaFor(meta[i + 2 := Meta(T_FILE, 0, 0, 1)], i + 1)
  {
  }

  lemma EntriesOne(names: seq<seq<byte>>, i: nat)
    requires i < |names| && |names| + 2 <= NINODES
    ensures Entries(names[..i + 1]) == Entries(names[..i]) + Dirent(i + 2, Stripped(names[i]))
  {
    hide Dirent, Stripped;
    assert names[..i + 1][..i] == names[..i];
  }

  /** The loop of main() over its arguments. */
  method AddFiles(img: Image, names: seq<seq<byte>>, files: seq<seq<byte>>) returns (fits: bool)
    requires img.Valid() && img.Synced() && img.freeinode == 2 && |names| == |files| && |files| + 2 <= NINODES
    requires NoHoles(SB, img.View(), ROOTINO) && Content(SB, img.View(), ROOTINO) == Entries([])
    requires CleanEnd(SB, img.View(), ROOTINO) && MetaFor(img.meta, 0)
    modifies img
    ensures !fits ==> img.freeblock + 2 > SB.size || (exists f :: f in files && |f| > MAXBYTES) || exists f :: f in names && SLASH in f
    ensures fits ==> img.Valid() && img.Synced() && Shape(SB, img.View()) && ROOTINO < img.freeinode
    ensures fits ==> NoHoles(SB, img.View(), ROOTINO) && CleanEnd(SB, img.View(), ROOTINO)
    ensures fits ==> Content(SB, img.View(), ROOTINO) == Entries(names) && Holds(img.View(), files) && MetaFor(img.meta, |files|)
  {
    hide Own, NoHoles, BitmapFor, Ref, ByteAt, Mapped, Dirent, CleanEnd, Saved, SameFile, Holds, MetaFor, Entries, Stripped;
    OwnFacts(SB, img.View(), img.owner, {});
    fits := true;
    var i := 0;
    assert names[..0] == [] && Holds(img.View(), files[..0]) by { HoldsNone(img.View(), files[..0]); }
    while i < |files|
      invariant 0 <= i <= |files| && img.Valid() && img.Synced() && img.freeinode == i + 2 && Shape(SB, img.View())
      invariant NoHoles(SB, img.View(), ROOTINO) && CleanEnd(SB, img.View(), ROOTINO)
      invariant Content(SB, img.View(), ROOTINO) == Entries(names[..i])
      invariant Holds(img.View(), files[..i]) && MetaFor(img.meta, i)
    {
      ghost var d := img.View();
      ghost var meta := img.meta;
      assert FileOk(d, ROOTINO) by { SmallFile(SB, d, ROOTINO); }
      fits := img.AddFile(names[i], files[i]);
      if !fits { return; }
      EntriesOne(names, i);
      MetaOne(meta, i);
      HoldsOne(d, img.View(), files, i);
      i := i + 1;
    }
    assert names[..|files|] == names && files[..|files|] == files;
  }

  /** What mkfs promises of an image. */
  ghost predicate Made(d: Disk, owner: map<nat, Slot>, meta: seq<Meta>, table: seq<Block>, names: seq<seq<byte>>, files: seq<seq<byte>>)
    requires |names| == |files| && |files| + 2 <= NINODES
  {
    && Own(SB, d, owner, {}) && Shape(SB, d) && Saved(table, meta, d.inodes)
    && MetaFor(meta, |files|) && Holds(d, files)
    && FileOk(d, ROOTINO) && Content(SB, d, ROOTINO) == RootBytes(names)
    && (NoHoles(SB, d, ROOTINO) <==> (16 * (|files| + 2)) % BSIZE != 0)
  }

  lemma SmallRoot(files: nat)
    requires files + 2 <= NINODES
    ensures 16 * (files + 2) < MAXBYTES
    ensures (16 * (files + 2) / BSIZE + 1) * BSIZE == (files + 2) / 32 * BSIZE + BSIZE
  {
    assert 16 * (files + 2) / 512 == (files + 2) / 32;
  }

  lemma Rounded(d: Disk, d': Disk, names: seq<seq<byte>>, files: seq<seq<byte>>)
    requires Shape(SB, d) && |names| == |files| && |files| + 2 <= NINODES
    requires NoHoles(SB, d, ROOTINO) && CleanEnd(SB, d, ROOTINO) && Content(SB, d, ROOTINO) == Entries(names)
    requires Holds(d, files)
    requires var size := d.inodes[ROOTINO].size;
             d' == d.(inodes := d.inodes[ROOTINO := d.inodes[ROOTINO].(size := (size / BSIZE + 1) * BSIZE)])
    ensures Shape(SB, d') && FileOk(d', ROOTINO) && Content(SB, d', ROOTINO) == RootBytes(names)
    ensures Holds(d', files)
    ensures NoHoles(SB, d', ROOTINO) <==> (16 * (|files| + 2)) % BSIZE != 0
  {
    hide NoHoles, Ref, ByteAt, Mapped, Dirent, Clean, Entries;
    SmallRoot(|names|);
    RootHole(d, d');
    SizeShape(SB, d, d', ROOTINO);
    assert OthersSame(SB, d, d', ROOTINO);
    forall n | 2 <= n < |files| + 2
      ensures NoHoles(SB, d', n) && Content(SB, d', n) == files[n - 2]
    {
      OtherContent(SB, d, d', ROOTINO, n);
    }
  }

  /** All of mkfs.  If everything fits, the image satisfies fs.c's block ownership; its inode blocks hold the type, link
      count, size and addresses of every inode; every file reads back as the bytes given; and the root directory lists
      the files, padded with zeroes, without a hole unless its 16-byte entries exactly fill its blocks. */
  method MakeImage(names: seq<seq<byte>>, files: seq<seq<byte>>) returns (fits: bool, img: Image)
    requires |names| == |files| && |files| + 2 <= NINODES
    ensures !fits ==> img.freeblock + 2 > SB.size || (exists f :: f in files && |f| > MAXBYTES) || exists f :: f in names && SLASH in f
    ensures fits ==> Made(Disk(img.blocks, img.inodes), img.owner, img.meta, img.table, names, files)
  {
    hide Own, NoHoles, BitmapFor, Ref, ByteAt, Mapped, Dirent, Clean, Saved;
    img := new Image();
    fits := MakeRoot(img);
    if !fits { return; }
    fits := AddFiles(img, names, files);
    if !fits { return; }
    ghost var d := img.View();
    SmallRoot(|names|);
    img.FixRoot();
    OwnFacts(SB, img.View(), img.owner, {});
    Rounded(d, img.View(), names, files);
    img.Balloc();
  }

  lemma ShapeSizes(sb: Super, d: Disk)
    requires Shape(sb, d)
    ensures |d.inodes| == sb.ninodes
  {
  }

  lemma ContentLength(sb: Super, d: Disk, ino: nat)
    requires Shape(sb, d) && ino < sb.ninodes
    ensures ino < |d.inodes| && |Content(sb, d, ino)| == d.inodes[ino].size
  {
  }

  /** Make an image, mount it from its blocks, and read n bytes at off of an inode: they are the bytes given to mkfs, or
      the entries of the root directory.  Only a read of the root directory can allocate, and only where it has its hole. */
  method ReadBack(names: seq<seq<byte>>, files: seq<seq<byte>>, ino: nat, off: nat, n: nat)
    returns (fits: bool, ok: bool, r: int, dst: seq<byte>)
    requires |names| == |files| && |files| + 2 <= NINODES && ROOTINO <= ino < |files| + 2 && off < UINT && n < UINT
    ensures var c := if ino == ROOTINO then RootBytes(names) else files[ino - 2];
            && (fits ==> (r == -1 <==> off > |c| || off + n >= UINT))
            && (fits && ok && r != -1 ==> r == |dst| && dst == c[off..Min(off + n, |c|)])
            && (fits && (ino != ROOTINO || (16 * (|files| + 2)) % BSIZE != 0) ==> ok)
  {
    hide Own, NoHoles, Shape, Saved, RootBytes, Content;
    var img;
    fits, img := MakeImage(names, files);
    if !fits { return fits, true, 0, []; }
    ghost var d := Disk(img.blocks, img.inodes);
    OwnFacts(SB, d, img.owner, {});
    SavedReads(img.table, img.meta, img.inodes);
    ShapeSizes(SB, d);
    var fs := new FileSys(SB, img.blocks, img.table, img.owner);
    ghost var c := if ino == ROOTINO then RootBytes(names) else files[ino - 2];
    assert Content(SB, d, ino) == c;
    if ino != ROOTINO { SmallFile(SB, d, ino); }
    ContentLength(SB, d, ino);
    ok, r, dst := Readi(fs, ino, off, n);
  }
}
