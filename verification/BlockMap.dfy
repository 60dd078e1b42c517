/** Who owns which disk block: the free bitmap, the direct and indirect addresses of the inodes, and the
    steps by which fs.c changes them.  A slot is one place that can hold a block number. */
module BlockMap {
  import opened Common
  import opened DiskFormat

  /** The superblock.  The first size - nblocks blocks are metadata: boot, super, log, inodes, bitmap. */
  datatype Super = Super(size: nat, nblocks: nat, ninodes: nat, inodestart: nat, bmapstart: nat)

  function DataStart(sb: Super): int {
    sb.size - sb.nblocks
  }

  function BBlock(sb: Super, b: nat): nat {
    b / BPB + sb.bmapstart
  }

  function IBlock(sb: Super, ino: nat): nat {
    ino / IPB + sb.inodestart
  }

  ghost predicate SuperOk(sb: Super) {
    && sb.size < UINT
    && sb.inodestart + sb.ninodes / IPB < sb.bmapstart
    && sb.bmapstart + sb.size / BPB < DataStart(sb)
  }

  datatype Inode = Inode(size: nat, addrs: seq<nat>)

  /** All blocks as the cache shows them, and the inodes as the kernel holds them. */
  datatype Disk = Disk(blocks: seq<Block>, inodes: seq<Inode>)

  datatype Slot = Direct(ino: nat, i: nat) | Indirect(ino: nat) | Entry(ino: nat, j: nat)

  ghost predicate InodeShape(sb: Super, ip: Inode) {
    |ip.addrs| == NDIRECT + 1 && forall i :: 0 <= i <= NDIRECT ==> ip.addrs[i] < sb.size
  }

  ghost predicate Shape(sb: Super, d: Disk) {
    && SuperOk(sb)
    && |d.blocks| == sb.size && |d.inodes| == sb.ninodes
    && (forall b :: 0 <= b < sb.size ==> |d.blocks[b]| == BSIZE)
    && (forall n :: 0 <= n < sb.ninodes ==> InodeShape(sb, d.inodes[n]))
  }

  predicate SlotOk(sb: Super, s: Slot) {
    && s.ino < sb.ninodes
    && (s.Direct? ==> s.i < NDIRECT)
    && (s.Entry? ==> s.j < NINDIRECT)
  }

  /** The block number a slot holds; 0 means none. */
  ghost function Ref(sb: Super, d: Disk, s: Slot): nat
    requires Shape(sb, d) && SlotOk(sb, s)
  {
    var addrs := d.inodes[s.ino].addrs;
    match s
    case Direct(_, i) => addrs[i]
    case Indirect(_) => addrs[NDIRECT]
    case Entry(_, j) => if addrs[NDIRECT] == 0 then 0 else Word(d.blocks[addrs[NDIRECT]], j)
  }

  /** The bitmap bit of block b. */
  predicate Used(sb: Super, blocks: seq<Block>, b: nat)
    requires |blocks| == sb.size && b < sb.size && BBlock(sb, b) < sb.size && |blocks[BBlock(sb, b)]| == BSIZE
  {
    Bit(blocks[BBlock(sb, b)][b % BPB / 8], b % 8)
  }

  lemma BBlockLow(sb: Super, b: nat)
    requires SuperOk(sb) && b < sb.size
    ensures sb.bmapstart <= BBlock(sb, b) < DataStart(sb)
  {
    assert b / BPB <= sb.size / BPB;
  }

  /** Metadata and the given blocks are marked in use, and no others. */
  ghost predicate BitsMatch(sb: Super, blocks: seq<Block>, taken: set<nat>)
    requires SuperOk(sb) && |blocks| == sb.size && forall b :: 0 <= b < sb.size ==> |blocks[b]| == BSIZE
  {
    forall b :: 0 <= b < sb.size ==>
      (BBlockLow(sb, b); Used(sb, blocks, b) <==> b < DataStart(sb) || b in taken)
  }

  /** Block ownership.  `owner` names the one slot that holds each owned block; `pending` are blocks
      allocated and not yet stored in a slot. */
  ghost predicate Own(sb: Super, d: Disk, owner: map<nat, Slot>, pending: set<nat>) {
    && Shape(sb, d)
    && (forall b :: b in owner ==> DataStart(sb) <= b < sb.size && SlotOk(sb, owner[b]) && Ref(sb, d, owner[b]) == b)
    && (forall s :: SlotOk(sb, s) && Ref(sb, d, s) != 0 ==> Ref(sb, d, s) in owner && owner[Ref(sb, d, s)] == s)
    && (forall b :: b in pending ==> DataStart(sb) <= b < sb.size && b !in owner)
    && BitsMatch(sb, d.blocks, owner.Keys + pending)
  }

  /** With nothing pending, a bit is set iff the block is metadata or is held by exactly one slot. */
  lemma ExactlyOnce(sb: Super, d: Disk, owner: map<nat, Slot>, b: nat)
    requires Own(sb, d, owner, {}) && b < sb.size
    ensures BBlock(sb, b) < sb.size
    ensures Used(sb, d.blocks, b) <==> b < DataStart(sb) || exists s :: SlotOk(sb, s) && Ref(sb, d, s) == b && b != 0
    ensures forall s, t :: SlotOk(sb, s) && SlotOk(sb, t) && Ref(sb, d, s) == Ref(sb, d, t) != 0 ==> s == t
  {
    BBlockLow(sb, b);
    if b in owner { assert Ref(sb, d, owner[b]) == b; }
  }

  // ---- The steps ----

  /** The bitmap with the bit of b set or cleared. */
  function MarkBit(sb: Super, blocks: seq<Block>, b: nat, on: bool): (r: seq<Block>)
    requires |blocks| == sb.size && b < sb.size && BBlock(sb, b) < sb.size && |blocks[BBlock(sb, b)]| == BSIZE
    ensures |r| == |blocks| && |r[BBlock(sb, b)]| == BSIZE
  {
    var m: Block := blocks[BBlock(sb, b)];
    var x: byte := WithBit(m[b % BPB / 8], b % 8, on);
    blocks[BBlock(sb, b) := m[b % BPB / 8 := x]]
  }

  lemma SamePlace(b: nat, c: nat)
    requires c / BPB == b / BPB && c % BPB / 8 == b % BPB / 8 && c % 8 == b % 8
    ensures b == c
  {
    assert BPB == 4096;
    var q, r := b / 4096, c % 4096 / 8;
    assert b == 4096 * q + 8 * r + b % 4096 % 8 && c == 4096 * q + 8 * r + c % 4096 % 8;
  }

  lemma MarkBitOnly(sb: Super, blocks: seq<Block>, b: nat, on: bool, c: nat)
    requires SuperOk(sb) && |blocks| == sb.size && forall k :: 0 <= k < sb.size ==> |blocks[k]| == BSIZE
    requires b < sb.size && c < sb.size
    ensures BBlock(sb, b) < sb.size && BBlock(sb, c) < sb.size
    ensures Used(sb, MarkBit(sb, blocks, b, on), c) == if c == b then on else Used(sb, blocks, c)
  {
    BBlockLow(sb, b);
    BBlockLow(sb, c);
    hide Bit;
    if c / BPB == b / BPB && c % BPB / 8 == b % BPB / 8 && c % 8 == b % 8 {
      SamePlace(b, c);
    }
    assert c % BPB / 8 < BSIZE && b % BPB / 8 < BSIZE;
  }

  /** balloc's effect once it has chosen b. */
  ghost function Alloced(sb: Super, d: Disk, b: nat): Disk
    requires Shape(sb, d) && b < sb.size
  {
    BBlockLow(sb, b);
    d.(blocks := MarkBit(sb, d.blocks, b, true)[b := Zeroes()])
  }

  /** Slots depend on the inodes and on the indirect blocks only. */
  lemma RefFrame(sb: Super, d: Disk, d': Disk)
    requires Shape(sb, d) && Shape(sb, d') && d'.inodes == d.inodes
    requires forall s :: SlotOk(sb, s) && s.Indirect? && Ref(sb, d, s) != 0 ==>
                           d'.blocks[Ref(sb, d, s)] == d.blocks[Ref(sb, d, s)]
    ensures forall s :: SlotOk(sb, s) ==> Ref(sb, d', s) == Ref(sb, d, s)
  {
    forall s | SlotOk(sb, s)
      ensures Ref(sb, d', s) == Ref(sb, d, s)
    {
      var ind := Indirect(s.ino);
      assert SlotOk(sb, ind);
      assert Ref(sb, d, ind) == d.inodes[s.ino].addrs[NDIRECT];
    }
  }

  lemma BitsAfterAlloc(sb: Super, d: Disk, b: nat, taken: set<nat>)
    requires Shape(sb, d) && DataStart(sb) <= b < sb.size && BitsMatch(sb, d.blocks, taken)
    ensures Shape(sb, Alloced(sb, d, b)) && BitsMatch(sb, Alloced(sb, d, b).blocks, taken + {b})
    ensures forall c :: DataStart(sb) <= c < sb.size && c != b ==> Alloced(sb, d, b).blocks[c] == d.blocks[c]
  {
    hide Bit;
    BBlockLow(sb, b);
    var marked := MarkBit(sb, d.blocks, b, true);
    var blocks := Alloced(sb, d, b).blocks;
    forall c | 0 <= c < sb.size
      ensures BBlock(sb, c) < sb.size && Used(sb, blocks, c) == (c == b || Used(sb, d.blocks, c))
    {
      BBlockLow(sb, c);
      MarkBitOnly(sb, d.blocks, b, true, c);
      assert blocks[BBlock(sb, c)] == marked[BBlock(sb, c)];
    }
  }

  /** Allocating a free block keeps ownership, with that block pending. */
  lemma AllocKeeps(sb: Super, d: Disk, owner: map<nat, Slot>, pending: set<nat>, b: nat)
    requires Own(sb, d, owner, pending) && DataStart(sb) <= b < sb.size
    requires b !in owner && b !in pending
    ensures Own(sb, Alloced(sb, d, b), owner, pending + {b})
    ensures forall s :: SlotOk(sb, s) ==> Ref(sb, Alloced(sb, d, b), s) == Ref(sb, d, s)
  {
    hide BitsMatch;
    var d' := Alloced(sb, d, b);
    BitsAfterAlloc(sb, d, b, owner.Keys + pending);
    assert owner.Keys + pending + {b} == owner.Keys + (pending + {b});
    RefFrame(sb, d, d');
  }

  /** Store block number b in slot s. */
  ghost function Attach(sb: Super, d: Disk, s: Slot, b: nat): Disk
    requires Shape(sb, d) && SlotOk(sb, s) && b < sb.size
    requires s.Entry? ==> d.inodes[s.ino].addrs[NDIRECT] != 0
  {
    var ip := d.inodes[s.ino];
    match s
    case Direct(n, i) => d.(inodes := d.inodes[n := ip.(addrs := ip.addrs[i := b])])
    case Indirect(n) => d.(inodes := d.inodes[n := ip.(addrs := ip.addrs[NDIRECT := b])])
    case Entry(n, j) =>
      d.(blocks := d.blocks[ip.addrs[NDIRECT] := PutWord(d.blocks[ip.addrs[NDIRECT]], j, b)])
  }

  lemma AttachShape(sb: Super, d: Disk, s: Slot, b: nat)
    requires Shape(sb, d) && SlotOk(sb, s) && b < sb.size
    requires s.Entry? ==> d.inodes[s.ino].addrs[NDIRECT] != 0
    ensures Shape(sb, Attach(sb, d, s, b))
  {
    var d' := Attach(sb, d, s, b);
    forall n | 0 <= n < sb.ninodes
      ensures InodeShape(sb, d'.inodes[n])
    {
      assert InodeShape(sb, d.inodes[n]);
    }
  }

  /** Storing into one slot changes what that slot holds and nothing else, provided no two inodes share
      an indirect block and a fresh indirect block is all zeroes. */
  lemma AttachRefs(sb: Super, d: Disk, s: Slot, b: nat, t: Slot)
    requires Shape(sb, d) && SlotOk(sb, s) && 0 < b < sb.size && SlotOk(sb, t)
    requires s.Entry? ==> d.inodes[s.ino].addrs[NDIRECT] != 0
    requires s.Indirect? ==> Ref(sb, d, s) == 0 && d.blocks[b] == Zeroes()
    requires forall m, n :: 0 <= m < n < sb.ninodes && Ref(sb, d, Indirect(m)) == Ref(sb, d, Indirect(n)) ==>
                              Ref(sb, d, Indirect(m)) == 0
    ensures Shape(sb, Attach(sb, d, s, b))
    ensures Ref(sb, Attach(sb, d, s, b), t) == if t == s then b else Ref(sb, d, t)
  {
    AttachShape(sb, d, s, b);
    var d' := Attach(sb, d, s, b);
    var ind := d.inodes[s.ino].addrs[NDIRECT];
    if s.Entry? && t.Entry? {
      if t.ino == s.ino {
        WordChanges(d.blocks[ind], s.j, b, t.j);
      } else {
        assert Ref(sb, d, Indirect(s.ino)) == ind;
        assert Ref(sb, d, Indirect(t.ino)) == d.inodes[t.ino].addrs[NDIRECT];
      }
    } else if s.Indirect? && t.Entry? && t.ino == s.ino {
      ZeroWords(t.j);
    }
  }

  lemma IndirectsApart(sb: Super, d: Disk, owner: map<nat, Slot>, pending: set<nat>)
    requires Own(sb, d, owner, pending)
    ensures forall m, n :: 0 <= m < n < sb.ninodes && Ref(sb, d, Indirect(m)) == Ref(sb, d, Indirect(n)) ==>
                             Ref(sb, d, Indirect(m)) == 0
  {
  }

  lemma AttachBits(sb: Super, d: Disk, owner: map<nat, Slot>, pending: set<nat>, s: Slot, b: nat)
    requires Own(sb, d, owner, pending) && SlotOk(sb, s) && b in pending
    requires s.Entry? ==> Ref(sb, d, Indirect(s.ino)) != 0
    requires Shape(sb, Attach(sb, d, s, b))
    ensures BitsMatch(sb, Attach(sb, d, s, b).blocks, owner[b := s].Keys + (pending - {b}))
  {
    hide Bit;
    var d' := Attach(sb, d, s, b);
    assert owner[b := s].Keys + (pending - {b}) == owner.Keys + pending;
    forall c | 0 <= c < sb.size
      ensures BBlock(sb, c) < sb.size && Used(sb, d'.blocks, c) == Used(sb, d.blocks, c)
    {
      BBlockLow(sb, c);
      if s.Entry? {
        assert Ref(sb, d, Indirect(s.ino)) in owner;
      }
    }
  }

  lemma AttachOwners(sb: Super, d: Disk, owner: map<nat, Slot>, pending: set<nat>, s: Slot, b: nat)
    requires Own(sb, d, owner, pending) && SlotOk(sb, s) && b in pending && Ref(sb, d, s) == 0
    requires s.Entry? ==> Ref(sb, d, Indirect(s.ino)) != 0
    requires Shape(sb, Attach(sb, d, s, b))
    requires forall t :: SlotOk(sb, t) ==> Ref(sb, Attach(sb, d, s, b), t) == if t == s then b else Ref(sb, d, t)
    requires BitsMatch(sb, Attach(sb, d, s, b).blocks, owner[b := s].Keys + (pending - {b}))
    ensures Own(sb, Attach(sb, d, s, b), owner[b := s], pending - {b})
  {
    hide BitsMatch, Attach, Ref;
  }

  /** Storing a pending block in an empty slot makes the slot its owner. */
  lemma AttachKeeps(sb: Super, d: Disk, owner: map<nat, Slot>, pending: set<nat>, s: Slot, b: nat)
    requires Own(sb, d, owner, pending) && SlotOk(sb, s) && b in pending && Ref(sb, d, s) == 0
    requires s.Entry? ==> Ref(sb, d, Indirect(s.ino)) != 0
    requires s.Indirect? ==> d.blocks[b] == Zeroes()
    ensures Own(sb, Attach(sb, d, s, b), owner[b := s], pending - {b})
    ensures forall t :: SlotOk(sb, t) ==> Ref(sb, Attach(sb, d, s, b), t) == if t == s then b else Ref(sb, d, t)
  {
    hide BitsMatch, Attach;
    IndirectsApart(sb, d, owner, pending);
    AttachShape(sb, d, s, b);
    forall t | SlotOk(sb, t)
      ensures Ref(sb, Attach(sb, d, s, b), t) == if t == s then b else Ref(sb, d, t)
    {
      AttachRefs(sb, d, s, b, t);
    }
    AttachBits(sb, d, owner, pending, s, b);
    AttachOwners(sb, d, owner, pending, s, b);
  }

  /** Changing the contents of a data block leaves every slot and every bit alone. */
  lemma DataKeeps(sb: Super, d: Disk, owner: map<nat, Slot>, b: nat, data: Block)
    requires Own(sb, d, owner, {}) && b in owner && !owner[b].Indirect? && |data| == BSIZE
    ensures Own(sb, d.(blocks := d.blocks[b := data]), owner, {})
    ensures forall s :: SlotOk(sb, s) ==> Ref(sb, d.(blocks := d.blocks[b := data]), s) == Ref(sb, d, s)
  {
    hide Bit;
    var d' := d.(blocks := d.blocks[b := data]);
    RefFrame(sb, d, d');
    forall c | 0 <= c < sb.size
      ensures BBlock(sb, c) < sb.size && Used(sb, d'.blocks, c) == Used(sb, d.blocks, c)
    {
      BBlockLow(sb, c);
    }
  }

  /** Every block number in a slot is a data block. */
  lemma OwnFacts(sb: Super, d: Disk, owner: map<nat, Slot>, pending: set<nat>)
    requires Own(sb, d, owner, pending)
    ensures Shape(sb, d) && 0 < DataStart(sb)
    ensures forall s :: SlotOk(sb, s) && Ref(sb, d, s) != 0 ==>
                          DataStart(sb) <= Ref(sb, d, s) < sb.size && Ref(sb, d, s) in owner && owner[Ref(sb, d, s)] == s
    ensures forall b :: b in owner ==> DataStart(sb) <= b < sb.size
  {
    hide BitsMatch;
  }

  lemma AllocedBlocks(sb: Super, d: Disk, owner: map<nat, Slot>, b: nat)
    requires Own(sb, d, owner, {}) && DataStart(sb) <= b < sb.size && b !in owner
    ensures Alloced(sb, d, b).blocks[b] == Zeroes() && Alloced(sb, d, b).inodes == d.inodes
    ensures forall c :: c in owner ==> Alloced(sb, d, b).blocks[c] == d.blocks[c]
  {
    BitsAfterAlloc(sb, d, b, owner.Keys);
  }

  // ---- Truncation ----

  lemma BitsAfterFree(sb: Super, blocks: seq<Block>, b: nat, taken: set<nat>)
    requires SuperOk(sb) && |blocks| == sb.size && forall k :: 0 <= k < sb.size ==> |blocks[k]| == BSIZE
    requires DataStart(sb) <= b < sb.size && BitsMatch(sb, blocks, taken)
    ensures BBlock(sb, b) < DataStart(sb)
    ensures forall k :: 0 <= k < sb.size ==> |MarkBit(sb, blocks, b, false)[k]| == BSIZE
    ensures BitsMatch(sb, MarkBit(sb, blocks, b, false), taken - {b})
    ensures forall c :: DataStart(sb) <= c < sb.size ==> MarkBit(sb, blocks, b, false)[c] == blocks[c]
  {
    hide Used;
    BBlockLow(sb, b);
    forall c | 0 <= c < sb.size
      ensures BBlock(sb, c) < sb.size &&
              Used(sb, MarkBit(sb, blocks, b, false), c) == (c != b && Used(sb, blocks, c))
    {
      BBlockLow(sb, c);
      MarkBitOnly(sb, blocks, b, false, c);
    }
  }

  ghost predicate GoneSlot(s: Slot, i: nat, j: nat, all: bool) {
    match s
    case Direct(_, x) => x < i
    case Entry(_, y) => y < j
    case Indirect(_) => all
  }

  /** Blocks of file `ino` that itrunc has freed after i direct slots, j indirect entries and, if `all`, the
      indirect block itself. */
  ghost function Gone(owner: map<nat, Slot>, ino: nat, i: nat, j: nat, all: bool): set<nat> {
    set b | b in owner && owner[b].ino == ino && GoneSlot(owner[b], i, j, all)
  }

  /** One more slot of the file is passed. */
  lemma GoneStep(sb: Super, d: Disk, owner: map<nat, Slot>, s: Slot, i: nat, j: nat, all: bool,
                 i': nat, j': nat, all': bool)
    requires Own(sb, d, owner, {}) && SlotOk(sb, s)
    requires !GoneSlot(s, i, j, all) && GoneSlot(s, i', j', all')
    requires forall t :: SlotOk(sb, t) && t.ino == s.ino && t != s ==> GoneSlot(t, i, j, all) == GoneSlot(t, i', j', all')
    ensures Ref(sb, d, s) == 0 ==> Gone(owner, s.ino, i', j', all') == Gone(owner, s.ino, i, j, all)
    ensures Ref(sb, d, s) != 0 ==> Gone(owner, s.ino, i', j', all') == Gone(owner, s.ino, i, j, all) + {Ref(sb, d, s)}
    ensures Ref(sb, d, s) != 0 ==> Ref(sb, d, s) in owner.Keys - Gone(owner, s.ino, i, j, all)
  {
    hide BitsMatch;
    var g, g' := Gone(owner, s.ino, i, j, all), Gone(owner, s.ino, i', j', all');
    forall b | b in owner && owner[b].ino == s.ino
      ensures b in g' <==> b in g || (Ref(sb, d, s) != 0 && b == Ref(sb, d, s))
    {
      assert SlotOk(sb, owner[b]) && Ref(sb, d, owner[b]) == b;
    }
  }

  /** A file without an indirect block has no entries to free. */
  lemma NoEntries(sb: Super, d: Disk, owner: map<nat, Slot>, ino: nat)
    requires Own(sb, d, owner, {}) && ino < sb.ninodes && Ref(sb, d, Indirect(ino)) == 0
    ensures Gone(owner, ino, NDIRECT, NINDIRECT, true) == Gone(owner, ino, NDIRECT, 0, false)
  {
    hide BitsMatch;
    forall b | b in owner && owner[b].ino == ino
      ensures owner[b].Direct?
    {
      assert Ref(sb, d, owner[b]) == b;
    }
  }

  function NoAddrs(): seq<nat> {
    seq(NDIRECT + 1, i => 0)
  }

  /** The blocks of all other files. */
  ghost function Others(owner: map<nat, Slot>, ino: nat): map<nat, Slot> {
    map b | b in owner && owner[b].ino != ino :: owner[b]
  }

  /** After freeing exactly the blocks of one file and clearing its addresses, ownership holds without them. */
  lemma TruncKeeps(sb: Super, d: Disk, owner: map<nat, Slot>, ino: nat, blocks: seq<Block>)
    requires Own(sb, d, owner, {}) && ino < sb.ninodes && |blocks| == sb.size
    requires forall b :: 0 <= b < sb.size ==> |blocks[b]| == BSIZE
    requires forall c :: DataStart(sb) <= c < sb.size ==> blocks[c] == d.blocks[c]
    requires BitsMatch(sb, blocks, owner.Keys - Gone(owner, ino, NDIRECT, NINDIRECT, true))
    ensures Own(sb, Disk(blocks, d.inodes[ino := Inode(0, NoAddrs())]), Others(owner, ino), {})
  {
    hide BitsMatch;
    var d' := Disk(blocks, d.inodes[ino := Inode(0, NoAddrs())]);
    assert Others(owner, ino).Keys + {} == owner.Keys - Gone(owner, ino, NDIRECT, NINDIRECT, true);
    forall n | 0 <= n < sb.ninodes
      ensures InodeShape(sb, d'.inodes[n])
    {
      assert InodeShape(sb, d.inodes[n]);
    }
    forall s | SlotOk(sb, s)
      ensures Ref(sb, d', s) == if s.ino == ino then 0 else Ref(sb, d, s)
    {
      var ind := Indirect(s.ino);
      assert SlotOk(sb, ind) && Ref(sb, d, ind) == d.inodes[s.ino].addrs[NDIRECT];
    }
  }
}
