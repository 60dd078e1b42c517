/** The block allocator, the block map of an inode and its truncation (fs.c).  `blocks` is what bread shows,
    `inodes` and `meta` the in-memory inodes, `table` the inode blocks, byte by byte, that iupdate writes;
    `logged` collects the block numbers given to log_write.  A method that returns ok == false stands for
    panic("balloc: out of blocks"). */
module FileSystem {
  import opened Common
  import opened DiskFormat
  import opened BlockMap
  import opened InodeBlocks

  /** The slot that holds the bn-th block of a file. */
  function DataSlot(ino: nat, bn: nat): Slot {
    if bn < NDIRECT then Direct(ino, bn) else Entry(ino, bn - NDIRECT)
  }

  /** From d to d' the file may have gained its bn-th block (zeroed) and the indirect block that needs; every other slot,
      every inode size and the contents of every other data block are as before. */
  ghost predicate Grew(sb: Super, d: Disk, d': Disk, ino: nat, bn: nat)
    requires Shape(sb, d) && Shape(sb, d') && ino < sb.ninodes && bn < MAXFILE
  {
    var slot := DataSlot(ino, bn);
    && (forall s :: SlotOk(sb, s) && s != slot && s != Indirect(ino) ==> Ref(sb, d', s) == Ref(sb, d, s))
    && (bn < NDIRECT || Ref(sb, d, Indirect(ino)) != 0 ==> Ref(sb, d', Indirect(ino)) == Ref(sb, d, Indirect(ino)))
    && (Ref(sb, d, slot) != 0 ==> d' == d)
    && (Ref(sb, d, slot) == 0 ==> 0 < Ref(sb, d', slot) < sb.size && d'.blocks[Ref(sb, d', slot)] == Zeroes())
    && (forall n :: 0 <= n < sb.ninodes ==> d'.inodes[n].size == d.inodes[n].size)
    && (forall n :: 0 <= n < sb.ninodes && n != ino ==> d'.inodes[n] == d.inodes[n])
    && (forall s :: SlotOk(sb, s) && !s.Indirect? && 0 < Ref(sb, d, s) < sb.size ==>
          Ref(sb, d', s) == Ref(sb, d, s) && d'.blocks[Ref(sb, d, s)] == d.blocks[Ref(sb, d, s)])
  }

  /** Every block that changed was given to log_write; block 0 of the sequence is disk block `base`. */
  ghost predicate Covered(before: seq<Block>, after: seq<Block>, base: nat, logged: set<nat>) {
    |before| == |after| && forall b: nat :: b < |after| && after[b] != before[b] ==> base + b in logged
  }

  lemma CoveredThen(a: seq<Block>, b: seq<Block>, c: seq<Block>, base: nat, logged: set<nat>, logged': set<nat>)
    requires Covered(a, b, base, logged) && Covered(b, c, base, logged') && logged <= logged'
    ensures Covered(a, c, base, logged')
  {
  }

  lemma Mod8(k: nat, bi: nat)
    ensures (8 * k + bi) % 8 == bi % 8
  {
  }

  lemma Div4096(q: nat, bi: nat)
    requires bi < 4096
    ensures (4096 * q + bi) / 4096 == q && (4096 * q + bi) % 4096 == bi
  {
  }

  lemma InBlock(q: nat, base: nat, bi: nat)
    requires base == q * BPB && bi < BPB
    ensures (base + bi) / BPB == base / BPB && (base + bi) % BPB == bi && (base + bi) % 8 == bi % 8
  {
    Div4096(q, bi);
    Div4096(q, 0);
    Mod8(512 * q, bi);
  }

  /** A new indirect block first, then the entry. */
  lemma GrewTwice(sb: Super, d: Disk, d1: Disk, d2: Disk, owner: map<nat, Slot>, ino: nat, bn: nat)
    requires Own(sb, d, owner, {}) && Shape(sb, d1) && Shape(sb, d2) && ino < sb.ninodes && NDIRECT <= bn < MAXFILE
    requires Grew(sb, d1, d2, ino, bn)
    requires d1 == d || (
               && Ref(sb, d, Indirect(ino)) == 0 && Ref(sb, d1, DataSlot(ino, bn)) == 0
               && (forall s :: SlotOk(sb, s) && s != Indirect(ino) ==> Ref(sb, d1, s) == Ref(sb, d, s))
               && (forall n :: 0 <= n < sb.ninodes ==> d1.inodes[n].size == d.inodes[n].size)
               && (forall n :: 0 <= n < sb.ninodes && n != ino ==> d1.inodes[n] == d.inodes[n])
               && (forall c :: c in owner ==> d1.blocks[c] == d.blocks[c]))
    ensures Grew(sb, d, d2, ino, bn)
  {
    if d1 != d {
      OwnFacts(sb, d, owner, {});
      hide Own;
      assert SlotOk(sb, DataSlot(ino, bn));
    }
  }

  /** The inodes that the inode blocks hold. */
  function Inodes(table: seq<Block>, n: nat): seq<Inode>
    requires TableOk(table, n)
  {
    seq(n, i requires 0 <= i < n => assert i / IPB <= n / IPB; At(table, i).inode)
  }

  function Metas(table: seq<Block>, n: nat): seq<Meta>
    requires TableOk(table, n)
  {
    seq(n, i requires 0 <= i < n => assert i / IPB <= n / IPB; At(table, i).meta)
  }

  lemma TableReads(table: seq<Block>, n: nat)
    requires TableOk(table, n)
    ensures Saved(table, Metas(table, n), Inodes(table, n))
    ensures forall i :: 0 <= i < n ==> MetaOk(Metas(table, n)[i])
  {
    forall i: nat | i < n
      ensures i / IPB < |table| && At(table, i) == Dinode(Metas(table, n)[i], Inodes(table, n)[i]) && MetaOk(At(table, i).meta)
    {
      assert i / IPB <= n / IPB;
    }
  }

  lemma MarkBitCovered(sb: Super, blocks: seq<Block>, b: nat)
    requires |blocks| == sb.size && b < sb.size && BBlock(sb, b) < sb.size && |blocks[BBlock(sb, b)]| == BSIZE
    ensures forall c: nat :: c < sb.size && c != BBlock(sb, b) ==> MarkBit(sb, blocks, b, true)[c] == blocks[c]
  {
  }

  class FileSys {
    const sb: Super
    var blocks: seq<Block>
    var inodes: seq<Inode>
    var meta: seq<Meta>
    var table: seq<Block>                // blocks sb.inodestart and on

    ghost var owner: map<nat, Slot>
    ghost var logged: set<nat>

    ghost function Now(): Disk
      reads this
    {
      Disk(blocks, inodes)
    }

    ghost predicate Valid()
      reads this
    {
      Own(sb, Now(), owner, {}) && Records()
    }

    ghost predicate Records()
      reads this`meta, this`table
    {
      |meta| == sb.ninodes && (forall n :: 0 <= n < sb.ninodes ==> MetaOk(meta[n])) && TableOk(table, sb.ninodes)
    }

    /** The inode blocks hold what is in memory. */
    ghost predicate Synced()
      reads this`inodes, this`meta, this`table
    {
      Saved(table, meta, inodes)
    }

    /** A mounted file system, with every inode read from its inode block as ilock does it. */
    constructor (super: Super, image: seq<Block>, inodeBlocks: seq<Block>, ghost own: map<nat, Slot>)
      requires TableOk(inodeBlocks, super.ninodes) && Own(super, Disk(image, Inodes(inodeBlocks, super.ninodes)), own, {})
      ensures Valid() && Synced() && sb == super && Now() == Disk(image, Inodes(inodeBlocks, super.ninodes)) && logged == {}
    {
      sb := super;
      blocks, table := image, inodeBlocks;
      inodes, meta := Inodes(inodeBlocks, super.ninodes), Metas(inodeBlocks, super.ninodes);
      owner, logged := own, {};
      new;
      TableReads(inodeBlocks, super.ninodes);
    }

    /** balloc's inner loop: the first free bit of the bitmap block that starts at `base`. */
    method ScanBitmap(base: nat, ghost q: nat) returns (b: nat)
      requires Shape(sb, Now()) && base < sb.size && base == q * BPB
      ensures base <= b <= base + BPB && b <= sb.size
      ensures forall c :: base <= c < b ==> BBlock(sb, c) < sb.size && Used(sb, blocks, c)
      ensures b < base + BPB && b < sb.size ==> BBlock(sb, b) < sb.size && !Used(sb, blocks, b)
    {
      hide Bit;
      BBlockLow(sb, base);
      var bp := blocks[BBlock(sb, base)];
      var bi := 0;
      while bi < BPB && base + bi < sb.size
        invariant 0 <= bi <= BPB && base + bi <= sb.size
        invariant forall c :: base <= c < base + bi ==> BBlock(sb, c) < sb.size && Used(sb, blocks, c)
      {
        BBlockLow(sb, base + bi);
        InBlock(q, base, bi);
        if !Bit(bp[bi / 8], bi % 8) { return base + bi; }
        bi := bi + 1;
      }
      b := base + bi;
    }

    /** balloc's outer loop, over the bitmap blocks. */
    method FirstFree() returns (b: nat)
      requires Shape(sb, Now())
      ensures b <= sb.size
      ensures forall c :: 0 <= c < b ==> BBlock(sb, c) < sb.size && Used(sb, blocks, c)
      ensures b < sb.size ==> BBlock(sb, b) < sb.size && !Used(sb, blocks, b)
    {
      hide Used, InodeShape;
      ghost var k := 0;
      b := 0;
      while b < sb.size
        invariant b == k * BPB || b == sb.size
        invariant b <= sb.size
        invariant forall c :: 0 <= c < b ==> BBlock(sb, c) < sb.size && Used(sb, blocks, c)
        decreases sb.size - b
      {
        var base := b;
        b := ScanBitmap(base, k);
        if b < base + BPB && b < sb.size { return; }
        k := k + 1;
      }
    }

    /** balloc: the first free block, marked in use and zeroed; fails exactly when no block is free. */
    method Balloc(ghost pending: set<nat>) returns (ok: bool, b: nat)
      requires Own(sb, Now(), owner, pending)
      modifies this`blocks, this`logged
      ensures ok ==> DataStart(sb) <= b < sb.size && b !in owner && b !in pending
      ensures ok ==> Now() == Alloced(sb, old(Now()), b) && logged == old(logged) + {BBlock(sb, b), b}
      ensures ok ==> forall c :: 0 <= c < b ==> c < DataStart(sb) || c in owner || c in pending
      ensures !ok ==> blocks == old(blocks) && forall c :: DataStart(sb) <= c < sb.size ==> c in owner || c in pending
      ensures Covered(old(blocks), blocks, 0, logged)
    {
      hide Used, MarkBit, Ref, InodeShape;
      b := FirstFree();
      ok := b < sb.size;
      if ok {
        MarkBitCovered(sb, blocks, b);
        blocks := MarkBit(sb, blocks, b, true);
        logged := logged + {BBlock(sb, b)};
        blocks := blocks[b := Zeroes()];           // bzero
        logged := logged + {b};
      }
    }

    /** Allocate a block and store its number in an empty slot: the three allocations of bmap. */
    method Grow(s: Slot) returns (ok: bool, b: nat)
      requires Valid() && SlotOk(sb, s) && Ref(sb, Now(), s) == 0
      requires s.Entry? ==> Ref(sb, Now(), Indirect(s.ino)) != 0
      modifies this`blocks, this`inodes, this`owner, this`logged
      ensures !ok ==> forall c :: DataStart(sb) <= c < sb.size ==> c in owner
      ensures ok ==> Valid() && owner == old(owner)[b := s] && 0 < b < sb.size && b !in old(owner)
      ensures ok ==> forall n :: 0 <= n < sb.ninodes ==> inodes[n].size == old(inodes)[n].size
      ensures ok ==> forall n :: 0 <= n < sb.ninodes && n != s.ino ==> inodes[n] == old(inodes)[n]
      ensures ok ==> forall t :: SlotOk(sb, t) ==> Ref(sb, Now(), t) == if t == s then b else Ref(sb, old(Now()), t)
      ensures ok ==> blocks[b] == Zeroes()
      ensures ok ==> forall c :: c in old(owner) && !(s.Entry? && c == Ref(sb, old(Now()), Indirect(s.ino))) ==>
                                   blocks[c] == old(blocks)[c]
      ensures ok ==> logged == old(logged) + {BBlock(sb, b), b} +
                       if s.Entry? then {Ref(sb, old(Now()), Indirect(s.ino))} else {}
      ensures ok ==> Covered(old(blocks), blocks, 0, logged)
    {
      hide Own, Alloced, BitsMatch, MarkBit, Records;
      ghost var d0 := Now();
      OwnFacts(sb, d0, owner, {});
      ok, b := Balloc({});
      if !ok { return; }
      ghost var d1 := Now();
      AllocKeeps(sb, d0, owner, {}, b);
      assert {} + {b} == {b};
      OwnFacts(sb, d1, owner, {b});
      AllocedBlocks(sb, d0, owner, b);
      AttachKeeps(sb, d1, owner, {b}, s, b);
      assert {b} - {b} == {};
      match s {
        case Direct(n, i) =>
          inodes := inodes[n := inodes[n].(addrs := inodes[n].addrs[i := b])];
        case Indirect(n) =>
          inodes := inodes[n := inodes[n].(addrs := inodes[n].addrs[NDIRECT := b])];
        case Entry(n, j) =>
          var ind := inodes[n].addrs[NDIRECT];
          blocks := blocks[ind := PutWord(blocks[ind], j, b)];
          logged := logged + {ind};
      }
      owner := owner[b := s];
    }

    /** Blocks bmap may log: the new block, its bitmap block, the indirect block and its bitmap block. */
    ghost function BmapLogs(ino: nat, bn: nat, addr: nat): set<nat>
      requires Shape(sb, Now()) && ino < sb.ninodes
      reads this
    {
      var ind := Ref(sb, Now(), Indirect(ino));
      {addr, BBlock(sb, addr)} + if bn < NDIRECT then {} else {ind, BBlock(sb, ind)}
    }

    /** The entry of an indirect block that is there, with its block allocated if there is none. */
    method BmapEntry(ino: nat, bn: nat) returns (ok: bool, addr: nat)
      requires Valid() && ino < sb.ninodes && NDIRECT <= bn < MAXFILE && Ref(sb, Now(), Indirect(ino)) != 0
      modifies this`blocks, this`inodes, this`owner, this`logged
      ensures !ok ==> forall c :: DataStart(sb) <= c < sb.size ==> c in owner
      ensures ok ==> Valid() && Grew(sb, old(Now()), Now(), ino, bn)
      ensures ok ==> addr == Ref(sb, Now(), DataSlot(ino, bn)) && 0 < addr < sb.size
      ensures ok ==> Ref(sb, Now(), Indirect(ino)) == Ref(sb, old(Now()), Indirect(ino))
      ensures ok ==> old(logged) <= logged <= old(logged) + {addr, BBlock(sb, addr), Ref(sb, Now(), Indirect(ino))}
      ensures Ref(sb, old(Now()), DataSlot(ino, bn)) != 0 ==> ok && logged == old(logged)
      ensures ok ==> Covered(old(blocks), blocks, 0, logged)
    {
      hide Own, Records;
      OwnFacts(sb, Now(), owner, {});
      ok := true;
      assert inodes[ino].addrs[NDIRECT] == Ref(sb, Now(), Indirect(ino));
      addr := Word(blocks[inodes[ino].addrs[NDIRECT]], bn - NDIRECT);
      assert addr == Ref(sb, Now(), Entry(ino, bn - NDIRECT));
      if addr == 0 {
        ok, addr := Grow(Entry(ino, bn - NDIRECT));
        if ok { OwnFacts(sb, Now(), owner, {}); }
      }
    }

    /** bmap past the direct blocks: load the indirect block, allocating it if necessary. */
    method BmapIndirect(ino: nat, bn: nat) returns (ok: bool, addr: nat)
      requires Valid() && ino < sb.ninodes && NDIRECT <= bn < MAXFILE
      modifies this`blocks, this`inodes, this`owner, this`logged
      ensures !ok ==> forall c :: DataStart(sb) <= c < sb.size ==> c in owner
      ensures ok ==> Valid() && Grew(sb, old(Now()), Now(), ino, bn)
      ensures ok ==> addr == Ref(sb, Now(), DataSlot(ino, bn)) && 0 < addr < sb.size
      ensures ok ==> old(logged) <= logged <= old(logged) + BmapLogs(ino, bn, addr)
      ensures Ref(sb, old(Now()), DataSlot(ino, bn)) != 0 ==> ok && logged == old(logged)
      ensures ok ==> Covered(old(blocks), blocks, 0, logged)
    {
      hide Own, Records, Grew;
      ghost var d := Now();
      OwnFacts(sb, d, owner, {});
      ok, addr := true, 0;
      assert inodes[ino].addrs[NDIRECT] == Ref(sb, d, Indirect(ino));
      if inodes[ino].addrs[NDIRECT] == 0 {
        var ind;
        ok, ind := Grow(Indirect(ino));
        if !ok { return; }
        OwnFacts(sb, Now(), owner, {});
      }
      ghost var d1 := Now();
      ok, addr := BmapEntry(ino, bn);
      if ok {
        OwnFacts(sb, Now(), owner, {});
        GrewTwice(sb, d, d1, Now(), old(owner), ino, bn);
      }
    }

    /** bmap: the block of the file at bn, allocated if there is none. */
    method Bmap(ino: nat, bn: nat) returns (ok: bool, addr: nat)
      requires Valid() && ino < sb.ninodes && bn < MAXFILE
      modifies this`blocks, this`inodes, this`owner, this`logged
      ensures !ok ==> forall c :: DataStart(sb) <= c < sb.size ==> c in owner
      ensures ok ==> Valid() && Grew(sb, old(Now()), Now(), ino, bn)
      ensures ok ==> addr == Ref(sb, Now(), DataSlot(ino, bn)) && 0 < addr < sb.size
      ensures ok ==> old(logged) <= logged <= old(logged) + BmapLogs(ino, bn, addr)
      ensures Ref(sb, old(Now()), DataSlot(ino, bn)) != 0 ==> ok && logged == old(logged)
      ensures ok ==> Covered(old(blocks), blocks, 0, logged)
    {
      hide Own, Records;
      OwnFacts(sb, Now(), owner, {});
      if bn < NDIRECT {
        ok, addr := true, inodes[ino].addrs[bn];
        assert addr == Ref(sb, Now(), Direct(ino, bn));
        if addr == 0 {
          ok, addr := Grow(Direct(ino, bn));
          if ok { OwnFacts(sb, Now(), owner, {}); }
        }
      } else {
        ok, addr := BmapIndirect(ino, bn);
      }
    }

    /** bfree; panics exactly when the block is already free. */
    method Bfree(b: nat, ghost taken: set<nat>) returns (panicked: bool)
      requires Shape(sb, Now()) && DataStart(sb) <= b < sb.size && BitsMatch(sb, blocks, taken)
      modifies this`blocks, this`logged
      ensures panicked <==> b !in taken
      ensures Shape(sb, Now()) && BitsMatch(sb, blocks, taken - {b})
      ensures forall c :: DataStart(sb) <= c < sb.size ==> blocks[c] == old(blocks)[c]
      ensures !panicked ==> logged == old(logged) + {BBlock(sb, b)}
    {
      hide Bit, MarkBit;
      BBlockLow(sb, b);
      panicked := !Bit(blocks[BBlock(sb, b)][b % BPB / 8], b % 8);
      if panicked {
        assert taken - {b} == taken;
        return;
      }
      BitsAfterFree(sb, blocks, b, taken);
      blocks := MarkBit(sb, blocks, b, false);
      logged := logged + {BBlock(sb, b)};
    }

    /** iupdate: the inode block now holds the in-memory inode, byte for byte readable as such, and every other inode
        as before, those in the same block too. */
    method Iupdate(ino: nat)
      requires ino < sb.ninodes == |inodes| == |meta| && TableOk(table, sb.ninodes)
      requires DinodeOk(Dinode(meta[ino], inodes[ino]))
      modifies this`table, this`logged
      ensures TableOk(table, sb.ninodes) && logged == old(logged) + {IBlock(sb, ino)}
      ensures forall n: nat :: n < sb.ninodes ==>
                n / IPB < |table| && n / IPB < |old(table)|
                && At(table, n) == if n == ino then Dinode(meta[ino], inodes[ino]) else At(old(table), n)
      ensures table == Store(old(table), ino, Dinode(meta[ino], inodes[ino]))
      ensures Covered(old(table), table, sb.inodestart, logged)
    {
      hide Get, Put;
      StoreAt(table, sb.ninodes, ino, Dinode(meta[ino], inodes[ino]), ino);
      forall n: nat | n < sb.ninodes
        ensures n / IPB < |table| && At(Store(table, ino, Dinode(meta[ino], inodes[ino])), n)
                                   == if n == ino then Dinode(meta[ino], inodes[ino]) else At(table, n)
      {
        StoreAt(table, sb.ninodes, ino, Dinode(meta[ino], inodes[ino]), n);
      }
      table := Store(table, ino, Dinode(meta[ino], inodes[ino]));
      logged := logged + {IBlock(sb, ino)};
    }

    /** itrunc's loop over the direct blocks. */
    method TruncDirect(ino: nat) returns (panicked: bool)
      requires Valid() && ino < sb.ninodes
      modifies this`blocks, this`inodes, this`logged
      ensures !panicked
      ensures Shape(sb, Now()) && BitsMatch(sb, blocks, owner.Keys - Gone(owner, ino, NDIRECT, 0, false))
      ensures forall c :: DataStart(sb) <= c < sb.size ==> blocks[c] == old(blocks)[c]
      ensures inodes == old(inodes)[ino := inodes[ino]] && inodes[ino].size == old(inodes)[ino].size
      ensures inodes[ino].addrs == NoAddrs()[NDIRECT := old(inodes)[ino].addrs[NDIRECT]]
    {
      hide Own, BitsMatch, Gone, Records;
      panicked := false;
      ghost var d := Now();
      NothingGone(ino);
      OwnFacts(sb, d, owner, {});
      var i := 0;
      while i < NDIRECT
        invariant 0 <= i <= NDIRECT && Own(sb, d, owner, {}) && d == old(Now())
        invariant Shape(sb, Now()) && BitsMatch(sb, blocks, owner.Keys - Gone(owner, ino, i, 0, false))
        invariant forall c :: DataStart(sb) <= c < sb.size ==> blocks[c] == old(blocks)[c]
        invariant inodes == old(inodes)[ino := inodes[ino]] && inodes[ino].size == old(inodes)[ino].size
        invariant forall x :: 0 <= x < i ==> inodes[ino].addrs[x] == 0
        invariant forall x :: i <= x <= NDIRECT ==> inodes[ino].addrs[x] == old(inodes)[ino].addrs[x]
      {
        panicked := FreeDirect(ino, i, d);
        i := i + 1;
      }
    }

    method FreeDirect(ino: nat, i: nat, ghost d: Disk) returns (panicked: bool)
      requires Own(sb, d, owner, {}) && Shape(sb, Now()) && ino < sb.ninodes && i < NDIRECT
      requires inodes[ino].addrs[i] == Ref(sb, d, Direct(ino, i))
      requires BitsMatch(sb, blocks, owner.Keys - Gone(owner, ino, i, 0, false))
      modifies this`blocks, this`inodes, this`logged
      ensures !panicked
      ensures Shape(sb, Now()) && BitsMatch(sb, blocks, owner.Keys - Gone(owner, ino, i + 1, 0, false))
      ensures forall c :: DataStart(sb) <= c < sb.size ==> blocks[c] == old(blocks)[c]
      ensures inodes == old(inodes)[ino := old(inodes)[ino].(addrs := old(inodes)[ino].addrs[i := 0])]
    {
      hide Own, BitsMatch, Gone, Records;
      OwnFacts(sb, d, owner, {});
      panicked := false;
      var addr := inodes[ino].addrs[i];
      GoneStep(sb, d, owner, Direct(ino, i), i, 0, false, i + 1, 0, false);
      if addr != 0 {
        ghost var taken := owner.Keys - Gone(owner, ino, i, 0, false);
        panicked := Bfree(addr, taken);
        assert !panicked;                       // panic("freeing free block") is not reached
        assert taken - {addr} == owner.Keys - Gone(owner, ino, i + 1, 0, false);
        inodes := inodes[ino := inodes[ino].(addrs := inodes[ino].addrs[i := 0])];
      } else {
        assert inodes[ino].addrs[i := 0] == inodes[ino].addrs;
      }
    }

    lemma NothingGone(ino: nat)
      requires Own(sb, Now(), owner, {})
      ensures Shape(sb, Now()) && BitsMatch(sb, blocks, owner.Keys - Gone(owner, ino, 0, 0, false))
    {
      assert owner.Keys - Gone(owner, ino, 0, 0, false) == owner.Keys + {};
    }

    /** itrunc's loop over the entries of the indirect block `ind`; d is the file system before itrunc. */
    method TruncEntries(ino: nat, ind: nat, ghost d: Disk) returns (panicked: bool)
      requires Own(sb, d, owner, {}) && Shape(sb, Now()) && ino < sb.ninodes
      requires ind == Ref(sb, d, Indirect(ino)) && DataStart(sb) <= ind < sb.size
      requires BitsMatch(sb, blocks, owner.Keys - Gone(owner, ino, NDIRECT, 0, false))
      requires forall c :: DataStart(sb) <= c < sb.size ==> blocks[c] == d.blocks[c]
      modifies this`blocks, this`logged
      ensures !panicked
      ensures Shape(sb, Now()) && BitsMatch(sb, blocks, owner.Keys - Gone(owner, ino, NDIRECT, NINDIRECT, false))
      ensures forall c :: DataStart(sb) <= c < sb.size ==> blocks[c] == d.blocks[c]
    {
      hide Own, BitsMatch, Gone, Records;
      panicked := false;
      OwnFacts(sb, d, owner, {});
      var a := blocks[ind];
      var j := 0;
      while j < NINDIRECT
        invariant 0 <= j <= NINDIRECT && a == d.blocks[ind]
        invariant Shape(sb, Now()) && BitsMatch(sb, blocks, owner.Keys - Gone(owner, ino, NDIRECT, j, false))
        invariant forall c :: DataStart(sb) <= c < sb.size ==> blocks[c] == d.blocks[c]
      {
        var addr := Word(a, j);
        assert addr == Ref(sb, d, Entry(ino, j));
        GoneStep(sb, d, owner, Entry(ino, j), NDIRECT, j, false, NDIRECT, j + 1, false);
        if addr != 0 {
          ghost var taken := owner.Keys - Gone(owner, ino, NDIRECT, j, false);
          panicked := Bfree(addr, taken);
          assert !panicked;
          assert taken - {addr} == owner.Keys - Gone(owner, ino, NDIRECT, j + 1, false);
        }
        j := j + 1;
      }
    }

    /** The indirect half of itrunc. */
    method TruncIndirect(ino: nat, ghost d: Disk) returns (panicked: bool)
      requires Own(sb, d, owner, {}) && Shape(sb, Now()) && ino < sb.ninodes
      requires BitsMatch(sb, blocks, owner.Keys - Gone(owner, ino, NDIRECT, 0, false))
      requires forall c :: DataStart(sb) <= c < sb.size ==> blocks[c] == d.blocks[c]
      requires inodes[ino].addrs == NoAddrs()[NDIRECT := d.inodes[ino].addrs[NDIRECT]]
      modifies this`blocks, this`inodes, this`logged
      ensures !panicked
      ensures Shape(sb, Now()) && BitsMatch(sb, blocks, owner.Keys - Gone(owner, ino, NDIRECT, NINDIRECT, true))
      ensures forall c :: DataStart(sb) <= c < sb.size ==> blocks[c] == d.blocks[c]
      ensures inodes == old(inodes)[ino := old(inodes)[ino].(addrs := NoAddrs())]
    {
      hide Own, BitsMatch, Gone, Records;
      panicked := false;
      OwnFacts(sb, d, owner, {});
      var ind := inodes[ino].addrs[NDIRECT];
      assert ind == Ref(sb, d, Indirect(ino));
      if ind != 0 {
        panicked := TruncEntries(ino, ind, d);
        GoneStep(sb, d, owner, Indirect(ino), NDIRECT, NINDIRECT, false, NDIRECT, NINDIRECT, true);
        ghost var taken := owner.Keys - Gone(owner, ino, NDIRECT, NINDIRECT, false);
        panicked := Bfree(ind, taken);
        assert !panicked;
        assert taken - {ind} == owner.Keys - Gone(owner, ino, NDIRECT, NINDIRECT, true);
        inodes := inodes[ino := inodes[ino].(addrs := inodes[ino].addrs[NDIRECT := 0])];
      } else {
        NoEntries(sb, d, owner, ino);
      }
      assert inodes[ino].addrs == NoAddrs();
    }

    /** itrunc frees exactly the blocks of the file, never one that is already free, and leaves it empty. */
    method Itrunc(ino: nat) returns (panicked: bool)
      requires Valid() && ino < sb.ninodes
      modifies this`blocks, this`inodes, this`table, this`owner, this`logged
      ensures !panicked && Valid() && (old(Synced()) ==> Synced())
      ensures owner == Others(old(owner), ino)
      ensures inodes == old(inodes)[ino := Inode(0, NoAddrs())]
      ensures forall c :: DataStart(sb) <= c < sb.size ==> blocks[c] == old(blocks)[c]
    {
      hide Own, BitsMatch, Gone, Saved, At, Get, Put;
      ghost var d := Now();
      OwnFacts(sb, d, owner, {});
      panicked := TruncDirect(ino);
      panicked := TruncIndirect(ino, d);
      inodes := inodes[ino := inodes[ino].(size := 0)];
      TruncKeeps(sb, d, owner, ino, blocks);
      assert inodes == d.inodes[ino := Inode(0, NoAddrs())];
      owner := Others(owner, ino);
      OwnFacts(sb, Now(), owner, {});
      if old(Synced()) {
        StoreSaves(table, meta, d.inodes, ino, meta[ino], inodes[ino]);
        assert meta[ino := meta[ino]] == meta;
      }
      Iupdate(ino);
    }
  }
}
