/** malloc and free of umalloc.c (section 8.7 of The C Programming Language, second edition).
    Addresses count headers.  A header holds `ptr`, the next free block, and `size` in headers, its own
    included.  `base` is the static header of size 0 that starts the circular list. */
module KRHeap {
  import opened Common

  const HEADER: nat := 8                     // sizeof(Header)
  const MINCORE: nat := 4096

  datatype Header = Header(ptr: nat, size: nat)

  datatype Ext = Ext(addr: nat, size: nat)

  // ---- The free list as a sequence of extents, lowest address first ----

  /** base, then free blocks in address order, none touching the next. */
  ghost predicate Good(free: seq<Ext>) {
    && |free| >= 1 && free[0].size == 0 && free[0].addr > 0
    && (forall i :: 1 <= i < |free| ==> free[i].size >= 1)
    && (forall i :: 0 <= i < |free| - 1 ==> free[i].addr + free[i].size < free[i + 1].addr)
  }

  ghost function NextAddr(free: seq<Ext>, i: nat): nat
    requires i < |free|
  {
    if i + 1 < |free| then free[i + 1].addr else free[0].addr
  }

  ghost predicate LinkedAt(mem: map<nat, Header>, free: seq<Ext>, i: nat)
    requires i < |free|
  {
    free[i].addr in mem && mem[free[i].addr] == Header(NextAddr(free, i), free[i].size)
  }

  /** The headers in memory link the extents in a circle. */
  ghost predicate Linked(mem: map<nat, Header>, free: seq<Ext>) {
    forall i: nat :: i < |free| ==> LinkedAt(mem, free, i)
  }

  /** b belongs between free[k] and its successor. */
  ghost predicate Gap(free: seq<Ext>, k: nat, addr: nat) {
    k < |free| && free[k].addr < addr && (k + 1 < |free| ==> addr < free[k + 1].addr)
  }

  ghost predicate JoinsNext(free: seq<Ext>, k: nat, b: Ext) {
    k + 1 < |free| && b.addr + b.size == free[k + 1].addr
  }

  ghost predicate JoinsPrev(free: seq<Ext>, k: nat, b: Ext)
    requires k < |free|
  {
    free[k].addr + free[k].size == b.addr
  }

  ghost function Put(free: seq<Ext>, k: nat, b: Ext): seq<Ext>
    requires k < |free|
  {
    free[..k + 1] + [b] + free[k + 1..]
  }

  /** Elements k and k + 1 merged. */
  ghost function Fused(free: seq<Ext>, k: nat): seq<Ext>
    requires k + 1 < |free|
  {
    free[..k] + [Ext(free[k].addr, free[k].size + free[k + 1].size)] + free[k + 2..]
  }

  /** The list with b put in behind free[k], merged with its successor if they touch. */
  ghost function Placed(free: seq<Ext>, k: nat, b: Ext): seq<Ext>
    requires k < |free|
  {
    if JoinsNext(free, k, b) then Fused(Put(free, k, b), k + 1) else Put(free, k, b)
  }

  lemma PlacedJoined(free: seq<Ext>, k: nat, b: Ext)
    requires k < |free| && JoinsNext(free, k, b)
    ensures Placed(free, k, b) == free[k + 1 := Ext(b.addr, b.size + free[k + 1].size)]
  {
    assert Put(free, k, b)[k + 1] == b && Put(free, k, b)[k + 2] == free[k + 1];
  }

  /** The list with b put in at the gap and merged with the neighbours it touches. */
  ghost function Insert(free: seq<Ext>, k: nat, b: Ext): seq<Ext>
    requires k < |free|
  {
    if JoinsPrev(free, k, b) then Fused(Placed(free, k, b), k) else Placed(free, k, b)
  }

  /** As Good, but elements k and k + 1 may touch. */
  ghost predicate GoodBut(free: seq<Ext>, k: nat) {
    && |free| >= 1 && free[0].size == 0 && free[0].addr > 0
    && (forall i :: 1 <= i < |free| ==> free[i].size >= 1)
    && (forall i :: 0 <= i < |free| - 1 ==> free[i].addr + free[i].size <= free[i + 1].addr)
    && (forall i :: 0 <= i < |free| - 1 && i != k ==> free[i].addr + free[i].size < free[i + 1].addr)
  }

  lemma PlacedGood(free: seq<Ext>, k: nat, b: Ext)
    requires Good(free) && Gap(free, k, b.addr) && b.size >= 1
    requires free[k].addr + free[k].size <= b.addr && (k + 1 < |free| ==> b.addr + b.size <= free[k + 1].addr)
    ensures GoodBut(Placed(free, k, b), k)
  {
    var r := Placed(free, k, b);
    if JoinsNext(free, k, b) {
      PlacedJoined(free, k, b);
    } else {
      assert r == Put(free, k, b);
      forall i | 0 <= i < |r| - 1
        ensures r[i].addr + r[i].size <= r[i + 1].addr && (i != k ==> r[i].addr + r[i].size < r[i + 1].addr)
      {
        if i > k + 1 { assert r[i] == free[i - 1] && r[i + 1] == free[i]; }
      }
    }
  }

  lemma FusedGood(free: seq<Ext>, k: nat)
    requires GoodBut(free, k) && 1 <= k < |free| - 1 && free[k].addr + free[k].size == free[k + 1].addr
    ensures Good(Fused(free, k))
  {
    var r := Fused(free, k);
    forall i | 0 <= i < |r| - 1
      ensures r[i].addr + r[i].size < r[i + 1].addr
    {
      if i > k { assert r[i] == free[i + 1] && r[i + 1] == free[i + 2]; }
    }
  }

  /** Coalescing keeps the list ordered and fully coalesced. */
  lemma InsertGood(free: seq<Ext>, k: nat, b: Ext)
    requires Good(free) && Gap(free, k, b.addr) && b.size >= 1
    requires free[k].addr + free[k].size <= b.addr && (k + 1 < |free| ==> b.addr + b.size <= free[k + 1].addr)
    requires JoinsPrev(free, k, b) ==> k >= 1
    ensures Good(Insert(free, k, b))
  {
    PlacedGood(free, k, b);
    if JoinsPrev(free, k, b) { FusedGood(Placed(free, k, b), k); }
  }

  lemma {:induction false} Ordered(free: seq<Ext>, i: nat, j: nat)
    requires Good(free) && i < j < |free|
    ensures free[i].addr + free[i].size < free[j].addr
  {
    if i + 1 < j { Ordered(free, i, j - 1); }
  }

  /** Strictly ascending addresses. */
  ghost predicate Asc(free: seq<Ext>) {
    forall i :: 0 <= i < |free| - 1 ==> free[i].addr < free[i + 1].addr
  }

  lemma {:induction false} AscOrdered(free: seq<Ext>, i: nat, j: nat)
    requires Asc(free) && i < j < |free|
    ensures free[i].addr < free[j].addr
  {
    if i + 1 < j { AscOrdered(free, i, j - 1); }
  }

  // ---- Every unit of memory belongs to exactly one block ----

  ghost predicate Inside(blk: map<nat, nat>, a: nat, u: nat) {
    a in blk && a <= u < a + blk[a]
  }

  /** `blk` gives the blocks with their sizes, `at` the block each unit lies in. */
  ghost predicate Tiles(blk: map<nat, nat>, at: map<nat, nat>) {
    && (forall u :: u in at ==> Inside(blk, at[u], u))
    && (forall a, u :: Inside(blk, a, u) ==> u in at && at[u] == a)
    && (forall a :: a in blk ==> blk[a] >= 1)
  }

  /** Blocks never overlap. */
  lemma TilesDisjoint(blk: map<nat, nat>, at: map<nat, nat>, a: nat, b: nat)
    requires Tiles(blk, at) && a in blk && b in blk && a < b
    ensures a + blk[a] <= b
  {
    assert Inside(blk, b, b) && at[b] == b;
    assert !Inside(blk, a, b);
  }

  ghost function Renamed(at: map<nat, nat>, b: nat, a: nat): map<nat, nat> {
    map u | u in at :: if at[u] == b then a else at[u]
  }

  ghost function Merged(blk: map<nat, nat>, a: nat, b: nat): map<nat, nat>
    requires a in blk && b in blk
  {
    (blk - {b})[a := blk[a] + blk[b]]
  }

  /** Two touching blocks become one; the same units are covered. */
  lemma MergeTiles(blk: map<nat, nat>, at: map<nat, nat>, a: nat, b: nat)
    requires Tiles(blk, at) && a in blk && b in blk && a + blk[a] == b
    ensures Tiles(Merged(blk, a, b), Renamed(at, b, a)) && Renamed(at, b, a).Keys == at.Keys
  {
    var blk', at' := Merged(blk, a, b), Renamed(at, b, a);
    forall u | u in at'
      ensures Inside(blk', at'[u], u)
    {
      assert Inside(blk, at[u], u);
    }
    forall x: nat, u: nat | Inside(blk', x, u)
      ensures u in at' && at'[u] == x
    {
      assert Inside(blk, if x == a && u >= b then b else x, u);
    }
  }

  ghost function Moved(at: map<nat, nat>, a: nat, b: nat): map<nat, nat> {
    map u | u in at :: if at[u] == a && u >= b then b else at[u]
  }

  ghost function Cut(blk: map<nat, nat>, a: nat, s: nat): map<nat, nat>
    requires a in blk && s <= blk[a]
  {
    blk[a := s][a + s := blk[a] - s]
  }

  lemma CutKeys(blk: map<nat, nat>, a: nat, s: nat)
    requires a in blk && s <= blk[a]
    ensures Cut(blk, a, s).Keys == blk.Keys + {a + s}
  {
  }

  /** A block is cut in two; the same units are covered. */
  lemma SplitTiles(blk: map<nat, nat>, at: map<nat, nat>, a: nat, s: nat)
    requires Tiles(blk, at) && a in blk && 0 < s < blk[a]
    ensures Tiles(Cut(blk, a, s), Moved(at, a, a + s)) && Moved(at, a, a + s).Keys == at.Keys
    ensures a + s !in blk
  {
    assert Inside(blk, a, a + s) && at[a + s] == a;
    assert !Inside(blk, a + s, a + s);
    var blk', at' := Cut(blk, a, s), Moved(at, a, a + s);
    forall u | u in at'
      ensures Inside(blk', at'[u], u)
    {
      assert Inside(blk, at[u], u);
    }
    forall x: nat, u: nat | Inside(blk', x, u)
      ensures u in at' && at'[u] == x
    {
      assert Inside(blk, if x == a + s then a else x, u);
    }
  }

  /** n units from a on now lie in block a. */
  ghost function Filled(at: map<nat, nat>, a: nat, n: nat): (r: map<nat, nat>)
    ensures forall u :: u in r <==> u in at || a <= u < a + n
    ensures forall u :: u in r ==> r[u] == if a <= u < a + n then a else at[u]
  {
    if n == 0 then at else Filled(at, a, n - 1)[a + n - 1 := a]
  }

  /** Fresh memory becomes a block. */
  lemma ExtendTiles(blk: map<nat, nat>, at: map<nat, nat>, a: nat, n: nat)
    requires Tiles(blk, at) && n >= 1 && forall u :: u in at ==> !(a <= u < a + n)
    ensures a !in blk && Tiles(blk[a := n], Filled(at, a, n))
  {
    assert a !in at && !Inside(blk, a, a);
    var blk', at' := blk[a := n], Filled(at, a, n);
    forall u | u in at'
      ensures Inside(blk', at'[u], u)
    {
      if u in at && !(a <= u < a + n) { assert Inside(blk, at[u], u); }
    }
    forall x: nat, u: nat | Inside(blk', x, u)
      ensures u in at' && at'[u] == x
    {
      if x != a { assert Inside(blk, x, u); }
    }
  }

  // ---- What free() writes ----

  /** An element linked before is linked after a write elsewhere, if its successor is the same. */
  lemma StillLinked(mem: map<nat, Header>, free: seq<Ext>, i: nat, mem': map<nat, Header>, r: seq<Ext>, j: nat)
    requires i < |free| && LinkedAt(mem, free, i) && j < |r| && r[j] == free[i]
    requires NextAddr(r, j) == NextAddr(free, i)
    requires free[i].addr in mem' && mem'[free[i].addr] == mem[free[i].addr]
    ensures LinkedAt(mem', r, j)
  {
  }

  lemma InMem(mem: map<nat, Header>, free: seq<Ext>, i: nat)
    requires i < |free| && LinkedAt(mem, free, i)
    ensures free[i].addr in mem
  {
  }

  lemma JustLinked(mem: map<nat, Header>, free: seq<Ext>, i: nat)
    requires i < |free| && free[i].addr in mem && mem[free[i].addr] == Header(NextAddr(free, i), free[i].size)
    ensures LinkedAt(mem, free, i)
  {
  }

  /** Writing b's header and pointing free[k] at it links the longer list. */
  lemma PutLinked(mem: map<nat, Header>, free: seq<Ext>, k: nat, b: Ext, mem': map<nat, Header>)
    requires Good(free) && Linked(mem, free) && Gap(free, k, b.addr)
    requires mem' == mem[b.addr := Header(NextAddr(free, k), b.size)][free[k].addr := Header(b.addr, free[k].size)]
    ensures Linked(mem', Put(free, k, b))
  {
    hide Good, LinkedAt;
    var r := Put(free, k, b);
    forall i: nat | i < |r|
      ensures LinkedAt(mem', r, i)
    {
      if i < k {
        Ordered(free, i, k);
        assert LinkedAt(mem, free, i) by { assert Linked(mem, free); }
        InMem(mem, free, i);
        StillLinked(mem, free, i, mem', r, i);
      } else if i > k + 1 {
        if i > k + 2 { Ordered(free, k + 1, i - 1); }
        Ordered(free, k, i - 1);
        InMem(mem, free, i - 1);
        StillLinked(mem, free, i - 1, mem', r, i);
      } else {
        JustLinked(mem', r, i);
      }
    }
  }

  /** Writing b's header in place of its successor's links the list with the two merged. */
  lemma WidenedLinked(mem: map<nat, Header>, free: seq<Ext>, k: nat, b: Ext, s: nat, mem': map<nat, Header>)
    requires Good(free) && Linked(mem, free) && Gap(free, k, b.addr) && k + 1 < |free|
    requires mem' == mem[b.addr := Header(NextAddr(free, k + 1), s)][free[k].addr := Header(b.addr, free[k].size)]
    ensures Linked(mem', free[k + 1 := Ext(b.addr, s)])
  {
    hide Good, LinkedAt;
    var r := free[k + 1 := Ext(b.addr, s)];
    forall i: nat | i < |r|
      ensures LinkedAt(mem', r, i)
    {
      if i < k {
        Ordered(free, i, k);
        InMem(mem, free, i);
        StillLinked(mem, free, i, mem', r, i);
      } else if i > k + 1 {
        Ordered(free, k + 1, i);
        Ordered(free, 0, i);
        InMem(mem, free, i);
        StillLinked(mem, free, i, mem', r, i);
      } else {
        JustLinked(mem', r, i);
      }
    }
  }

  /** Taking element k + 1 into element k's header links the shorter list. */
  lemma FusedLinked(mem: map<nat, Header>, free: seq<Ext>, k: nat, mem': map<nat, Header>)
    requires Linked(mem, free) && 1 <= k < |free| - 1 && Asc(free)
    requires mem' == mem[free[k].addr := Header(NextAddr(free, k + 1), free[k].size + free[k + 1].size)]
    ensures Linked(mem', Fused(free, k))
  {
    hide Asc, LinkedAt;
    var r := Fused(free, k);
    forall i: nat | i < |r|
      ensures LinkedAt(mem', r, i)
    {
      if i < k {
        AscOrdered(free, i, k);
        InMem(mem, free, i);
        StillLinked(mem, free, i, mem', r, i);
      } else if i > k {
        AscOrdered(free, k, i + 1);
        InMem(mem, free, i + 1);
        StillLinked(mem, free, i + 1, mem', r, i);
      } else {
        JustLinked(mem', r, i);
      }
    }
  }

  lemma PutAsc(free: seq<Ext>, k: nat, b: Ext)
    requires Good(free) && Gap(free, k, b.addr)
    ensures Asc(Put(free, k, b))
  {
    var r := Put(free, k, b);
    forall i | 0 <= i < |r| - 1
      ensures r[i].addr < r[i + 1].addr
    {
      if i > k + 1 { assert r[i] == free[i - 1] && r[i + 1] == free[i]; }
    }
  }

  lemma FusedAsc(free: seq<Ext>, k: nat)
    requires Asc(free) && k < |free| - 1
    ensures Asc(Fused(free, k))
  {
    var r := Fused(free, k);
    forall i | 0 <= i < |r| - 1
      ensures r[i].addr < r[i + 1].addr
    {
      if i > k { assert r[i] == free[i + 1] && r[i + 1] == free[i + 2]; }
      if i == k { assert r[i + 1] == free[i + 2] && free[k + 1].addr < free[k + 2].addr; }
    }
  }

  // ---- Blocks are live or on the list, never both ----

  ghost predicate Listed(blk: map<nat, nat>, live: map<nat, nat>, e: Ext) {
    e.addr in blk && blk[e.addr] == e.size && e.addr !in live
  }

  ghost predicate At(free: seq<Ext>, a: nat, i: nat) {
    1 <= i < |free| && free[i].addr == a
  }

  ghost predicate OnList(free: seq<Ext>, a: nat) {
    exists i: nat :: At(free, a, i)
  }

  ghost predicate Owns(blk: map<nat, nat>, live: map<nat, nat>, free: seq<Ext>) {
    && (forall i: nat :: 1 <= i < |free| ==> Listed(blk, live, free[i]))
    && (forall a :: a in live ==> a in blk && blk[a] == live[a])
    && (forall a :: a in blk && a !in live ==> OnList(free, a))
  }

  lemma PutOwns(blk: map<nat, nat>, live: map<nat, nat>, free: seq<Ext>, k: nat, b: Ext)
    requires Owns(blk, live, free) && b.addr in live && live[b.addr] == b.size && k < |free|
    ensures Owns(blk, live - {b.addr}, Put(free, k, b))
  {
    var r := Put(free, k, b);
    forall a | a in blk && a !in live - {b.addr}
      ensures OnList(r, a)
    {
      if a == b.addr {
        assert At(r, a, k + 1);
      } else {
        assert OnList(free, a);
        var i: nat :| At(free, a, i);
        assert At(r, a, if i <= k then i else i + 1);
      }
    }
    forall i: nat | 1 <= i < |r|
      ensures Listed(blk, live - {b.addr}, r[i])
    {
      if i <= k { assert Listed(blk, live, free[i]); }
      if i > k + 1 { assert r[i] == free[i - 1] && Listed(blk, live, free[i - 1]); }
    }
  }

  lemma FusedOwns(blk: map<nat, nat>, live: map<nat, nat>, l: seq<Ext>, k: nat)
    requires Owns(blk, live, l) && Asc(l) && 1 <= k < |l| - 1
    ensures l[k].addr in blk && l[k + 1].addr in blk
    ensures blk[l[k].addr] == l[k].size && blk[l[k + 1].addr] == l[k + 1].size
    ensures Owns(Merged(blk, l[k].addr, l[k + 1].addr), live, Fused(l, k))
  {
    hide Asc;
    assert Listed(blk, live, l[k]) && Listed(blk, live, l[k + 1]);
    AscOrdered(l, k, k + 1);
    var r, blk' := Fused(l, k), Merged(blk, l[k].addr, l[k + 1].addr);
    forall a | a in blk' && a !in live
      ensures OnList(r, a)
    {
      assert OnList(l, a);
      var i: nat :| At(l, a, i);
      assert At(r, a, if i <= k then i else i - 1);
    }
    forall i: nat | 1 <= i < |r|
      ensures Listed(blk', live, r[i])
    {
      if i < k {
        AscOrdered(l, i, k);
        AscOrdered(l, i, k + 1);
        assert Listed(blk, live, l[i]);
      } else if i > k {
        AscOrdered(l, k, i + 1);
        AscOrdered(l, k + 1, i + 1);
        assert r[i] == l[i + 1] && Listed(blk, live, l[i + 1]);
      }
    }
  }

  lemma TilesPositive(blk: map<nat, nat>, at: map<nat, nat>, a: nat)
    requires Tiles(blk, at) && a in blk
    ensures blk[a] >= 1
  {
  }

  /** A live block fits between the free blocks around its address. */
  lemma FitsGap(blk: map<nat, nat>, at: map<nat, nat>, live: map<nat, nat>, free: seq<Ext>, k: nat, b: Ext)
    requires Tiles(blk, at) && Owns(blk, live, free) && Good(free) && Gap(free, k, b.addr)
    requires b.addr in live && live[b.addr] == b.size
    ensures b.size >= 1 && free[k].addr + free[k].size <= b.addr
    ensures k + 1 < |free| ==> b.addr + b.size <= free[k + 1].addr
    ensures JoinsPrev(free, k, b) ==> k >= 1
  {
    hide Tiles;
    TilesPositive(blk, at, b.addr);
    if k >= 1 {
      assert Listed(blk, live, free[k]);
      TilesDisjoint(blk, at, free[k].addr, b.addr);
    }
    if k + 1 < |free| {
      assert Listed(blk, live, free[k + 1]);
      TilesDisjoint(blk, at, b.addr, free[k + 1].addr);
    }
  }

  /** Merging elements k and k + 1 of the list, and the blocks they stand for. */
  lemma Join(blk: map<nat, nat>, at: map<nat, nat>, live: map<nat, nat>, l: seq<Ext>, k: nat)
    returns (blk': map<nat, nat>, at': map<nat, nat>)
    requires Tiles(blk, at) && Owns(blk, live, l) && Asc(l) && 1 <= k < |l| - 1
    requires l[k].addr + l[k].size == l[k + 1].addr
    ensures Tiles(blk', at') && at'.Keys == at.Keys && blk'.Keys <= blk.Keys
    ensures Owns(blk', live, Fused(l, k)) && Asc(Fused(l, k))
  {
    hide Tiles, Owns, Asc;
    FusedOwns(blk, live, l, k);
    MergeTiles(blk, at, l[k].addr, l[k + 1].addr);
    blk', at' := Merged(blk, l[k].addr, l[k + 1].addr), Renamed(at, l[k + 1].addr, l[k].addr);
    FusedAsc(l, k);
  }

  lemma PlacedEnds(free: seq<Ext>, k: nat, b: Ext)
    requires k < |free|
    ensures var l := Placed(free, k, b); k + 1 < |l| && l[k] == free[k] && l[0] == free[0] && l[k + 1].addr == b.addr
  {
  }

  /** free() as a change of blocks: the freed block, merged with the neighbours it touches, covers the same units. */
  lemma Freed(blk: map<nat, nat>, at: map<nat, nat>, live: map<nat, nat>, free: seq<Ext>, k: nat, b: Ext)
    returns (blk': map<nat, nat>, at': map<nat, nat>)
    requires Tiles(blk, at) && Owns(blk, live, free) && Good(free) && Gap(free, k, b.addr)
    requires b.addr in live && live[b.addr] == b.size
    ensures Tiles(blk', at') && at'.Keys == at.Keys && blk'.Keys <= blk.Keys
    ensures Owns(blk', live - {b.addr}, Insert(free, k, b)) && Good(Insert(free, k, b))
    ensures var r := Insert(free, k, b); k < |r| && r[k].addr == free[k].addr && r[0] == free[0]
  {
    hide Tiles, Owns, Good, Asc;
    FitsGap(blk, at, live, free, k, b);
    InsertGood(free, k, b);
    var l := Put(free, k, b);
    var live' := live - {b.addr};
    PutOwns(blk, live, free, k, b);
    PutAsc(free, k, b);
    PlacedEnds(free, k, b);
    blk', at' := blk, at;
    if JoinsNext(free, k, b) {
      blk', at' := Join(blk', at', live', l, k + 1);
      l := Fused(l, k + 1);
    }
    hide Put;
    if JoinsPrev(free, k, b) {
      blk', at' := Join(blk', at', live', l, k);
    }
  }

  /** Every address above base lies in one gap of the list. */
  lemma {:induction false} GapExists(free: seq<Ext>, addr: nat, n: nat) returns (k: nat)
    requires Good(free) && free[0].addr < addr && 1 <= n <= |free|
    requires forall i: nat :: i < |free| ==> free[i].addr != addr
    requires n < |free| ==> addr < free[n].addr
    ensures Gap(free, k, addr)
  {
    if free[n - 1].addr < addr { k := n - 1; } else { k := GapExists(free, addr, n - 1); }
  }

  lemma GapUnique(free: seq<Ext>, addr: nat, k: nat, x: nat)
    requires Good(free) && Gap(free, k, addr) && x < |free|
    ensures Gap(free, x, addr) <==> x == k
  {
    hide Good;
    if x < k {
      Ordered(free, x, k);
      if x + 1 < k { Ordered(free, x + 1, k); }
    }
    if k < x {
      if k + 1 < x { Ordered(free, k + 1, x); }
    }
  }

  /** Steps from index x to index k around a circle of n. */
  ghost function Distance(x: nat, k: nat, n: nat): nat
    requires x < n && k < n
  {
    if x <= k then k - x else k + n - x
  }

  /** The two tests at the end of free(), as writes to the headers at bp and at p. */
  lemma Relinked(mem: map<nat, Header>, free: seq<Ext>, k: nat, b: Ext, mem': map<nat, Header>)
    requires Good(free) && Linked(mem, free) && Gap(free, k, b.addr) && b.size >= 1
    requires JoinsPrev(free, k, b) ==> k >= 1
    requires
      var p := free[k].addr;
      var hb := if JoinsNext(free, k, b) then Header(NextAddr(free, k + 1), b.size + free[k + 1].size)
                else Header(NextAddr(free, k), b.size);
      var hp := if JoinsPrev(free, k, b) then Header(hb.ptr, free[k].size + hb.size) else Header(b.addr, free[k].size);
      mem' == mem[b.addr := hb][p := hp]
    ensures Linked(mem', Insert(free, k, b))
  {
    hide Good, Linked, Asc;
    var l := Placed(free, k, b);
    var hb := if JoinsNext(free, k, b) then Header(NextAddr(free, k + 1), b.size + free[k + 1].size)
              else Header(NextAddr(free, k), b.size);
    var mem1 := mem[b.addr := hb][free[k].addr := Header(b.addr, free[k].size)];
    PutAsc(free, k, b);
    if JoinsNext(free, k, b) {
      PlacedJoined(free, k, b);
      WidenedLinked(mem, free, k, b, hb.size, mem1);
      FusedAsc(Put(free, k, b), k + 1);
    } else {
      PutLinked(mem, free, k, b, mem1);
    }
    assert l[k] == free[k] && l[k + 1].addr == b.addr && l[k + 1].size == hb.size && NextAddr(l, k + 1) == hb.ptr;
    if JoinsPrev(free, k, b) {
      var mem2 := mem1[free[k].addr := Header(NextAddr(l, k + 1), l[k].size + l[k + 1].size)];
      FusedLinked(mem1, l, k, mem2);
      assert mem2 == mem';
    }
  }

  lemma TakeFacts(blk: map<nat, nat>, live: map<nat, nat>, l: seq<Ext>, i: nat)
    requires Owns(blk, live, l) && Good(l) && 1 <= i < |l|
    ensures Listed(blk, live, l[i]) && l[i].size >= 1
    ensures 0 < l[i - 1].addr < l[i].addr && l[i - 1].addr >= l[0].addr
    ensures l[i - 1].addr != l[0].addr ==> l[i - 1].addr !in live
  {
    if i > 1 {
      Ordered(l, 0, i - 1);
      assert Listed(blk, live, l[i - 1]);
    }
  }

  // ---- What the invariant of the class says about single units ----

  ghost predicate Spans(free: seq<Ext>, i: nat, u: nat) {
    1 <= i < |free| && free[i].addr <= u < free[i].addr + free[i].size
  }

  ghost predicate InLive(live: map<nat, nat>, u: nat) {
    exists a: nat :: Inside(live, a, u)
  }

  ghost predicate InFree(free: seq<Ext>, u: nat) {
    exists i: nat :: Spans(free, i, u)
  }

  /** Units obtained from sbrk are the units of live blocks and of listed blocks, with no unit in both; and no
      unit is in two live blocks. */
  lemma Conservation(blk: map<nat, nat>, at: map<nat, nat>, live: map<nat, nat>, free: seq<Ext>, u: nat)
    requires Tiles(blk, at) && Owns(blk, live, free)
    ensures u in at <==> InLive(live, u) || InFree(free, u)
    ensures !(InLive(live, u) && InFree(free, u))
    ensures forall a: nat, b: nat :: Inside(live, a, u) && Inside(live, b, u) ==> a == b
  {
    forall a: nat | Inside(live, a, u)
      ensures u in at && at[u] == a
    {
      assert Inside(blk, a, u);
    }
    forall i: nat | Spans(free, i, u)
      ensures u in at && at[u] == free[i].addr && at[u] !in live
    {
      assert Listed(blk, live, free[i]) && Inside(blk, free[i].addr, u);
    }
    if u in at {
      assert Inside(blk, at[u], u);
      if at[u] in live {
        assert Inside(live, at[u], u);
      } else {
        assert OnList(free, at[u]);
        var i: nat :| At(free, at[u], i);
        assert Listed(blk, live, free[i]) && Spans(free, i, u);
      }
    }
  }

  // ---- malloc's walk around the circle ----

  ghost function Wrap(x: nat, n: nat): nat {
    if x < n then x else x - n
  }

  /** The v elements after index f are too small. */
  ghost predicate TooSmall(free: seq<Ext>, f: nat, v: nat, n: nat) {
    forall i: nat :: i < |free| && (if i > f then i - f else i + |free| - f) <= v ==> free[i].size < n
  }

  lemma SameAddr(free: seq<Ext>, i: nat, j: nat)
    requires Good(free) && i < |free| && j < |free|
    ensures free[i].addr == free[j].addr <==> i == j
  {
    if i < j { Ordered(free, i, j); }
    if j < i { Ordered(free, j, i); }
  }

  /** nunits, with malloc's unsigned arithmetic. */
  function NUnits(nbytes: nat): (n: nat)
    ensures n >= 1
  {
    (nbytes + 7) % UINT / HEADER + 1
  }

  /** A block of NUnits(nbytes) headers holds nbytes besides its own header, unless the sum wraps. */
  lemma NUnitsFit(nbytes: nat)
    requires nbytes < UINT
    ensures (NUnits(nbytes) - 1) * HEADER >= nbytes <==> nbytes <= UINT - 8
    ensures nbytes <= UINT - 8 ==> (NUnits(nbytes) - 1) * HEADER < nbytes + HEADER
    ensures nbytes > UINT - 8 ==> NUnits(nbytes) == 1
  {
  }

  ghost function Units(a: nat, n: nat): (s: set<nat>)
    ensures forall u :: u in s <==> a <= u < a + n
  {
    if n == 0 then {} else Units(a, n - 1) + {a + n - 1}
  }

  function CoreSize(nu: nat): nat {
    if nu < MINCORE then MINCORE else nu
  }

  ghost function Carved(l: seq<Ext>, i: nat, n: nat): seq<Ext>
    requires i < |l| && l[i].size >= n
  {
    if l[i].size == n then l[..i] + l[i + 1..] else l[i := Ext(l[i].addr, l[i].size - n)]
  }

  lemma CarvedGood(l: seq<Ext>, i: nat, n: nat)
    requires Good(l) && 1 <= i < |l| && l[i].size >= n >= 1
    ensures Good(Carved(l, i, n))
  {
    var r := Carved(l, i, n);
    if l[i].size == n {
      forall j | 0 <= j < |r| - 1
        ensures r[j].addr + r[j].size < r[j + 1].addr
      {
        if j >= i { assert r[j] == l[j + 1] && r[j + 1] == l[j + 2]; }
      }
    }
  }

  lemma RemovedOwns(blk: map<nat, nat>, live: map<nat, nat>, l: seq<Ext>, i: nat)
    requires Owns(blk, live, l) && Good(l) && 1 <= i < |l|
    ensures Owns(blk, live[l[i].addr := l[i].size], Carved(l, i, l[i].size))
  {
    hide Good;
    var r, live' := Carved(l, i, l[i].size), live[l[i].addr := l[i].size];
    assert Listed(blk, live, l[i]);
    forall a | a in blk && a !in live'
      ensures OnList(r, a)
    {
      assert OnList(l, a);
      var j: nat :| At(l, a, j);
      assert At(r, a, if j < i then j else j - 1);
    }
    forall j: nat | 1 <= j < |r|
      ensures Listed(blk, live', r[j])
    {
      if j < i {
        Ordered(l, j, i);
        assert Listed(blk, live, l[j]);
      } else {
        Ordered(l, i, j + 1);
        assert r[j] == l[j + 1] && Listed(blk, live, l[j + 1]);
      }
    }
  }

  lemma ShrunkOwns(blk: map<nat, nat>, at: map<nat, nat>, live: map<nat, nat>, l: seq<Ext>, i: nat, n: nat)
    requires Tiles(blk, at) && Owns(blk, live, l) && Good(l) && 1 <= i < |l| && l[i].size > n >= 1
    ensures
      var s := l[i].size - n;
      && Listed(blk, live, l[i]) && l[i].addr + s !in live
      && Owns(Cut(blk, l[i].addr, s), live[l[i].addr + s := n], Carved(l, i, n))
  {
    hide Good, Tiles;
    assert Listed(blk, live, l[i]);
    var s := l[i].size - n;
    SplitTiles(blk, at, l[i].addr, s);
    var r, blk', live' := Carved(l, i, n), Cut(blk, l[i].addr, s), live[l[i].addr + s := n];
    forall a | a in blk' && a !in live'
      ensures OnList(r, a)
    {
      assert OnList(l, a);
      var j: nat :| At(l, a, j);
      assert At(r, a, j);
    }
    forall j: nat | 1 <= j < |r|
      ensures Listed(blk', live', r[j])
    {
      if j < i { Ordered(l, j, i); } else if j > i { Ordered(l, i, j); }
      assert Listed(blk, live, l[j]);
    }
  }

  lemma RemovedLinked(mem: map<nat, Header>, free: seq<Ext>, i: nat, mem': map<nat, Header>)
    requires Good(free) && Linked(mem, free) && 1 <= i < |free|
    requires mem' == mem[free[i - 1].addr := Header(NextAddr(free, i), free[i - 1].size)]
    ensures Linked(mem', free[..i] + free[i + 1..])
  {
    hide Good, LinkedAt;
    var r := free[..i] + free[i + 1..];
    forall j: nat | j < |r|
      ensures LinkedAt(mem', r, j)
    {
      if j < i - 1 {
        Ordered(free, j, i - 1);
        InMem(mem, free, j);
        StillLinked(mem, free, j, mem', r, j);
      } else if j >= i {
        Ordered(free, i - 1, j + 1);
        InMem(mem, free, j + 1);
        StillLinked(mem, free, j + 1, mem', r, j);
      } else {
        JustLinked(mem', r, j);
      }
    }
  }

  lemma ShrunkLinked(mem: map<nat, Header>, free: seq<Ext>, i: nat, n: nat, mem': map<nat, Header>)
    requires Good(free) && Linked(mem, free) && 1 <= i < |free| && 0 < n < free[i].size
    requires free[i].addr in mem
    requires
      var q := free[i].addr + free[i].size - n;
      && q in mem' && mem' == mem[free[i].addr := Header(NextAddr(free, i), free[i].size - n)][q := mem'[q]]
    ensures Linked(mem', free[i := Ext(free[i].addr, free[i].size - n)])
  {
    hide Good, LinkedAt;
    var r := free[i := Ext(free[i].addr, free[i].size - n)];
    forall j: nat | j < |r|
      ensures LinkedAt(mem', r, j)
    {
      if j < i {
        Ordered(free, j, i);
        InMem(mem, free, j);
        StillLinked(mem, free, j, mem', r, j);
      } else if j > i {
        Ordered(free, i, j);
        InMem(mem, free, j);
        StillLinked(mem, free, j, mem', r, j);
      } else {
        JustLinked(mem', r, j);
      }
    }
  }

  lemma LinkedElsewhere(mem: map<nat, Header>, free: seq<Ext>, a: nat, mem': map<nat, Header>)
    requires Linked(mem, free) && a in mem' && mem' == mem[a := mem'[a]]
    requires forall i: nat :: i < |free| ==> free[i].addr != a
    ensures Linked(mem', free)
  {
    hide LinkedAt;
    forall j: nat | j < |free|
      ensures LinkedAt(mem', free, j)
    {
      InMem(mem, free, j);
      StillLinked(mem, free, j, mem', free, j);
    }
  }

  lemma ExtendOwns(blk: map<nat, nat>, live: map<nat, nat>, free: seq<Ext>, a: nat, n: nat)
    requires Owns(blk, live, free) && a !in blk
    ensures a !in live && Owns(blk[a := n], live[a := n], free)
  {
    forall i: nat | 1 <= i < |free|
      ensures Listed(blk[a := n], live[a := n], free[i])
    {
      assert Listed(blk, live, free[i]);
    }
  }

  lemma NotListed(blk: map<nat, nat>, live: map<nat, nat>, free: seq<Ext>, a: nat)
    requires Owns(blk, live, free) && a !in blk
    ensures forall i: nat :: 1 <= i < |free| ==> free[i].addr != a
  {
    forall i: nat | 1 <= i < |free|
      ensures free[i].addr != a
    {
      assert Listed(blk, live, free[i]);
    }
  }

  lemma InsertBig(free: seq<Ext>, k: nat, b: Ext) returns (g: nat)
    requires k < |free|
    ensures g < |Insert(free, k, b)| && Insert(free, k, b)[g].size >= b.size
  {
    if JoinsNext(free, k, b) { PlacedJoined(free, k, b); }
    g := if JoinsPrev(free, k, b) then k else k + 1;
  }

  lemma LinkFacts(mem: map<nat, Header>, free: seq<Ext>, i: nat)
    requires Linked(mem, free) && i < |free|
    ensures free[i].addr in mem && mem[free[i].addr] == Header(NextAddr(free, i), free[i].size)
  {
    assert LinkedAt(mem, free, i);
  }

  /** free()'s stopping test holds exactly at the gap. */
  lemma GapTest(free: seq<Ext>, bp: nat, k: nat, x: nat)
    requires Good(free) && Gap(free, k, bp) && x < |free| && free[0].addr < bp
    ensures
      var p, next := free[x].addr, NextAddr(free, x);
      x == k <==> (bp > p && bp < next) || (p >= next && (bp > p || bp < next))
  {
    hide Good;
    GapUnique(free, bp, k, x);
    if x + 1 < |free| { Ordered(free, x, x + 1); } else if x > 0 { Ordered(free, 0, x); }
  }

  lemma OwnsFacts(blk: map<nat, nat>, live: map<nat, nat>, free: seq<Ext>)
    requires Owns(blk, live, free)
    ensures forall a :: a in live ==> a in blk && blk[a] == live[a]
    ensures forall i: nat :: 1 <= i < |free| ==> free[i].addr !in live
  {
    forall i: nat | 1 <= i < |free|
      ensures free[i].addr !in live
    {
      assert Listed(blk, live, free[i]);
    }
  }

  /** Every block lies above the static header. */
  ghost predicate Above(blk: map<nat, nat>, base: nat) {
    forall a :: a in blk ==> a > base
  }

  /** The header of a live block still says its size. */
  ghost predicate Sized(mem: map<nat, Header>, live: map<nat, nat>) {
    forall a :: a in live ==> a in mem && mem[a].size == live[a]
  }

  lemma AboveFewer(blk: map<nat, nat>, blk': map<nat, nat>, base: nat, a: nat)
    requires Above(blk, base) && blk'.Keys <= blk.Keys && a in blk
    ensures Above(blk', base) && a > base
  {
  }

  class Heap {
    const base: nat
    var mem: map<nat, Header>
    var freep: nat                           // 0 before the first malloc
    ghost var free: seq<Ext>
    ghost var live: map<nat, nat>            // allocated blocks and their sizes
    ghost var blk: map<nat, nat>
    ghost var at: map<nat, nat>              // its keys are the units obtained from sbrk

    ghost predicate Listing()
      reads this
    {
      Good(free) && free[0].addr == base && Linked(mem, free) && exists i: nat :: i < |free| && free[i].addr == freep
    }

    ghost predicate Valid()
      reads this
    {
      && base > 0 && Tiles(blk, at) && Owns(blk, live, free)
      && Above(blk, base) && Sized(mem, live)
      && (if freep == 0 then free == [] && blk == map[] else Listing())
    }

    constructor (base: nat)
      requires base > 0
      ensures Valid() && freep == 0 && live == map[] && at == map[] && this.base == base
    {
      this.base := base;
      mem, freep := map[], 0;
      free, live, blk, at := [], map[], map[], map[];
    }

    /** The loop of free(): it stops, and at the gap bp belongs in. */
    method FindGap(bp: nat) returns (p: nat, ghost k: nat)
      requires Good(free) && Linked(mem, free) && free[0].addr < bp
      requires exists i: nat :: i < |free| && free[i].addr == freep
      requires forall i: nat :: i < |free| ==> free[i].addr != bp
      ensures k < |free| && Gap(free, k, bp) && p == free[k].addr
      ensures p in mem && p < bp && (bp < mem[p].ptr || mem[p].ptr <= p)
    {
      hide Good, LinkedAt;
      k := GapExists(free, bp, |free|);
      ghost var x: nat :| x < |free| && free[x].addr == freep;
      p := freep;
      LinkFacts(mem, free, x);
      GapTest(free, bp, k, x);
      while !(bp > p && bp < mem[p].ptr) && !(p >= mem[p].ptr && (bp > p || bp < mem[p].ptr))
        invariant x < |free| && k < |free| && p == free[x].addr
        invariant p in mem && mem[p].ptr == NextAddr(free, x)
        invariant x == k <==> (bp > p && bp < mem[p].ptr) || (p >= mem[p].ptr && (bp > p || bp < mem[p].ptr))
        decreases Distance(x, k, |free|)
      {
        p := mem[p].ptr;
        x := if x + 1 < |free| then x + 1 else 0;
        LinkFacts(mem, free, x);
        GapTest(free, bp, k, x);
      }
    }

    /** The two tests at the end of free(), as writes to the headers at bp and at p. */
    method Relink(bp: nat, p: nat, ghost k: nat)
      requires Good(free) && Linked(mem, free) && bp in mem && mem[bp].size >= 1
      requires Gap(free, k, bp) && p == free[k].addr && free[0].addr < bp
      requires JoinsPrev(free, k, Ext(bp, mem[bp].size)) ==> k >= 1
      modifies this`mem
      ensures Linked(mem, Insert(free, k, Ext(bp, old(mem[bp].size))))
      ensures forall a :: a in old(mem) && a != bp && a != p ==> a in mem && mem[a] == old(mem[a])
    {
      hide Good, Linked, LinkedAt;
      LinkFacts(mem, free, k);
      if k + 1 < |free| { LinkFacts(mem, free, k + 1); }
      var next := mem[p].ptr;
      if bp + mem[bp].size == next {
        mem := mem[bp := Header(mem[next].ptr, mem[bp].size + mem[next].size)];
      } else {
        mem := mem[bp := Header(next, mem[bp].size)];
      }
      if p + mem[p].size == bp {
        mem := mem[p := Header(mem[bp].ptr, mem[p].size + mem[bp].size)];
      } else {
        mem := mem[p := Header(bp, mem[p].size)];
      }
      Relinked(old(mem), free, k, Ext(bp, old(mem[bp].size)), mem);
    }

    /** umalloc.c's free: the block leaves the live ones, and the list takes it in, merged with what it touches. */
    method Free(ap: nat) returns (ghost k: nat)
      requires Valid() && ap >= 1 && ap - 1 in live
      modifies this
      ensures Valid() && live == old(live) - {ap - 1} && at.Keys == old(at.Keys)
      ensures k < |old(free)| && Gap(old(free), k, ap - 1) && free == Insert(old(free), k, Ext(ap - 1, old(live[ap - 1])))
      ensures freep == old(free)[k].addr != 0
    {
      hide Good, Linked, Owns, Tiles, LinkedAt, Insert, Gap, JoinsPrev, Above;
      var bp := ap - 1;
      ghost var b := Ext(bp, live[bp]);
      OwnsFacts(blk, live, free);
      AboveFewer(blk, blk, base, bp);
      var p;
      p, k := FindGap(bp);
      FitsGap(blk, at, live, free, k, b);
      ghost var blk', at' := Freed(blk, at, live, free, k, b);
      AboveFewer(blk, blk', base, bp);
      Relink(bp, p, k);
      freep := p;
      if k > 0 { Ordered(free, 0, k); }
      free, live, blk, at := Insert(free, k, b), live - {bp}, blk', at';
      assert free[k].addr == freep;
    }

    /** sbrk's memory becomes a live block, ready to be freed. */
    method AddCore(hp: nat, nu: nat)
      requires Valid() && freep != 0 && nu >= 1 && CoreIsFresh(hp, nu)
      modifies this`mem, this`live, this`blk, this`at
      ensures Valid() && hp !in old(live) && live == old(live)[hp := nu] && at.Keys == old(at.Keys) + Units(hp, nu)
    {
      hide Good, Linked, Owns, Tiles, LinkedAt;
      ExtendTiles(blk, at, hp, nu);
      ExtendOwns(blk, live, free, hp, nu);
      NotListed(blk, live, free, hp);
      mem := mem[hp := Header(if hp in mem then mem[hp].ptr else 0, nu)];
      LinkedElsewhere(old(mem), free, hp, mem);
      live, blk, at := live[hp := nu], blk[hp := nu], Filled(at, hp, nu);
    }

    ghost predicate CoreIsFresh(hp: nat, nu: nat)
      reads this
    {
      hp > base && forall u :: u in at ==> !(hp <= u < hp + nu)
    }

    /** morecore: on success one list element has at least nu units. */
    method Morecore(nu: nat, sbrk: Option<nat>) returns (p: nat, ghost g: nat)
      requires Valid() && freep != 0 && nu >= 1
      requires sbrk.Some? ==> CoreIsFresh(sbrk.value, CoreSize(nu))
      modifies this
      ensures Valid() && live == old(live) && freep != 0
      ensures sbrk.None? ==> p == 0 && unchanged(this)
      ensures sbrk.Some? ==> p == freep && at.Keys == old(at.Keys) + Units(sbrk.value, CoreSize(nu))
      ensures sbrk.Some? ==> g < |free| && free[g].size >= nu
    {
      hide Good, Linked, Owns, Tiles, LinkedAt, Insert;
      if sbrk.None? { return 0, 0; }
      var n := if nu < MINCORE then MINCORE else nu;
      AddCore(sbrk.value, n);
      ghost var k := Free(sbrk.value + 1);
      g := InsertBig(old(free), k, Ext(sbrk.value, n));
      assert live == old(live);
      p := freep;
    }

    /** The exact fit: the block at p leaves the list. */
    method TakeWhole(prevp: nat, p: nat, ghost i: nat)
      requires Valid() && freep != 0 && 1 <= i < |free| && p == free[i].addr && prevp == free[i - 1].addr
      modifies this
      ensures Valid() && p !in old(live) && live == old(live)[p := old(free)[i].size] && at == old(at)
      ensures free == Carved(old(free), i, old(free)[i].size) && freep == prevp != 0
    {
      hide Good, Linked, Owns, Tiles, LinkedAt;
      TakeFacts(blk, live, free, i);
      LinkFacts(mem, free, i);
      LinkFacts(mem, free, i - 1);
      OwnsFacts(blk, live, free);
      CarvedGood(free, i, free[i].size);
      RemovedOwns(blk, live, free, i);
      mem := mem[prevp := Header(mem[p].ptr, mem[prevp].size)];
      RemovedLinked(old(mem), free, i, mem);
      freep := prevp;
      live := live[p := free[i].size];
      free := Carved(free, i, free[i].size);
      assert free[i - 1].addr == prevp;
    }

    method CutHeader(p: nat, nunits: nat, ghost i: nat) returns (r: nat)
      requires Good(free) && Linked(mem, free) && 1 <= i < |free| && p == free[i].addr
      requires free[i].size > nunits >= 1
      modifies this`mem
      ensures r == p + free[i].size - nunits && r in mem && mem[r].size == nunits
      ensures Linked(mem, Carved(free, i, nunits))
      ensures forall a :: a in old(mem) && a != p && a != r ==> a in mem && mem[a] == old(mem[a])
    {
      hide Good, Linked, LinkedAt;
      LinkFacts(mem, free, i);
      mem := mem[p := Header(mem[p].ptr, mem[p].size - nunits)];
      r := p + mem[p].size;
      mem := mem[r := Header(if r in mem then mem[r].ptr else 0, nunits)];
      ShrunkLinked(old(mem), free, i, nunits, mem);
    }

    /** The larger fit: the end of the block at p is cut off. */
    method TakeEnd(prevp: nat, p: nat, nunits: nat, ghost i: nat) returns (r: nat)
      requires Valid() && freep != 0 && 1 <= i < |free| && p == free[i].addr && prevp == free[i - 1].addr
      requires free[i].size > nunits >= 1
      modifies this
      ensures Valid() && r !in old(live) && live == old(live)[r := nunits] && at.Keys == old(at.Keys)
      ensures r == p + old(free)[i].size - nunits && free == Carved(old(free), i, nunits) && freep == prevp != 0
    {
      hide Good, Linked, Owns, Tiles, LinkedAt, Moved, Cut;
      TakeFacts(blk, live, free, i);
      OwnsFacts(blk, live, free);
      CarvedGood(free, i, nunits);
      ShrunkOwns(blk, at, live, free, i, nunits);
      CutKeys(blk, p, free[i].size - nunits);
      SplitTiles(blk, at, p, free[i].size - nunits);
      r := CutHeader(p, nunits, i);
      blk, at := Cut(blk, p, free[i].size - nunits), Moved(at, p, r);
      freep := prevp;
      live := live[r := nunits];
      free := Carved(free, i, nunits);
      assert free[i - 1].addr == prevp;
    }

    /** The body of malloc's if: take nunits off the end of the block at p, or the whole block. */
    method Take(prevp: nat, p: nat, nunits: nat, ghost i: nat) returns (r: nat)
      requires Valid() && freep != 0 && 1 <= i < |free| && p == free[i].addr && prevp == free[i - 1].addr
      requires free[i].size >= nunits >= 1
      modifies this
      ensures Valid() && r !in old(live) && live == old(live)[r := nunits] && at.Keys == old(at.Keys)
      ensures r == p + old(free)[i].size - nunits && free == Carved(old(free), i, nunits) && freep == prevp != 0
    {
      hide Good, Linked, Owns, Tiles, LinkedAt, Carved;
      LinkFacts(mem, free, i);
      if mem[p].size == nunits {
        TakeWhole(prevp, p, i);
        r := p;
      } else {
        r := TakeEnd(prevp, p, nunits, i);
      }
    }

    ghost predicate Walking(f: nat, v: nat, prevp: nat, p: nat, n: nat)
      reads this
    {
      var m := |free|;
      && f < m && v < m && free[f].addr == freep
      && prevp == free[Wrap(f + v, m)].addr && p == free[Wrap(f + v + 1, m)].addr
      && TooSmall(free, f, v, n)
    }

    /** freep's index, and the walk about to look at the element after it. */
    lemma StartWalk(n: nat) returns (f: nat)
      requires Valid() && freep != 0
      ensures f < |free| && freep in mem && Walking(f, 0, freep, mem[freep].ptr, n)
    {
      hide Good, Linked, Owns, Tiles, LinkedAt;
      f :| f < |free| && free[f].addr == freep;
      LinkFacts(mem, free, f);
    }

    /** One step of the walk past an element that is too small. */
    lemma StepWalk(f: nat, v: nat, prevp: nat, p: nat, n: nat)
      requires Valid() && freep != 0 && Walking(f, v, prevp, p, n) && p in mem && mem[p].size < n
      ensures p == freep <==> v == |free| - 1
      ensures v < |free| - 1 ==> Walking(f, v + 1, p, mem[p].ptr, n)
      ensures v == |free| - 1 ==> forall i: nat :: i < |free| ==> free[i].size < n
    {
      hide Good, Linked, Owns, Tiles, LinkedAt;
      var m := |free|;
      LinkFacts(mem, free, Wrap(f + v + 1, m));
      assert free[Wrap(f + v + 1, m)].size < n;
      SameAddr(free, f, Wrap(f + v + 1, m));
    }

    /** malloc of nbytes.  `sbrk` is what sbrk would answer if malloc came to call it.  On success the block at
        r - 1 was cut from element i of the list l. */
    method Malloc(nbytes: nat, sbrk: Option<nat>)
      returns (r: nat, ghost calls: nat, ghost l: seq<Ext>, ghost i: nat)
      requires Valid() && nbytes < UINT && CoreSize(NUnits(nbytes)) * HEADER < 0x8000_0000
      requires sbrk.Some? ==> CoreIsFresh(sbrk.value, CoreSize(NUnits(nbytes)))
      modifies this
      ensures Valid() && calls <= 1
      ensures calls == 1 ==> forall j: nat :: j < |old(free)| ==> old(free)[j].size < NUnits(nbytes)
      ensures r == 0 ==> calls == 1 && sbrk.None? && live == old(live) && at == old(at)
      ensures r == 0 && old(freep) != 0 ==> unchanged(this)
      ensures r != 0 ==> r - 1 !in old(live) && live == old(live)[r - 1 := NUnits(nbytes)]
      ensures r != 0 && calls == 0 ==> at.Keys == old(at.Keys) && l == old(free)
      ensures r != 0 && calls == 1 ==> sbrk.Some? && at.Keys == old(at.Keys) + Units(sbrk.value, CoreSize(NUnits(nbytes)))
      ensures r != 0 ==> 1 <= i < |l| && l[i].size >= NUnits(nbytes) && free == Carved(l, i, NUnits(nbytes))
      ensures r != 0 ==> r - 1 == l[i].addr + l[i].size - NUnits(nbytes) && freep == l[i - 1].addr
    {
      hide Good, Linked, Owns, Tiles, LinkedAt, Carved, NUnits, Walking;
      var nunits := NUnits(nbytes);
      if freep == 0 {
        FirstCall();
      }
      calls, l, i := 0, free, 0;
      var prevp := freep;
      ghost var f := StartWalk(nunits);
      ghost var v := 0;
      var p := mem[prevp].ptr;
      ghost var g: nat := 0;
      while true
        invariant Valid() && freep != 0 && calls <= 1 && v < |free|
        invariant Walking(f, v, prevp, p, nunits)
        invariant live == old(live) && l == free
        invariant calls == 0 ==> at == old(at) && (if old(freep) != 0 then unchanged(this) else |free| == 1)
        invariant calls == 1 ==> sbrk.Some? && at.Keys == old(at.Keys) + Units(sbrk.value, CoreSize(nunits))
        invariant calls == 1 ==> g < |free| && free[g].size >= nunits
        invariant calls == 1 ==> forall j: nat :: j < |old(free)| ==> old(free)[j].size < nunits
        decreases 1 - calls, |free| - v
      {
        i := WalkFacts(f, v, prevp, p, nunits);
        if mem[p].size >= nunits {
          r := Take(prevp, p, nunits, i);
          r := r + 1;
          return;
        }
        StepWalk(f, v, prevp, p, nunits);
        if p == freep {
          calls := 1;
          p, g := Morecore(nunits, sbrk);
          if p == 0 {
            return 0, calls, l, i;
          }
          l := free;
          f := StartWalk(nunits);
          v := 0;
        } else {
          v := v + 1;
        }
        prevp, p := p, mem[p].ptr;
      }
    }

    method FirstCall()
      requires Valid() && freep == 0
      modifies this`freep, this`mem, this`free
      ensures Valid() && freep != 0 && free == [Ext(base, 0)]
    {
      hide Tiles;
      mem := mem[base := Header(base, 0)];
      freep := base;
      free := [Ext(base, 0)];
      assert LinkedAt(mem, free, 0);
    }

    lemma WalkFacts(f: nat, v: nat, prevp: nat, p: nat, n: nat) returns (i: nat)
      requires Valid() && freep != 0 && Walking(f, v, prevp, p, n)
      ensures prevp in mem && p in mem && i < |free| && p == free[i].addr && mem[p].size == free[i].size
      ensures mem[p].size >= n >= 1 ==> i >= 1 && prevp == free[i - 1].addr
    {
      hide Linked, Owns, Tiles, LinkedAt;
      i := Wrap(f + v + 1, |free|);
      LinkFacts(mem, free, i);
      LinkFacts(mem, free, Wrap(f + v, |free|));
    }
  }
}
