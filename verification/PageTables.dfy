/** Page allocator (kalloc.c) and two-level page tables (vm.c, mmu.h).  Physical memory is a map from page numbers
    to pages of 1024 words; a virtual page is its directory index i and its table index j. */
module PageTables {

  type Page = seq<nat>

  // ---- Entries ----

  const PTE_P: nat := 1
  const PTE_W: nat := 2
  const PTE_U: nat := 4

  predicate Present(w: nat) {
    w % 2 == 1
  }

  /** PTE_ADDR, as a page number. */
  function AddrOf(w: nat): nat {
    w / 4096
  }

  function FlagsOf(w: nat): nat {
    w % 4096
  }

  /** pa | perm | PTE_P */
  function Entry(p: nat, perm: nat): nat
    requires perm < 4096
  {
    p * 4096 + (if perm % 2 == 1 then perm else perm + 1)
  }

  lemma Quotient(w: nat, p: nat, f: nat)
    requires w == 4096 * p + f && f < 4096
    ensures w / 4096 == p && w % 4096 == f
  {
  }

  lemma Parity(w: nat, p: nat, f: nat)
    requires w == 4096 * p + f
    ensures w % 2 == f % 2
  {
    assert w == 2 * (2048 * p) + f;
  }

  lemma OddFlag(perm: nat)
    requires perm < 4096
    ensures var f := if perm % 2 == 1 then perm else perm + 1; f < 4096 && f % 2 == 1
  {
  }

  lemma EntryFacts(p: nat, perm: nat)
    requires perm < 4096
    ensures Present(Entry(p, perm)) && AddrOf(Entry(p, perm)) == p && !Present(0)
    ensures FlagsOf(Entry(p, perm)) == if perm % 2 == 1 then perm else perm + 1
  {
    var f := if perm % 2 == 1 then perm else perm + 1;
    OddFlag(perm);
    Quotient(Entry(p, perm), p, f);
    Parity(Entry(p, perm), p, f);
  }

  /** Copying an entry's flags makes them present and the same. */
  lemma FlagsCopy(w: nat, p: nat)
    requires Present(w)
    ensures FlagsOf(w) < 4096 && FlagsOf(Entry(p, FlagsOf(w))) == FlagsOf(w)
  {
    EntryFacts(p, FlagsOf(w));
    assert w == 4096 * (w / 4096) + w % 4096;
  }

  /** Memory with word k of page p set to w. */
  function Poke(mem: map<nat, Page>, p: nat, k: nat, w: nat): map<nat, Page>
    requires p in mem && k < |mem[p]|
  {
    var page: Page := mem[p][k := w];
    mem[p := page]
  }

  // ---- The free list, linked through the first word of each free page ----

  ghost predicate LinkAt(mem: map<nat, Page>, chain: seq<nat>, k: nat)
    requires k < |chain|
  {
    && chain[k] in mem && |mem[chain[k]]| == 1024
    && mem[chain[k]][0] == if k + 1 < |chain| then chain[k + 1] else 0
  }

  ghost predicate Chained(mem: map<nat, Page>, freelist: nat, chain: seq<nat>) {
    && freelist == (if chain == [] then 0 else chain[0])
    && (forall k: nat :: k < |chain| ==> chain[k] > 0 && LinkAt(mem, chain, k))
    && (forall k: nat, l: nat :: k < l < |chain| ==> chain[k] != chain[l])
  }

  lemma PushChained(mem: map<nat, Page>, freelist: nat, chain: seq<nat>, p: nat, page: Page)
    requires Chained(mem, freelist, chain) && p > 0 && p !in chain && |page| == 1024 && page[0] == freelist
    ensures Chained(mem[p := page], p, [p] + chain)
  {
    var mem', c := mem[p := page], [p] + chain;
    forall k: nat | k < |c|
      ensures c[k] > 0 && LinkAt(mem', c, k)
    {
      if k > 0 { assert c[k] == chain[k - 1] && LinkAt(mem, chain, k - 1); }
    }
  }

  lemma PopChained(mem: map<nat, Page>, freelist: nat, chain: seq<nat>)
    requires Chained(mem, freelist, chain) && chain != []
    ensures freelist == chain[0] && chain[0] in mem && |mem[freelist]| == 1024 && chain[0] !in chain[1..]
    ensures Chained(mem, mem[freelist][0], chain[1..])
  {
    assert LinkAt(mem, chain, 0);
    var c := chain[1..];
    forall k: nat | k < |c|
      ensures c[k] > 0 && LinkAt(mem, c, k)
    {
      assert LinkAt(mem, chain, k + 1);
    }
  }

  lemma WriteChained(mem: map<nat, Page>, freelist: nat, chain: seq<nat>, p: nat, page: Page)
    requires Chained(mem, freelist, chain) && p !in chain
    ensures Chained(mem[p := page], freelist, chain)
  {
    var mem' := mem[p := page];
    forall k: nat | k < |chain|
      ensures LinkAt(mem', chain, k)
    {
      assert LinkAt(mem, chain, k);
    }
  }

  // ---- What pages are used for ----

  /** A page directory; the table at index i of directory d; the user page at (i, j) of directory d; a page that
      freevm has still to free; a page in other use. */
  datatype Use = Dir | Tab(d: nat, i: nat) | User(d: nat, i: nat, j: nat) | Dying(d: nat, i: nat) | Other

  ghost predicate IsDir(owner: map<nat, Use>, d: nat) {
    d in owner && owner[d] == Dir
  }

  /** p is the table that entry i of directory d points to. */
  ghost predicate IsTable(mem: map<nat, Page>, d: nat, i: nat, p: nat) {
    d in mem && |mem[d]| == 1024 && i < 1024 && Present(mem[d][i]) && AddrOf(mem[d][i]) == p
  }

  ghost predicate IsUserPage(mem: map<nat, Page>, t: nat, j: nat, p: nat) {
    t in mem && j < |mem[t]| && Present(mem[t][j]) && AddrOf(mem[t][j]) == p
  }

  ghost predicate DirEntryOk(mem: map<nat, Page>, owner: map<nat, Use>, d: nat, i: nat)
    requires d in mem && i < |mem[d]|
  {
    Present(mem[d][i]) ==> AddrOf(mem[d][i]) in owner && owner[AddrOf(mem[d][i])] == Tab(d, i)
  }

  ghost predicate TableEntryOk(mem: map<nat, Page>, owner: map<nat, Use>, d: nat, i: nat, t: nat, j: nat)
    requires t in mem && j < |mem[t]|
  {
    Present(mem[t][j]) ==> AddrOf(mem[t][j]) in owner && owner[AddrOf(mem[t][j])] == User(d, i, j)
  }

  /** Forward: what a directory or a user table points to is used as that.  Backward: what is used as a table or a
      user page is pointed to. */
  ghost predicate UseOk(mem: map<nat, Page>, owner: map<nat, Use>, p: nat)
    requires p in owner
  {
    && p in mem && |mem[p]| == 1024
    && match owner[p]
       case Dir => forall i: nat :: i < 1024 ==> DirEntryOk(mem, owner, p, i)
       case Tab(d, i) =>
         && i < 1024 && IsDir(owner, d) && IsTable(mem, d, i, p)
         && (i < 512 ==> forall j: nat :: j < 1024 ==> TableEntryOk(mem, owner, d, i, p, j))
       case User(d, i, j) =>
         && i < 512 && j < 1024 && IsDir(owner, d) && d in mem && |mem[d]| == 1024
         && Present(mem[d][i]) && DirEntryOk(mem, owner, d, i) && IsUserPage(mem, AddrOf(mem[d][i]), j, p)
       case Dying(_, _) => true
       case Other => true
  }

  ghost predicate Own(mem: map<nat, Page>, owner: map<nat, Use>) {
    forall p: nat :: p in owner ==> UseOk(mem, owner, p)
  }

  /** The entry for (i, j), 0 if there is no table. */
  ghost function Lookup(mem: map<nat, Page>, d: nat, i: nat, j: nat): nat {
    if d in mem && i < |mem[d]| && Present(mem[d][i]) && AddrOf(mem[d][i]) in mem && j < |mem[AddrOf(mem[d][i])]|
    then mem[AddrOf(mem[d][i])][j] else 0
  }

  // ---- Each write keeps the uses right ----

  function ZeroPage(): (z: Page)
    ensures |z| == 1024 && forall k :: 0 <= k < 1024 ==> z[k] == 0
  {
    seq(1024, _ => 0)
  }

  /** Directory and user-table entries of a page that a write does not touch. */
  lemma EntriesKept(mem: map<nat, Page>, owner: map<nat, Use>, mem': map<nat, Page>, owner': map<nat, Use>, q: nat)
    requires q in owner && UseOk(mem, owner, q) && q in mem' && mem'[q] == mem[q]
    requires forall p: nat :: p in owner && (owner[p].Tab? || owner[p].User?) ==> p in owner' && owner'[p] == owner[p]
    ensures owner[q].Dir? ==> forall i: nat :: i < 1024 ==> DirEntryOk(mem', owner', q, i)
    ensures owner[q].Tab? && owner[q].i < 512 ==>
      forall j: nat :: j < 1024 ==> TableEntryOk(mem', owner', owner[q].d, owner[q].i, q, j)
  {
    hide Present, AddrOf;
    if owner[q].Dir? {
      forall i: nat | i < 1024
        ensures DirEntryOk(mem', owner', q, i)
      {
        assert DirEntryOk(mem, owner, q, i);
      }
    }
    if owner[q].Tab? && owner[q].i < 512 {
      forall j: nat | j < 1024
        ensures TableEntryOk(mem', owner', owner[q].d, owner[q].i, q, j)
      {
        assert TableEntryOk(mem, owner, owner[q].d, owner[q].i, q, j);
      }
    }
  }

  lemma NewTableKeeps(mem: map<nat, Page>, owner: map<nat, Use>, d: nat, i: nat, p: nat, mem': map<nat, Page>,
                      owner': map<nat, Use>, q: nat)
    requires IsDir(owner, d) && i < 1024 && p in owner && owner[p] == Other && q in owner && UseOk(mem, owner, q)
    requires d in mem && |mem[d]| == 1024 && !Present(mem[d][i])
    requires p != d && mem' == Poke(mem[p := ZeroPage()], d, i, Entry(p, 7)) && owner' == owner[p := Tab(d, i)]
    ensures UseOk(mem', owner', q)
  {
    hide Entry, Present, AddrOf;
    EntryFacts(p, 7);
    if q == d {
      forall k: nat | k < 1024
        ensures DirEntryOk(mem', owner', q, k)
      {
        assert DirEntryOk(mem, owner, q, k);
      }
    } else if q != p {
      EntriesKept(mem, owner, mem', owner', q);
    }
  }

  /** walkpgdir's new table. */
  lemma NewTable(mem: map<nat, Page>, owner: map<nat, Use>, d: nat, i: nat, p: nat, mem': map<nat, Page>)
    requires Own(mem, owner) && IsDir(owner, d) && i < 1024 && p in owner && owner[p] == Other
    requires d in mem && |mem[d]| == 1024 && !Present(mem[d][i])
    requires p != d && mem' == Poke(mem[p := ZeroPage()], d, i, Entry(p, 7))
    ensures Own(mem', owner[p := Tab(d, i)])
  {
    hide Entry, Present, AddrOf, UseOk;
    EntryFacts(p, 7);
    var owner' := owner[p := Tab(d, i)];
    forall q: nat | q in owner'
      ensures UseOk(mem', owner', q)
    {
      NewTableKeeps(mem, owner, d, i, p, mem', owner', q);
    }
  }

  lemma SetUserKeeps(mem: map<nat, Page>, owner: map<nat, Use>, t: nat, j: nat, p: nat, perm: nat,
                     mem': map<nat, Page>, owner': map<nat, Use>, q: nat)
    requires t in owner && owner[t].Tab? && owner[t].i < 512 && j < 1024 && UseOk(mem, owner, t)
    requires t in mem && |mem[t]| == 1024 && !Present(mem[t][j]) && p in owner && owner[p] == Other && perm < 4096
    requires mem' == Poke(mem, t, j, Entry(p, perm)) && owner' == owner[p := User(owner[t].d, owner[t].i, j)]
    requires q in owner && UseOk(mem, owner, q) && UseOk(mem, owner, p)
    ensures UseOk(mem', owner', q)
  {
    hide Entry, Present, AddrOf;
    EntryFacts(p, perm);
    if q == t {
      forall k: nat | k < 1024
        ensures TableEntryOk(mem', owner', owner[t].d, owner[t].i, t, k)
      {
        assert TableEntryOk(mem, owner, owner[t].d, owner[t].i, t, k);
      }
    } else if q != p {
      EntriesKept(mem, owner, mem', owner', q);
    }
  }

  /** mappages writing a user entry. */
  lemma SetUser(mem: map<nat, Page>, owner: map<nat, Use>, t: nat, j: nat, p: nat, perm: nat, mem': map<nat, Page>)
    requires Own(mem, owner) && t in owner && owner[t].Tab? && owner[t].i < 512 && j < 1024
    requires t in mem && |mem[t]| == 1024 && !Present(mem[t][j]) && p in owner && owner[p] == Other && perm < 4096
    requires mem' == Poke(mem, t, j, Entry(p, perm))
    ensures Own(mem', owner[p := User(owner[t].d, owner[t].i, j)])
  {
    hide Entry, Present, AddrOf, UseOk;
    var owner' := owner[p := User(owner[t].d, owner[t].i, j)];
    forall q: nat | q in owner'
      ensures UseOk(mem', owner', q)
    {
      assert UseOk(mem, owner, q) && UseOk(mem, owner, t);
      SetUserKeeps(mem, owner, t, j, p, perm, mem', owner', q);
    }
  }

  /** Entries of kernel tables, and the words of pages that hold no entries, may be anything. */
  lemma WritePage(mem: map<nat, Page>, owner: map<nat, Use>, p: nat, page: Page)
    requires Own(mem, owner) && p in owner && |page| == 1024
    requires (owner[p].Tab? && owner[p].i >= 512) || owner[p].User? || owner[p].Dying? || owner[p].Other?
    ensures Own(mem[p := page], owner)
  {
    hide Present, AddrOf;
    var mem' := mem[p := page];
    forall q: nat | q in owner
      ensures UseOk(mem', owner, q)
    {
      assert UseOk(mem, owner, q);
      if q != p { EntriesKept(mem, owner, mem', owner, q); }
    }
  }

  /** A page from the free list. */
  lemma Taken(mem: map<nat, Page>, owner: map<nat, Use>, p: nat)
    requires Own(mem, owner) && p !in owner && p in mem && |mem[p]| == 1024
    ensures Own(mem, owner[p := Other])
  {
    hide Present, AddrOf;
    var owner' := owner[p := Other];
    forall q: nat | q in owner'
      ensures UseOk(mem, owner', q)
    {
      if q != p {
        assert UseOk(mem, owner, q);
        EntriesKept(mem, owner, mem, owner', q);
      }
    }
  }

  /** A page to the free list that nothing points to. */
  lemma Given(mem: map<nat, Page>, owner: map<nat, Use>, p: nat, page: Page)
    requires Own(mem, owner) && p in owner && (owner[p].Dying? || owner[p].Other?)
    ensures Own(mem[p := page], owner - {p})
  {
    hide Present, AddrOf;
    var mem', owner' := mem[p := page], owner - {p};
    forall q: nat | q in owner'
      ensures UseOk(mem', owner', q)
    {
      assert UseOk(mem, owner, q);
      EntriesKept(mem, owner, mem', owner', q);
    }
  }

  lemma ClearUserKeeps(mem: map<nat, Page>, owner: map<nat, Use>, t: nat, j: nat, p: nat, page: Page,
                       mem': map<nat, Page>, owner': map<nat, Use>, q: nat)
    requires t in owner && owner[t].Tab? && owner[t].i < 512 && j < 1024 && UseOk(mem, owner, t)
    requires t in mem && |mem[t]| == 1024 && Present(mem[t][j]) && AddrOf(mem[t][j]) == p != t
    requires mem' == Poke(mem[p := page], t, j, 0) && owner' == owner - {p}
    requires q in owner' && UseOk(mem, owner, q)
    ensures UseOk(mem', owner', q)
  {
    hide Present, AddrOf;
    EntryFacts(0, 0);
    assert TableEntryOk(mem, owner, owner[t].d, owner[t].i, t, j);
    match owner[q]
    case Dir =>
      forall k: nat | k < 1024
        ensures DirEntryOk(mem', owner', q, k)
      {
        assert DirEntryOk(mem, owner, q, k);
      }
    case Tab(d, i) =>
      if i < 512 {
        forall k: nat | k < 1024
          ensures TableEntryOk(mem', owner', d, i, q, k)
        {
          assert TableEntryOk(mem, owner, d, i, q, k);
        }
      }
    case User(d, i, k) =>
    case _ =>
  }

  /** deallocuvm's step: the user page at entry j of table t is freed and the entry cleared. */
  lemma ClearUser(mem: map<nat, Page>, owner: map<nat, Use>, t: nat, j: nat, page: Page, mem': map<nat, Page>)
    requires Own(mem, owner) && t in owner && owner[t].Tab? && owner[t].i < 512 && j < 1024
    requires t in mem && |mem[t]| == 1024 && Present(mem[t][j]) && AddrOf(mem[t][j]) != t
    requires mem' == Poke(mem[AddrOf(mem[t][j]) := page], t, j, 0)
    ensures Own(mem', owner - {AddrOf(mem[t][j])})
  {
    hide Present, AddrOf, UseOk;
    var p := AddrOf(mem[t][j]);
    var owner' := owner - {p};
    forall q: nat | q in owner'
      ensures UseOk(mem', owner', q)
    {
      assert UseOk(mem, owner, q) && UseOk(mem, owner, t);
      ClearUserKeeps(mem, owner, t, j, p, page, mem', owner', q);
    }
  }

  // ---- Which entries a write changes ----

  ghost predicate SameAt(mem: map<nat, Page>, mem': map<nat, Page>, d: nat, i: nat, j: nat) {
    Lookup(mem', d, i, j) == Lookup(mem, d, i, j)
  }

  /** All address spaces look the same. */
  ghost predicate SameMaps(mem: map<nat, Page>, mem': map<nat, Page>, owner: map<nat, Use>) {
    forall e: nat, i: nat, j: nat :: IsDir(owner, e) && i < 1024 && j < 1024 ==> SameAt(mem, mem', e, i, j)
  }

  ghost predicate SameMapsBut(mem: map<nat, Page>, mem': map<nat, Page>, owner: map<nat, Use>, d: nat, i: nat, j: nat) {
    forall e: nat, k: nat, l: nat :: IsDir(owner, e) && k < 1024 && l < 1024 && (e, k, l) != (d, i, j) ==> SameAt(mem, mem', e, k, l)
  }

  lemma SameTrans(a: map<nat, Page>, b: map<nat, Page>, c: map<nat, Page>, owner: map<nat, Use>)
    requires SameMaps(a, b, owner) && SameMaps(b, c, owner)
    ensures SameMaps(a, c, owner)
  {
    forall e: nat, i: nat, j: nat | IsDir(owner, e) && i < 1024 && j < 1024
      ensures SameAt(a, c, e, i, j)
    {
      assert SameAt(a, b, e, i, j) && SameAt(b, c, e, i, j);
    }
  }

  /** The table of (e, i), if there is one, is used as that. */
  lemma TableUse(mem: map<nat, Page>, owner: map<nat, Use>, e: nat, i: nat)
    requires Own(mem, owner) && IsDir(owner, e) && i < 1024
    ensures e in mem && |mem[e]| == 1024
    ensures Present(mem[e][i]) ==>
      var t := AddrOf(mem[e][i]); t in owner && owner[t] == Tab(e, i) && t in mem && |mem[t]| == 1024
  {
    assert UseOk(mem, owner, e) && DirEntryOk(mem, owner, e, i);
    if Present(mem[e][i]) { assert UseOk(mem, owner, AddrOf(mem[e][i])); }
  }

  /** A page that is neither a directory nor a table does not matter to any address space. */
  lemma DataWriteSame(mem: map<nat, Page>, owner: map<nat, Use>, p: nat, page: Page)
    requires Own(mem, owner) && (p in owner ==> !owner[p].Dir? && !owner[p].Tab?)
    ensures SameMaps(mem, mem[p := page], owner)
  {
    hide Own, Present, AddrOf;
    var mem' := mem[p := page];
    forall e: nat, i: nat, j: nat | IsDir(owner, e) && i < 1024 && j < 1024
      ensures SameAt(mem, mem', e, i, j)
    {
      TableUse(mem, owner, e, i);
    }
  }

  lemma NewTableSame(mem: map<nat, Page>, owner: map<nat, Use>, d: nat, i: nat, p: nat, mem': map<nat, Page>)
    requires Own(mem, owner) && IsDir(owner, d) && i < 1024 && p in owner && owner[p] == Other
    requires d in mem && |mem[d]| == 1024 && !Present(mem[d][i])
    requires p != d && mem' == Poke(mem[p := ZeroPage()], d, i, Entry(p, 7))
    ensures SameMaps(mem, mem', owner) && IsTable(mem', d, i, p)
  {
    hide Own, Present, AddrOf, Entry;
    EntryFacts(p, 7);
    forall e: nat, k: nat, j: nat | IsDir(owner, e) && k < 1024 && j < 1024
      ensures SameAt(mem, mem', e, k, j)
    {
      TableUse(mem, owner, e, k);
    }
  }

  lemma TableWriteSame(mem: map<nat, Page>, owner: map<nat, Use>, t: nat, j: nat, w: nat)
    requires Own(mem, owner) && t in owner && owner[t].Tab? && j < 1024 && t in mem && |mem[t]| == 1024
    ensures SameMapsBut(mem, Poke(mem, t, j, w), owner, owner[t].d, owner[t].i, j)
    ensures Lookup(Poke(mem, t, j, w), owner[t].d, owner[t].i, j) == w
  {
    assert UseOk(mem, owner, t);
    hide Own, Present, AddrOf;
    var mem' := Poke(mem, t, j, w);
    forall e: nat, k: nat, l: nat | IsDir(owner, e) && k < 1024 && l < 1024 && (e, k, l) != (owner[t].d, owner[t].i, j)
      ensures SameAt(mem, mem', e, k, l)
    {
      TableUse(mem, owner, e, k);
    }
  }

  // ---- How uses change ----

  /** Nothing but tables of d was added. */
  ghost predicate TablesAdded(o: map<nat, Use>, o': map<nat, Use>, d: nat) {
    && (forall p: nat :: p in o ==> p in o' && o'[p] == o[p])
    && (forall p: nat :: p in o' && p !in o ==> o'[p].Tab? && o'[p].d == d)
  }

  ghost predicate HoldsData(u: Use) {
    u.User? || u.Other? || u.Dying?
  }

  /** Pages that hold no entries have the same contents. */
  ghost predicate DataSame(mem: map<nat, Page>, mem': map<nat, Page>, o: map<nat, Use>) {
    forall p: nat :: p in o && HoldsData(o[p]) ==> p in mem && p in mem' && mem'[p] == mem[p]
  }

  /** The user page at a virtual page of d in a range. */
  ghost predicate InRange(u: Use, d: nat, lo: nat, hi: nat) {
    u.User? && u.d == d && lo <= u.i * 1024 + u.j < hi
  }

  /** The user pages of d in the range are gone, and nothing else. */
  ghost predicate UsersDropped(o: map<nat, Use>, o': map<nat, Use>, d: nat, lo: nat, hi: nat) {
    && (forall p: nat :: p in o' ==> p in o && o'[p] == o[p])
    && (forall p: nat :: p in o ==> (p in o' <==> !InRange(o[p], d, lo, hi)))
  }

  /** Entries of d outside the range, and all other address spaces, look the same; inside nothing is mapped. */
  ghost predicate Unmapped(mem: map<nat, Page>, mem': map<nat, Page>, o: map<nat, Use>, d: nat, lo: nat, hi: nat) {
    forall e: nat, i: nat, j: nat :: IsDir(o, e) && i < 1024 && j < 1024 ==>
      if e == d && lo <= i * 1024 + j < hi then !Present(Lookup(mem', e, i, j)) else SameAt(mem, mem', e, i, j)
  }

  // ---- The kernel's memory ----

  /** No freevm is under way. */
  ghost predicate Steady(o: map<nat, Use>) {
    forall p: nat :: p in o ==> !o[p].Dying?
  }

  /** Pages lo..hi are managed; each is free or in use. */
  ghost predicate Partition(owner: map<nat, Use>, chain: seq<nat>, lo: nat, hi: nat) {
    && (forall p: nat :: p in owner ==> lo <= p < hi && p !in chain)
    && (forall p: nat :: p in chain ==> lo <= p < hi && p !in owner)
    && (forall p: nat :: lo <= p < hi ==> p in owner || p in chain)
  }

  /** m is 0, or a page just taken from the free list. */
  ghost predicate InHand(o: map<nat, Use>, o': map<nat, Use>, m: nat) {
    if m == 0 then o' == o else m !in o && o' == o[m := Other]
  }

  /** The same entry, or nothing mapped either way. */
  ghost predicate SameView(w: nat, w': nat) {
    w == w' || (!Present(w) && !Present(w'))
  }

  /** Entry w has the flags, and leads to a page with the content. */
  ghost predicate MapsTo(mem: map<nat, Page>, w: nat, flags: nat, content: Page) {
    Present(w) && FlagsOf(w) == flags && AddrOf(w) in mem && mem[AddrOf(w)] == content
  }

  lemma Steadier(o: map<nat, Use>, m: nat)
    requires Steady(o)
    ensures Steady(o - {m})
  {
  }

  lemma TableRead(mem: map<nat, Page>, o: map<nat, Use>, d: nat, i: nat, j: nat, t: nat)
    requires Own(mem, o) && IsDir(o, d) && i < 1024 && j < 1024 && Present(Lookup(mem, d, i, j))
    requires t == 0 ==> d in mem && i < |mem[d]| && !Present(mem[d][i])
    requires t != 0 ==> IsTable(mem, d, i, t) && t in mem && |mem[t]| == 1024
    ensures t != 0 && mem[t][j] == Lookup(mem, d, i, j)
  {
    EntryFacts(0, 0);
  }

  lemma AddedRefl(o: map<nat, Use>, d: nat)
    ensures TablesAdded(o, o, d)
  {
  }

  lemma NewDir(mem: map<nat, Page>, owner: map<nat, Use>, p: nat)
    requires Own(mem, owner) && p in owner && owner[p] == Other
    ensures Own(mem[p := ZeroPage()], owner[p := Dir])
  {
    hide Present, AddrOf;
    EntryFacts(0, 0);
    var mem', owner' := mem[p := ZeroPage()], owner[p := Dir];
    forall q: nat | q in owner'
      ensures UseOk(mem', owner', q)
    {
      assert UseOk(mem, owner, q);
      if q != p { EntriesKept(mem, owner, mem', owner', q); }
    }
  }

  /** As TablesAdded, with user pages of d in a range added too. */
  ghost predicate Grown(o: map<nat, Use>, o': map<nat, Use>, d: nat, lo: nat, hi: nat) {
    && (forall p: nat :: p in o ==> p in o' && o'[p] == o[p])
    && (forall p: nat :: p in o' && p !in o ==> (o'[p].Tab? && o'[p].d == d) || InRange(o'[p], d, lo, hi))
  }

  lemma GrownTables(o: map<nat, Use>, o': map<nat, Use>, d: nat, n: nat)
    requires TablesAdded(o, o', d)
    ensures Grown(o, o', d, 0, n)
  {
  }

  /** An entry of kmap: virtual page, physical page, number of pages, permissions. */
  datatype Region = Region(virt: nat, phys: nat, n: nat, perm: nat)

  /** vm.c's kmap, in pages: I/O space, kernel text and read-only data, kernel data and memory, devices. */
  function Kmap(data: nat): seq<Region>
    requires 0x100 < data < 0xE000
  {
    [Region(0x80000, 0, 0x100, 2), Region(0x80100, 0x100, data - 0x100, 0),
     Region(0x80000 + data, data, 0xE000 - data, 2), Region(0xFE000, 0xFE000, 0x2000, 2)]
  }

  predicate RegionsOk(rs: seq<Region>) {
    forall k :: 0 <= k < |rs| ==> rs[k].perm < 4096
  }

  /** The entry that the first n regions give virtual page v. */
  function KernelPte(rs: seq<Region>, n: nat, v: nat): nat
    requires n <= |rs| && RegionsOk(rs)
  {
    if n == 0 then 0
    else if rs[n - 1].virt <= v < rs[n - 1].virt + rs[n - 1].n
    then Entry(rs[n - 1].phys + (v - rs[n - 1].virt), rs[n - 1].perm)
    else KernelPte(rs, n - 1, v)
  }

  lemma KmapSize(data: nat)
    requires 0x100 < data < 0xE000
    ensures |Kmap(data)| == 4 && RegionsOk(Kmap(data))
  {
  }

  /** Regions lie in the kernel's part and do not overlap: mappages never finds an entry present. */
  lemma KmapOk(data: nat, n: nat)
    requires 0x100 < data < 0xE000 && n < 4
    ensures |Kmap(data)| == 4 && RegionsOk(Kmap(data))
    ensures var r := Kmap(data)[n];
            && 0x80000 <= r.virt && r.virt + r.n <= 0x100000 && r.perm < 4096
            && forall v: nat :: r.virt <= v < r.virt + r.n ==> KernelPte(Kmap(data), n, v) == 0
  {
    hide Entry, Present;
    EntryFacts(0, 0);
    var rs := Kmap(data);
    forall v: nat | rs[n].virt <= v < rs[n].virt + rs[n].n
      ensures KernelPte(rs, n, v) == 0
    {
      assert KernelPte(rs, 0, v) == 0;
      if n >= 1 { assert KernelPte(rs, 1, v) == 0; }
      if n >= 2 { assert KernelPte(rs, 2, v) == 0; }
    }
  }

  ghost function LookV(mem: map<nat, Page>, d: nat, v: nat): nat {
    Lookup(mem, d, v / 1024, v % 1024)
  }

  /** Virtual page v of c is mapped as in d, with the same flags, to a page of its own with the same words. */
  ghost predicate CopiedAt(mem0: map<nat, Page>, mem: map<nat, Page>, d: nat, c: nat, o0: map<nat, Use>, v: nat) {
    && AddrOf(LookV(mem0, d, v)) in mem0 && AddrOf(LookV(mem, c, v)) !in o0
    && MapsTo(mem, LookV(mem, c, v), FlagsOf(LookV(mem0, d, v)), mem0[AddrOf(LookV(mem0, d, v))])
  }

  ghost predicate Copied(mem0: map<nat, Page>, mem: map<nat, Page>, d: nat, c: nat, o0: map<nat, Use>, n: nat) {
    forall v: nat :: v < n ==> CopiedAt(mem0, mem, d, c, o0, v)
  }

  /** From virtual page n on c maps what setupkvm maps, so nothing more in the user's part. */
  ghost predicate RestKernel(mem: map<nat, Page>, c: nat, data: nat, n: nat) {
    && 0x100 < data < 0xE000
    && forall v: nat :: n <= v < 0x100000 ==> LookV(mem, c, v) == KernelPte(Kmap(data), 4, v)
  }

  /** Between two ranges of virtual pages of d only the given one may differ. */
  ghost predicate SameBut(mem0: map<nat, Page>, mem: map<nat, Page>, d: nat, lo: nat, hi: nat) {
    forall v: nat :: v < 0x100000 && !(lo <= v < hi) ==> LookV(mem, d, v) == LookV(mem0, d, v)
  }

  ghost predicate ZeroedAt(mem: map<nat, Page>, d: nat, v: nat) {
    MapsTo(mem, LookV(mem, d, v), PTE_P + PTE_W + PTE_U, ZeroPage())
  }

  /** Virtual pages lo..hi of d are mapped to zeroed pages, writable by the user; the rest of d is as before. */
  ghost predicate UserZeroed(mem0: map<nat, Page>, mem: map<nat, Page>, d: nat, lo: nat, hi: nat) {
    && (forall v: nat :: v < 0x100000 && !(lo <= v < hi) ==> LookV(mem, d, v) == LookV(mem0, d, v))
    && (forall v: nat :: lo <= v < hi ==> ZeroedAt(mem, d, v))
  }

  lemma LookIs(mem: map<nat, Page>, d: nat, v: nat)
    ensures LookV(mem, d, v) == Lookup(mem, d, v / 1024, v % 1024)
  {
  }

  lemma NextClear(mem0: map<nat, Page>, mem: map<nat, Page>, d: nat, lo: nat, a: nat)
    requires UserZeroed(mem0, mem, d, lo, a) && lo <= a < 0x80000
    requires forall v: nat :: lo <= v < 0x80000 ==> !Present(LookV(mem0, d, v))
    ensures !Present(LookV(mem, d, a))
  {
  }

  /** The user's part is free from n on. */
  lemma ChildClear(mem: map<nat, Page>, c: nat, data: nat, v: nat)
    requires RestKernel(mem, c, data, v) && v < 0x80000
    ensures !Present(LookV(mem, c, v))
  {
    EntryFacts(0, 0);
    var rs := Kmap(data);
    assert KernelPte(rs, 0, v) == 0 && KernelPte(rs, 1, v) == 0 && KernelPte(rs, 2, v) == 0 && KernelPte(rs, 3, v) == 0;
    assert KernelPte(rs, 4, v) == 0;
  }

  /** d maps the first n regions of kmap and nothing else. */
  ghost predicate KernelMapped(mem: map<nat, Page>, d: nat, data: nat, n: nat) {
    && 0x100 < data < 0xE000 && n <= 4
    && forall v: nat :: v < 0x100000 ==> LookV(mem, d, v) == KernelPte(Kmap(data), n, v)
  }

  lemma NothingMapped(mem: map<nat, Page>, d: nat, data: nat)
    requires 0x100 < data < 0xE000 && forall v: nat :: v < 0x100000 ==> LookV(mem, d, v) == 0
    ensures KernelMapped(mem, d, data, 0)
  {
    hide LookV;
  }

  lemma RegionClear(data: nat, n: nat, mem: map<nat, Page>, d: nat)
    requires n < 4 && KernelMapped(mem, d, data, n)
    ensures |Kmap(data)| == 4
    ensures var r := Kmap(data)[n]; forall v: nat :: r.virt <= v < r.virt + r.n ==> !Present(LookV(mem, d, v))
  {
    KmapOk(data, n);
    EntryFacts(0, 0);
    hide LookV, KernelPte, Entry, Present;
  }

  /** The first k pages of the region are mapped; the rest of d looks as before. */
  ghost predicate RegionMapped(mem0: map<nat, Page>, mem: map<nat, Page>, d: nat, r: Region, k: nat)
    requires r.perm < 4096
  {
    forall v: nat :: v < 0x100000 ==>
      LookV(mem, d, v) == if r.virt <= v < r.virt + k then Entry(r.phys + (v - r.virt), r.perm) else LookV(mem0, d, v)
  }

  lemma KernelStep(data: nat, n: nat, mem: map<nat, Page>, mem': map<nat, Page>, d: nat)
    requires n < 4 && KernelMapped(mem, d, data, n) && RegionMapped(mem, mem', d, Kmap(data)[n], Kmap(data)[n].n)
    ensures KernelMapped(mem', d, data, n + 1)
  {
    KmapSize(data);
    hide Entry, LookV, Kmap, RegionsOk;
  }

  ghost predicate OthersSame(mem0: map<nat, Page>, mem: map<nat, Page>, o: map<nat, Use>, d: nat) {
    forall e: nat, i: nat, j: nat :: IsDir(o, e) && e != d && i < 1024 && j < 1024 ==> SameAt(mem0, mem, e, i, j)
  }

  lemma GrowStart(mem: map<nat, Page>, o: map<nat, Use>, d: nat, lo: nat, hi: nat)
    ensures Grown(o, o, d, lo, hi) && Grown(o, o, d, lo, lo) && OthersSame(mem, mem, o, d) && UserZeroed(mem, mem, d, lo, lo)
    ensures hi <= lo ==> UserZeroed(mem, mem, d, lo, hi)
  {
  }

  lemma CopyStart(mem0: map<nat, Page>, mem: map<nat, Page>, o0: map<nat, Use>, o: map<nat, Use>, d: nat, c: nat, data: nat)
    requires SameMaps(mem0, mem, o0) && KernelMapped(mem, c, data, 4) && TablesAdded(o0[c := Dir], o, c)
    ensures OthersSame(mem0, mem, o0, c) && Grown(o0[c := Dir], o, c, 0, 0)
    ensures Copied(mem0, mem, d, c, o0, 0) && RestKernel(mem, c, data, 0)
  {
  }

  lemma OthersAll(mem0: map<nat, Page>, mem: map<nat, Page>, o: map<nat, Use>, d: nat)
    requires OthersSame(mem0, mem, o, d) && d !in o
    ensures SameMaps(mem0, mem, o)
  {
  }

  lemma OthersTrans(a: map<nat, Page>, b: map<nat, Page>, c: map<nat, Page>, o: map<nat, Use>, o1: map<nat, Use>,
                    o2: map<nat, Use>, d: nat)
    requires OthersSame(a, b, o, d) && OthersSame(b, c, o2, d) && DataSame(a, b, o) && DataSame(b, c, o2)
    requires o1 == o[d := Dir] && d !in o && TablesAdded(o1, o2, d)
    ensures OthersSame(a, c, o, d) && DataSame(a, c, o)
  {
    hide Lookup;
    forall e: nat, i: nat, j: nat | IsDir(o, e) && e != d && i < 1024 && j < 1024
      ensures SameAt(a, c, e, i, j)
    {
      assert IsDir(o1, e) && IsDir(o2, e) && SameAt(a, b, e, i, j) && SameAt(b, c, e, i, j);
    }
    forall p: nat | p in o && HoldsData(o[p])
      ensures p in a && p in c && c[p] == a[p]
    {
      assert p in o1 && p in o2;
    }
  }

  lemma RegionStart(mem: map<nat, Page>, o: map<nat, Use>, d: nat, r: Region)
    requires r.perm < 4096
    ensures RegionMapped(mem, mem, d, r, 0) && OthersSame(mem, mem, o, d) && TablesAdded(o, o, d)
  {
  }

  lemma SplitV(v: nat)
    requires v < 0x100000
    ensures v / 1024 < 1024 && v % 1024 < 1024 && v / 1024 * 1024 + v % 1024 == v
    ensures v >= 0x80000 ==> v / 1024 >= 512
    ensures v < 0x80000 ==> v / 1024 < 512
  {
  }

  lemma SameAtV(mem: map<nat, Page>, mem': map<nat, Page>, o: map<nat, Use>, d: nat, v: nat)
    requires SameMaps(mem, mem', o) && IsDir(o, d) && v < 0x100000
    ensures LookV(mem', d, v) == LookV(mem, d, v)
  {
    hide Lookup;
    SplitV(v);
    assert SameAt(mem, mem', d, v / 1024, v % 1024);
  }

  /** The bookkeeping of one page added. */
  lemma GrownOn(mem0: map<nat, Page>, mem1: map<nat, Page>, mem: map<nat, Page>, o0: map<nat, Use>, o1: map<nat, Use>,
                o: map<nat, Use>, d: nat, lo: nat, a: nat, m: nat)
    requires IsDir(o0, d) && IsDir(o1, d) && lo <= a < 0x80000 && m !in o1 && Grown(o0, o1, d, lo, a)
    requires DataSame(mem0, mem1, o0) && OthersSame(mem0, mem1, o0, d) && DataSame(mem1, mem, o1)
    requires SameMapsBut(mem1, mem, o1, d, a / 1024, a % 1024) && TablesAdded(o1[m := User(d, a / 1024, a % 1024)], o, d)
    ensures Grown(o0, o, d, lo, a + 1) && DataSame(mem0, mem, o0) && OthersSame(mem0, mem, o0, d) && IsDir(o, d)
  {
    hide Lookup;
    SplitV(a);
    var o2 := o1[m := User(d, a / 1024, a % 1024)];
    forall e: nat, i: nat, j: nat | IsDir(o0, e) && e != d && i < 1024 && j < 1024
      ensures SameAt(mem0, mem, e, i, j)
    {
      assert IsDir(o1, e) && SameAt(mem0, mem1, e, i, j) && SameAt(mem1, mem, e, i, j);
    }
    forall p: nat | p in o && p !in o0
      ensures (o[p].Tab? && o[p].d == d) || InRange(o[p], d, lo, a + 1)
    {
      if p in o2 { assert o[p] == o2[p]; }
    }
    forall p: nat | p in o0
      ensures p in o && o[p] == o0[p]
    {
      assert p in o1 && p in o2;
    }
  }

  lemma GrowFailed(mem0: map<nat, Page>, mem1: map<nat, Page>, mem: map<nat, Page>, o0: map<nat, Use>, o1: map<nat, Use>,
                   o: map<nat, Use>, d: nat, lo: nat, a: nat, m: nat)
    requires IsDir(o0, d) && IsDir(o1, d) && Grown(o0, o1, d, lo, a) && UserZeroed(mem0, mem1, d, lo, a)
    requires DataSame(mem0, mem1, o0) && OthersSame(mem0, mem1, o0, d) && DataSame(mem1, mem, o1) && SameMaps(mem1, mem, o1)
    requires (m != 0 ==> m !in o1) && o == if m == 0 then o1 else o1[m := Other]
    ensures InHand(o1, o, m) && SameBut(mem0, mem, d, lo, a)
    ensures DataSame(mem0, mem, o0) && OthersSame(mem0, mem, o0, d)
  {
    hide Lookup, LookV;
    forall v: nat | v < 0x100000
      ensures LookV(mem, d, v) == LookV(mem1, d, v)
    {
      SameAtV(mem1, mem, o1, d, v);
    }
    forall e: nat, i: nat, j: nat | IsDir(o0, e) && e != d && i < 1024 && j < 1024
      ensures SameAt(mem0, mem, e, i, j)
    {
      assert IsDir(o1, e) && SameAt(mem0, mem1, e, i, j) && SameAt(mem1, mem, e, i, j);
    }
  }

  lemma UndoAt(mem0: map<nat, Page>, mem1: map<nat, Page>, mem2: map<nat, Page>, o2: map<nat, Use>, d: nat, lo: nat, a: nat,
               hi: nat, v: nat)
    requires IsDir(o2, d) && lo <= a < hi <= 0x80000 && v < 0x80000 && SameBut(mem0, mem1, d, lo, a)
    requires forall u: nat :: lo <= u < 0x80000 ==> !Present(LookV(mem0, d, u))
    requires Unmapped(mem1, mem2, o2, d, lo, hi)
    ensures SameView(LookV(mem0, d, v), LookV(mem2, d, v))
  {
    hide Present, Lookup;
    SplitV(v);
    var i, j := v / 1024, v % 1024;
    assert if lo <= i * 1024 + j < hi then !Present(Lookup(mem2, d, i, j)) else SameAt(mem1, mem2, d, i, j);
  }

  lemma CopyBooks(mem0: map<nat, Page>, mem1: map<nat, Page>, mem: map<nat, Page>, o0: map<nat, Use>, o1: map<nat, Use>,
                  o: map<nat, Use>, c: nat, v: nat, m: nat)
    requires c !in o0 && IsDir(o1, c) && v < 0x80000 && m !in o1
    requires Grown(o0[c := Dir], o1, c, 0, v) && DataSame(mem0, mem1, o0) && OthersSame(mem0, mem1, o0, c)
    requires SameMapsBut(mem1, mem, o1, c, v / 1024, v % 1024) && TablesAdded(o1[m := User(c, v / 1024, v % 1024)], o, c)
    requires DataSame(mem1, mem, o1)
    ensures Grown(o0[c := Dir], o, c, 0, v + 1) && DataSame(mem0, mem, o0) && OthersSame(mem0, mem, o0, c) && IsDir(o, c)
    ensures m !in o0
  {
    hide Lookup;
    SplitV(v);
    var oc, o2 := o0[c := Dir], o1[m := User(c, v / 1024, v % 1024)];
    forall e: nat, i: nat, j: nat | IsDir(o0, e) && e != c && i < 1024 && j < 1024
      ensures SameAt(mem0, mem, e, i, j)
    {
      assert IsDir(oc, e) && IsDir(o1, e) && SameAt(mem0, mem1, e, i, j) && SameAt(mem1, mem, e, i, j);
    }
    forall p: nat | p in o && p !in oc
      ensures (o[p].Tab? && o[p].d == c) || InRange(o[p], c, 0, v + 1)
    {
      if p in o2 { assert o[p] == o2[p]; }
    }
    forall p: nat | p in oc
      ensures p in o && o[p] == oc[p]
    {
      assert p in o1 && p in o2;
    }
    forall p: nat | p in o0
      ensures p in o1 && o1[p] == o0[p]
    {
      assert p in oc;
    }
  }

  lemma RegionNext(mem0: map<nat, Page>, mem: map<nat, Page>, d: nat, r: Region, k: nat)
    requires r.perm < 4096 && k < r.n && r.virt + r.n <= 0x100000 && RegionMapped(mem0, mem, d, r, k)
    requires forall v: nat :: r.virt <= v < r.virt + r.n ==> !Present(LookV(mem0, d, v))
    ensures !Present(LookV(mem, d, r.virt + k))
  {
  }

  /** A change at one virtual page of d, seen by virtual page. */
  lemma ChangeAt(mem: map<nat, Page>, mem': map<nat, Page>, o: map<nat, Use>, d: nat, v: nat, u: nat)
    requires IsDir(o, d) && v < 0x100000 && u < 0x100000 && u != v
    requires SameMapsBut(mem, mem', o, d, v / 1024, v % 1024)
    ensures LookV(mem', d, u) == LookV(mem, d, u)
  {
    hide Lookup;
    SplitV(v);
    SplitV(u);
    assert SameAt(mem, mem', d, u / 1024, u % 1024);
  }

  lemma RegionStep(mem0: map<nat, Page>, mem1: map<nat, Page>, mem: map<nat, Page>, o: map<nat, Use>, o1: map<nat, Use>,
                   d: nat, r: Region, k: nat)
    requires r.perm < 4096 && r.virt + k < 0x100000 && IsDir(o, d) && IsDir(o1, d) && TablesAdded(o, o1, d)
    requires RegionMapped(mem0, mem1, d, r, k) && OthersSame(mem0, mem1, o, d)
    requires var v := r.virt + k; SameMapsBut(mem1, mem, o1, d, v / 1024, v % 1024) && LookV(mem, d, v) == Entry(r.phys + k, r.perm)
    ensures RegionMapped(mem0, mem, d, r, k + 1) && OthersSame(mem0, mem, o, d)
  {
    hide Lookup, Entry;
    forall u: nat | u < 0x100000
      ensures LookV(mem, d, u) == if r.virt <= u < r.virt + (k + 1) then Entry(r.phys + (u - r.virt), r.perm) else LookV(mem0, d, u)
    {
      if u != r.virt + k { ChangeAt(mem1, mem, o1, d, r.virt + k, u); }
    }
    forall e: nat, i: nat, j: nat | IsDir(o, e) && e != d && i < 1024 && j < 1024
      ensures SameAt(mem0, mem, e, i, j)
    {
      assert SameAt(mem0, mem1, e, i, j) && SameAt(mem1, mem, e, i, j);
    }
  }

  lemma AddedTrans(o: map<nat, Use>, o1: map<nat, Use>, o2: map<nat, Use>, d: nat)
    requires TablesAdded(o, o1, d) && TablesAdded(o1, o2, d)
    ensures TablesAdded(o, o2, d)
  {
  }

  lemma DataAddTrans(a: map<nat, Page>, b: map<nat, Page>, c: map<nat, Page>, o: map<nat, Use>, o1: map<nat, Use>, d: nat)
    requires DataSame(a, b, o) && DataSame(b, c, o1) && TablesAdded(o, o1, d)
    ensures DataSame(a, c, o)
  {
  }

  ghost predicate Belongs(o: map<nat, Use>, p: nat, d: nat)
    requires p in o
  {
    p == d || (o[p].Tab? && o[p].d == d) || (o[p].User? && o[p].d == d)
  }

  /** All uses but those of address space d. */
  ghost function Without(o: map<nat, Use>, d: nat): map<nat, Use> {
    map p | p in o && !Belongs(o, p, d) :: o[p]
  }

  lemma FreshWithout(mem0: map<nat, Page>, o0: map<nat, Use>, o: map<nat, Use>, d: nat, n: nat)
    requires Own(mem0, o0) && d !in o0 && Grown(o0[d := Dir], o, d, 0, n)
    ensures Without(o, d) == o0
  {
    forall p: nat | p in o0
      ensures !Belongs(o, p, d)
    {
      assert UseOk(mem0, o0, p);
    }
  }

  ghost function Doomed(o: map<nat, Use>, d: nat): map<nat, Use> {
    map p | p in o :: if p == d then Dying(d, 1024) else if o[p].Tab? && o[p].d == d then Dying(d, o[p].i) else o[p]
  }

  ghost predicate NoUsers(o: map<nat, Use>, d: nat) {
    forall p: nat :: p in o ==> !(o[p].User? && o[p].d == d) && !(o[p].Dying? && o[p].d == d)
  }

  /** The directory's entries and the dying tables are the same. */
  ghost predicate DyingTables(dir: Page, o: map<nat, Use>, d: nat) {
    && |dir| == 1024
    && (forall k: nat :: k < 1024 && Present(dir[k]) ==> AddrOf(dir[k]) in o && o[AddrOf(dir[k])] == Dying(d, k))
    && (forall p: nat :: p in o && o[p].Dying? && o[p].d == d && p != d ==>
          o[p].i < 1024 && Present(dir[o[p].i]) && AddrOf(dir[o[p].i]) == p)
  }

  ghost predicate TablesFreed(o0: map<nat, Use>, o: map<nat, Use>, d: nat, n: nat) {
    && (forall p: nat :: p in o ==> p in o0 && o[p] == o0[p])
    && (forall p: nat :: p in o0 ==> (p in o <==> !(o0[p].Dying? && o0[p].d == d && o0[p].i < n)))
  }

  ghost predicate SameOwned(mem: map<nat, Page>, mem': map<nat, Page>, o: map<nat, Use>) {
    forall p: nat :: p in o ==> p in mem && p in mem' && mem'[p] == mem[p]
  }

  lemma DoomOwn(mem: map<nat, Page>, o: map<nat, Use>, d: nat)
    requires Own(mem, o) && NoUsers(o, d) && IsDir(o, d)
    ensures Own(mem, Doomed(o, d))
  {
    hide Present, AddrOf;
    var o' := Doomed(o, d);
    forall q: nat | q in o'
      ensures UseOk(mem, o', q)
    {
      assert UseOk(mem, o, q);
      match o'[q]
      case Dir =>
        forall i: nat | i < 1024
          ensures DirEntryOk(mem, o', q, i)
        {
          assert DirEntryOk(mem, o, q, i);
        }
      case Tab(e, i) =>
        if i < 512 {
          forall j: nat | j < 1024
            ensures TableEntryOk(mem, o', e, i, q, j)
          {
            assert TableEntryOk(mem, o, e, i, q, j);
          }
        }
      case _ =>
    }
  }

  lemma DoomPartition(o: map<nat, Use>, chain: seq<nat>, lo: nat, hi: nat, d: nat)
    requires Partition(o, chain, lo, hi)
    ensures Partition(Doomed(o, d), chain, lo, hi)
  {
  }

  lemma DoomTables(mem: map<nat, Page>, o: map<nat, Use>, d: nat)
    requires Own(mem, o) && NoUsers(o, d) && IsDir(o, d)
    ensures d in mem && DyingTables(mem[d], Doomed(o, d), d)
  {
    hide Present, AddrOf;
    assert UseOk(mem, o, d);
    forall k: nat | k < 1024 && Present(mem[d][k])
      ensures AddrOf(mem[d][k]) in o && o[AddrOf(mem[d][k])] == Tab(d, k)
    {
      assert DirEntryOk(mem, o, d, k);
    }
    forall p: nat | p in o && o[p].Tab? && o[p].d == d
      ensures o[p].i < 1024 && Present(mem[d][o[p].i]) && AddrOf(mem[d][o[p].i]) == p
    {
      assert UseOk(mem, o, p);
    }
  }

  lemma TabsBelow(mem: map<nat, Page>, o: map<nat, Use>)
    requires Own(mem, o)
    ensures forall p: nat :: p in o && o[p].Tab? ==> o[p].i < 1024
  {
    forall p: nat | p in o && o[p].Tab?
      ensures o[p].i < 1024
    {
      assert UseOk(mem, o, p);
    }
  }

  lemma SameOwnedShrinks(mem1: map<nat, Page>, mem2: map<nat, Page>, mem3: map<nat, Page>, o2: map<nat, Use>,
                         o: map<nat, Use>, d: nat)
    requires SameOwned(mem1, mem2, o2) && o == o2 - {d}
    requires d in mem3 && mem3 == mem2[d := mem3[d]]
    ensures SameOwned(mem1, mem3, o)
  {
  }

  const KERNBASE: nat := 0x8000_0000

  /** PGROUNDUP, in pages. */
  function Pages(sz: nat): nat {
    (sz + 4095) / 4096
  }

  lemma PagesBelow(sz: nat)
    requires sz < KERNBASE
    ensures Pages(sz) <= 0x80000
  {
  }

  lemma NoUsersLeft(mem: map<nat, Page>, o: map<nat, Use>, o': map<nat, Use>, d: nat)
    requires Own(mem, o') && Steady(o) && UsersDropped(o, o', d, Pages(0), Pages(KERNBASE))
    ensures NoUsers(o', d)
  {
    forall p: nat | p in o'
      ensures !(o'[p].User? && o'[p].d == d)
    {
      assert UseOk(mem, o', p);
    }
  }

  /** What is left is what did not belong to d. */
  lemma WithoutBoth(o0: map<nat, Use>, o1: map<nat, Use>, o2: map<nat, Use>, o: map<nat, Use>, d: nat)
    requires Steady(o0) && d in o0 && UsersDropped(o0, o1, d, Pages(0), Pages(KERNBASE)) && NoUsers(o1, d)
    requires TablesFreed(Doomed(o1, d), o2, d, 1024) && o == o2 - {d}
    requires forall p: nat :: p in o1 && o1[p].Tab? ==> o1[p].i < 1024
    ensures o == Without(o0, d)
  {
    forall p: nat
      ensures p in o <==> p in Without(o0, d)
    {
      if p in o1 { assert p in Doomed(o1, d); }
    }
  }

  lemma KeptTable(o0: map<nat, Use>, o1: map<nat, Use>, o: map<nat, Use>, d: nat, t: nat)
    requires UsersDropped(o0, o1, d, Pages(0), Pages(KERNBASE)) && o == Without(o0, d)
    requires t in o1 && o1[t].Tab? && o1[t].d != d && t != d
    ensures t in o
  {
  }

  /** Other address spaces come through freevm unchanged. */
  lemma FreedSame(mem0: map<nat, Page>, mem1: map<nat, Page>, mem: map<nat, Page>, o0: map<nat, Use>, o1: map<nat, Use>,
                  o: map<nat, Use>, d: nat)
    requires Unmapped(mem0, mem1, o0, d, Pages(0), Pages(KERNBASE)) && UsersDropped(o0, o1, d, Pages(0), Pages(KERNBASE))
    requires Own(mem1, o1) && IsDir(o1, d) && DataSame(mem0, mem1, o1) && SameOwned(mem1, mem, o) && o == Without(o0, d)
    ensures SameMaps(mem0, mem, o) && DataSame(mem0, mem, o)
  {
    hide Present, AddrOf, Own, Pages;
    assert forall p: nat :: p in o ==> p in o1 && o1[p] == o[p] by {
      forall p: nat | p in o
        ensures p in o1 && o1[p] == o[p]
      {
        assert !InRange(o0[p], d, Pages(0), Pages(KERNBASE));
      }
    }
    forall e: nat, i: nat, j: nat | IsDir(o, e) && i < 1024 && j < 1024
      ensures SameAt(mem0, mem, e, i, j)
    {
      assert IsDir(o0, e) && e != d && SameAt(mem0, mem1, e, i, j);
      TableUse(mem1, o1, e, i);
      if Present(mem1[e][i]) { KeptTable(o0, o1, o, d, AddrOf(mem1[e][i])); }
    }
  }

  lemma PagesMonotone(a: nat, b: nat)
    ensures a <= b ==> Pages(a) <= Pages(b)
    ensures b <= a ==> Pages(b) <= Pages(a)
    ensures b <= KERNBASE ==> Pages(b) <= 524288
  {
  }

  lemma Split(a: nat)
    requires a < 524288
    ensures a / 1024 < 512 && a % 1024 < 1024 && a / 1024 * 1024 + a % 1024 == a
  {
  }

  lemma NothingDropped(mem: map<nat, Page>, owner: map<nat, Use>, d: nat, a: nat)
    ensures UsersDropped(owner, owner, d, a, a) && Unmapped(mem, mem, owner, d, a, a)
  {
  }

  lemma EmptyRange(mem: map<nat, Page>, owner: map<nat, Use>, d: nat, a: nat, b: nat)
    requires b <= a
    ensures UsersDropped(owner, owner, d, a, b) && Unmapped(mem, mem, owner, d, a, b)
  {
  }

  lemma DataTrans(a: map<nat, Page>, b: map<nat, Page>, c: map<nat, Page>, o: map<nat, Use>, o': map<nat, Use>,
                  d: nat, lo: nat, hi: nat)
    requires DataSame(a, b, o) && DataSame(b, c, o') && UsersDropped(o, o', d, lo, hi)
    ensures DataSame(a, c, o')
  {
  }

  lemma JoinRanges(mem0: map<nat, Page>, owner0: map<nat, Use>, mem1: map<nat, Page>, owner1: map<nat, Use>,
                   mem2: map<nat, Page>, owner2: map<nat, Use>, d: nat, lo: nat, a: nat, b: nat)
    requires lo <= a <= b
    requires UsersDropped(owner0, owner1, d, lo, a) && Unmapped(mem0, mem1, owner0, d, lo, a)
    requires UsersDropped(owner1, owner2, d, a, b) && Unmapped(mem1, mem2, owner1, d, a, b)
    ensures UsersDropped(owner0, owner2, d, lo, b) && Unmapped(mem0, mem2, owner0, d, lo, b)
  {
    hide Present, Lookup;
    forall e: nat, i: nat, j: nat | IsDir(owner0, e) && i < 1024 && j < 1024
      ensures if e == d && lo <= i * 1024 + j < b then !Present(Lookup(mem2, e, i, j)) else SameAt(mem0, mem2, e, i, j)
    {
      assert IsDir(owner1, e) by { assert !InRange(owner0[e], d, lo, a); }
      assert if e == d && lo <= i * 1024 + j < a then !Present(Lookup(mem1, e, i, j)) else SameAt(mem0, mem1, e, i, j);
      assert if e == d && a <= i * 1024 + j < b then !Present(Lookup(mem2, e, i, j)) else SameAt(mem1, mem2, e, i, j);
    }
  }

  /** Without a table nothing is mapped there, and no page is used there. */
  lemma NoTable(mem: map<nat, Page>, owner: map<nat, Use>, d: nat, i: nat, a: nat, b: nat)
    requires Own(mem, owner) && IsDir(owner, d) && i < 512 && d in mem && |mem[d]| == 1024 && !Present(mem[d][i])
    requires i * 1024 <= a <= b <= (i + 1) * 1024
    ensures UsersDropped(owner, owner, d, a, b) && Unmapped(mem, mem, owner, d, a, b)
  {
    hide Present, AddrOf;
    EntryFacts(0, 0);
    forall p: nat | p in owner
      ensures !InRange(owner[p], d, a, b)
    {
      assert UseOk(mem, owner, p);
    }
  }

  lemma SameThenBut(a: map<nat, Page>, b: map<nat, Page>, c: map<nat, Page>, o: map<nat, Use>, o': map<nat, Use>,
                    d: nat, i: nat, j: nat)
    requires SameMaps(a, b, o) && SameMapsBut(b, c, o', d, i, j)
    requires forall p: nat :: p in o ==> p in o' && o'[p] == o[p]
    ensures SameMapsBut(a, c, o, d, i, j)
  {
    forall e: nat, k: nat, l: nat | IsDir(o, e) && k < 1024 && l < 1024 && (e, k, l) != (d, i, j)
      ensures SameAt(a, c, e, k, l)
    {
      assert IsDir(o', e) && SameAt(a, b, e, k, l) && SameAt(b, c, e, k, l);
    }
  }

  lemma AddedPage(mem0: map<nat, Page>, mem1: map<nat, Page>, mem: map<nat, Page>, o0: map<nat, Use>, o1: map<nat, Use>,
                  o: map<nat, Use>, d: nat, v: nat, m: nat)
    requires m !in o0 && o1 == o0[m := Other] && v < 0x80000
    requires SameMaps(mem0, mem1, o0) && DataSame(mem0, mem1, o0)
    requires SameMapsBut(mem1, mem, o1, d, v / 1024, v % 1024) && DataSame(mem1, mem, o1)
    requires TablesAdded(o1[m := User(d, v / 1024, v % 1024)], o, d)
    ensures SameMapsBut(mem0, mem, o0, d, v / 1024, v % 1024) && DataSame(mem0, mem, o0)
    ensures m in mem1 && m in mem && mem[m] == mem1[m]
    ensures TablesAdded(o0[m := User(d, v / 1024, v % 1024)], o, d)
  {
    SameThenBut(mem0, mem1, mem, o0, o1, d, v / 1024, v % 1024);
    assert o1[m := User(d, v / 1024, v % 1024)] == o0[m := User(d, v / 1024, v % 1024)];
  }

  lemma EntryUse(mem: map<nat, Page>, owner: map<nat, Use>, t: nat, j: nat)
    requires Own(mem, owner) && t in owner && owner[t].Tab? && owner[t].i < 512 && j < 1024
    requires t in mem && |mem[t]| == 1024 && Present(mem[t][j])
    ensures AddrOf(mem[t][j]) in owner && owner[AddrOf(mem[t][j])] == User(owner[t].d, owner[t].i, j)
  {
    assert UseOk(mem, owner, t) && TableEntryOk(mem, owner, owner[t].d, owner[t].i, t, j);
  }

  /** What maps a virtual page in the user's part is used as that. */
  lemma UserPageUse(mem: map<nat, Page>, o: map<nat, Use>, d: nat, v: nat)
    requires Own(mem, o) && IsDir(o, d) && v < 0x80000 && Present(LookV(mem, d, v))
    ensures AddrOf(LookV(mem, d, v)) in o && o[AddrOf(LookV(mem, d, v))] == User(d, v / 1024, v % 1024)
  {
    hide Own, Present, AddrOf;
    EntryFacts(0, 0);
    SplitV(v);
    TableUse(mem, o, d, v / 1024);
    EntryUse(mem, o, AddrOf(mem[d][v / 1024]), v % 1024);
  }

  lemma GrowStep(mem0: map<nat, Page>, mem1: map<nat, Page>, mem: map<nat, Page>, o0: map<nat, Use>, o1: map<nat, Use>,
                 o: map<nat, Use>, d: nat, lo: nat, a: nat, m: nat)
    requires IsDir(o0, d) && IsDir(o1, d) && Own(mem1, o1) && lo <= a < 0x80000 && m !in o1
    requires Grown(o0, o1, d, lo, a) && UserZeroed(mem0, mem1, d, lo, a)
    requires DataSame(mem0, mem1, o0) && OthersSame(mem0, mem1, o0, d) && DataSame(mem1, mem, o1)
    requires SameMapsBut(mem1, mem, o1, d, a / 1024, a % 1024) && TablesAdded(o1[m := User(d, a / 1024, a % 1024)], o, d)
    requires LookV(mem, d, a) == Entry(m, 6) && m in mem && mem[m] == ZeroPage()
    ensures Grown(o0, o, d, lo, a + 1) && UserZeroed(mem0, mem, d, lo, a + 1)
    ensures DataSame(mem0, mem, o0) && OthersSame(mem0, mem, o0, d) && IsDir(o, d)
  {
    hide Own, Present, AddrOf, Entry, LookV, FlagsOf;
    SplitV(a);
    EntryFacts(m, 6);
    GrownOn(mem0, mem1, mem, o0, o1, o, d, lo, a, m);
    forall v: nat | v < 0x100000 && v != a
      ensures LookV(mem, d, v) == LookV(mem1, d, v)
    {
      ChangeAt(mem1, mem, o1, d, a, v);
    }
    forall v: nat | lo <= v < a + 1
      ensures ZeroedAt(mem, d, v)
    {
      if v < a {
        assert ZeroedAt(mem1, d, v);
        UserPageUse(mem1, o1, d, v);
      }
    }
  }

  /** After copyuvm the two address spaces agree on every word and flag below n and share no page. */
  lemma DeepCopy(mem0: map<nat, Page>, mem: map<nat, Page>, o0: map<nat, Use>, d: nat, c: nat, n: nat, u: nat, v: nat)
    requires Own(mem0, o0) && IsDir(o0, d) && n <= 0x80000 && u < n && v < n
    requires forall x: nat :: x < n ==> Present(LookV(mem0, d, x))
    requires Copied(mem0, mem, d, c, o0, n) && SameMaps(mem0, mem, o0) && DataSame(mem0, mem, o0)
    ensures Present(LookV(mem, d, v)) && Present(LookV(mem, c, v)) && FlagsOf(LookV(mem, c, v)) == FlagsOf(LookV(mem, d, v))
    ensures AddrOf(LookV(mem, d, v)) in mem && AddrOf(LookV(mem, c, v)) in mem
    ensures mem[AddrOf(LookV(mem, c, v))] == mem[AddrOf(LookV(mem, d, v))]
    ensures AddrOf(LookV(mem, c, u)) != AddrOf(LookV(mem, d, v))
  {
    hide Own, Present, AddrOf, FlagsOf, LookV;
    SameAtV(mem0, mem, o0, d, v);
    UserPageUse(mem0, o0, d, v);
    assert CopiedAt(mem0, mem, d, c, o0, v) && CopiedAt(mem0, mem, d, c, o0, u);
  }

  lemma CopyStep(mem0: map<nat, Page>, mem1: map<nat, Page>, mem: map<nat, Page>, o0: map<nat, Use>, o1: map<nat, Use>,
                 o: map<nat, Use>, d: nat, c: nat, data: nat, v: nat, m: nat)
    requires c !in o0 && IsDir(o0, d) && IsDir(o1, c) && Own(mem1, o1) && v < 0x80000 && m !in o1
    requires Grown(o0[c := Dir], o1, c, 0, v) && DataSame(mem0, mem1, o0) && OthersSame(mem0, mem1, o0, c)
    requires Copied(mem0, mem1, d, c, o0, v) && RestKernel(mem1, c, data, v) && DataSame(mem1, mem, o1)
    requires SameMapsBut(mem1, mem, o1, c, v / 1024, v % 1024) && TablesAdded(o1[m := User(c, v / 1024, v % 1024)], o, c)
    requires Present(LookV(mem0, d, v)) && AddrOf(LookV(mem0, d, v)) in mem0
    requires FlagsOf(LookV(mem0, d, v)) < 4096 && LookV(mem, c, v) == Entry(m, FlagsOf(LookV(mem0, d, v)))
    requires m in mem && mem[m] == mem0[AddrOf(LookV(mem0, d, v))]
    ensures Grown(o0[c := Dir], o, c, 0, v + 1) && DataSame(mem0, mem, o0) && OthersSame(mem0, mem, o0, c) && IsDir(o, c)
    ensures Copied(mem0, mem, d, c, o0, v + 1) && RestKernel(mem, c, data, v + 1)
  {
    hide Own, Present, AddrOf, Entry, LookV, FlagsOf, KernelPte, Kmap;
    CopyBooks(mem0, mem1, mem, o0, o1, o, c, v, m);
    EntryFacts(m, FlagsOf(LookV(mem0, d, v)));
    FlagsCopy(LookV(mem0, d, v), m);
    forall u: nat | u < 0x100000 && u != v
      ensures LookV(mem, c, u) == LookV(mem1, c, u)
    {
      ChangeAt(mem1, mem, o1, c, v, u);
    }
    forall u: nat | u < v + 1
      ensures CopiedAt(mem0, mem, d, c, o0, u)
    {
      if u < v {
        assert CopiedAt(mem0, mem1, d, c, o0, u);
        UserPageUse(mem1, o1, c, u);
      }
    }
  }

  lemma SamePlace(i: nat, j: nat, k: nat, l: nat)
    requires j < 1024 && l < 1024 && i * 1024 + j == k * 1024 + l
    ensures i == k && j == l
  {
  }

  /** A user page is mapped where its use says. */
  lemma UserIsMapped(mem: map<nat, Page>, o: map<nat, Use>, p: nat)
    requires Own(mem, o) && p in o && o[p].User?
    ensures o[p].i < 512 && o[p].j < 1024
    ensures var v := o[p].i * 1024 + o[p].j; v < 0x80000 && Present(LookV(mem, o[p].d, v))
  {
    assert UseOk(mem, o, p);
    var v := o[p].i * 1024 + o[p].j;
    SplitV(v);
    SamePlace(v / 1024, v % 1024, o[p].i, o[p].j);
  }

  /** After deallocuvm only tables remain of what allocuvm had added. */
  lemma DroppedAll(mem0: map<nat, Page>, o0: map<nat, Use>, o1: map<nat, Use>, o2: map<nat, Use>, o3: map<nat, Use>,
                   d: nat, lo: nat, a: nat, hi: nat, m: nat)
    requires Own(mem0, o0) && lo <= a < hi <= 0x80000 && Grown(o0, o1, d, lo, a) && InHand(o1, o2, m)
    requires forall v: nat :: lo <= v < 0x80000 ==> !Present(LookV(mem0, d, v))
    requires UsersDropped(o2, o3, d, lo, hi)
    ensures m != 0 ==> m in o3 && o3[m] == Other && m !in o0
    ensures forall p: nat :: p in o0 ==> p in o3 && o3[p] == o0[p] && p in o2 && o2[p] == o0[p]
    ensures TablesAdded(o0, if m == 0 then o3 else o3 - {m}, d)
  {
    hide Own, Present, LookV;
    forall p: nat | p in o0
      ensures p in o3 && o3[p] == o0[p] && p in o2 && o2[p] == o0[p]
    {
      if InRange(o0[p], d, lo, hi) { UserIsMapped(mem0, o0, p); }
      assert p in o1 && p in o2;
    }
    if m != 0 { assert m in o2 && !InRange(o2[m], d, lo, hi); }
    forall p: nat | p in o3 && p !in o0 && p != m
      ensures o3[p].Tab? && o3[p].d == d
    {
      assert p in o2 && p in o1;
    }
  }

  lemma NotPresent(mem: map<nat, Page>, owner: map<nat, Use>, d: nat, i: nat, j: nat, t: nat)
    requires Own(mem, owner) && IsDir(owner, d) && i < 512 && j < 1024 && IsTable(mem, d, i, t)
    requires t in mem && |mem[t]| == 1024 && !Present(mem[t][j])
    ensures var a := i * 1024 + j; UsersDropped(owner, owner, d, a, a + 1) && Unmapped(mem, mem, owner, d, a, a + 1)
  {
    hide Present, AddrOf;
    var a := i * 1024 + j;
    forall p: nat | p in owner
      ensures !InRange(owner[p], d, a, a + 1)
    {
      assert UseOk(mem, owner, p);
      if InRange(owner[p], d, a, a + 1) { SamePlace(owner[p].i, owner[p].j, i, j); }
    }
    forall e: nat, k: nat, l: nat | IsDir(owner, e) && k < 1024 && l < 1024 && e == d && a <= k * 1024 + l < a + 1
      ensures !Present(Lookup(mem, e, k, l))
    {
      SamePlace(k, l, i, j);
    }
  }

  lemma OneUnmapped(mem: map<nat, Page>, owner: map<nat, Use>, mem': map<nat, Page>, d: nat, i: nat, j: nat)
    requires !Present(Lookup(mem', d, i, j)) && SameMapsBut(mem, mem', owner, d, i, j) && i < 1024 && j < 1024
    ensures Unmapped(mem, mem', owner, d, i * 1024 + j, i * 1024 + j + 1)
  {
    hide Present, Lookup;
    forall e: nat, k: nat, l: nat | IsDir(owner, e) && k < 1024 && l < 1024
      ensures if e == d && i * 1024 + j <= k * 1024 + l < i * 1024 + j + 1 then !Present(Lookup(mem', e, k, l))
              else SameAt(mem, mem', e, k, l)
    {
      if k * 1024 + l == i * 1024 + j { SamePlace(k, l, i, j); }
    }
  }

  /** Only one page is used as the user page at (i, j) of d. */
  lemma OnlyOneAt(mem: map<nat, Page>, owner: map<nat, Use>, d: nat, i: nat, j: nat, p: nat)
    requires Own(mem, owner) && p in owner && owner[p] == User(d, i, j)
    ensures forall q: nat :: q in owner && InRange(owner[q], d, i * 1024 + j, i * 1024 + j + 1) ==> q == p
  {
    assert UseOk(mem, owner, p);
    forall q: nat | q in owner && InRange(owner[q], d, i * 1024 + j, i * 1024 + j + 1)
      ensures q == p
    {
      assert UseOk(mem, owner, q);
      SamePlace(owner[q].i, owner[q].j, i, j);
    }
  }

  lemma ClearSame(mem: map<nat, Page>, owner: map<nat, Use>, t: nat, j: nat, p: nat, page: Page)
    requires Own(mem, owner) && t in owner && owner[t].Tab? && j < 1024 && t in mem && |mem[t]| == 1024
    requires p in owner && owner[p].User? && t in mem[p := page] && j < |mem[p := page][t]|
    ensures SameMapsBut(mem, Poke(mem[p := page], t, j, 0), owner, owner[t].d, owner[t].i, j)
    ensures Lookup(Poke(mem[p := page], t, j, 0), owner[t].d, owner[t].i, j) == 0
  {
    assert UseOk(mem, owner, t);
    hide Own, Present, AddrOf;
    var mem' := Poke(mem[p := page], t, j, 0);
    forall e: nat, k: nat, l: nat | IsDir(owner, e) && k < 1024 && l < 1024 && (e, k, l) != (owner[t].d, owner[t].i, j)
      ensures SameAt(mem, mem', e, k, l)
    {
      TableUse(mem, owner, e, k);
    }
  }

  /** The pages in use determine the free ones. */
  lemma SameFreeSet(o: map<nat, Use>, chain: seq<nat>, chain': seq<nat>, lo: nat, hi: nat)
    requires Partition(o, chain, lo, hi) && Partition(o, chain', lo, hi)
    ensures forall p: nat :: p in chain' <==> p in chain
  {
  }

  lemma FreeSetGrows(o: map<nat, Use>, chain: seq<nat>, chain': seq<nat>, lo: nat, hi: nat, d: nat)
    requires Partition(o, chain, lo, hi) && Partition(Without(o, d), chain', lo, hi)
    ensures forall p: nat :: p in chain' <==> p in chain || (p in o && Belongs(o, p, d))
  {
  }

  lemma PopPartition(owner: map<nat, Use>, chain: seq<nat>, lo: nat, hi: nat)
    requires Partition(owner, chain, lo, hi) && chain != [] && chain[0] !in chain[1..]
    ensures chain[0] !in owner && Partition(owner[chain[0] := Other], chain[1..], lo, hi)
    ensures chain == [chain[0]] + chain[1..]
  {
    assert forall p :: p in chain <==> p == chain[0] || p in chain[1..];
  }

  lemma ChainHead(mem: map<nat, Page>, freelist: nat, chain: seq<nat>)
    requires Chained(mem, freelist, chain)
    ensures freelist == 0 <==> chain == []
  {
  }

  lemma OwnedInMem(mem: map<nat, Page>, owner: map<nat, Use>, p: nat)
    requires Own(mem, owner) && p in owner
    ensures p in mem && |mem[p]| == 1024
  {
    assert UseOk(mem, owner, p);
  }

  /** The parent's page is where it was, with what it held. */
  lemma ParentPage(mem0: map<nat, Page>, mem: map<nat, Page>, o0: map<nat, Use>, o: map<nat, Use>, d: nat, c: nat, v: nat)
    requires Own(mem0, o0) && IsDir(o0, d) && c !in o0 && v < 0x80000 && Present(LookV(mem0, d, v))
    requires OthersSame(mem0, mem, o0, c) && DataSame(mem0, mem, o0) && Grown(o0[c := Dir], o, c, 0, v)
    ensures IsDir(o, d) && d != c && LookV(mem, d, v) == LookV(mem0, d, v)
    ensures var p := AddrOf(LookV(mem, d, v)); p in mem0 && p in mem && mem[p] == mem0[p] && |mem[p]| == 1024
  {
    hide Own, Present, AddrOf, Lookup;
    SplitV(v);
    assert SameAt(mem0, mem, d, v / 1024, v % 1024);
    UserPageUse(mem0, o0, d, v);
    OwnedInMem(mem0, o0, AddrOf(LookV(mem0, d, v)));
  }

  lemma AllInMem(mem: map<nat, Page>, owner: map<nat, Use>)
    requires Own(mem, owner)
    ensures forall p: nat :: p in owner ==> p in mem && |mem[p]| == 1024
  {
    forall p: nat | p in owner
      ensures p in mem && |mem[p]| == 1024
    {
      OwnedInMem(mem, owner, p);
    }
  }

  lemma OtherWrite(mem: map<nat, Page>, o: map<nat, Use>, m: nat, content: Page)
    requires Own(mem, o) && m !in o
    ensures DataSame(mem, mem[m := content], o)
  {
    AllInMem(mem, o);
  }

  lemma SameData(mem: map<nat, Page>, owner: map<nat, Use>)
    requires Own(mem, owner)
    ensures DataSame(mem, mem, owner)
  {
    AllInMem(mem, owner);
  }

  lemma TablePositive(owner: map<nat, Use>, chain: seq<nat>, lo: nat, hi: nat, t: nat)
    requires Partition(owner, chain, lo, hi) && lo > 0 && t in owner
    ensures t > 0
  {
  }

  lemma SameRefl(mem: map<nat, Page>, owner: map<nat, Use>)
    ensures SameMaps(mem, mem, owner)
  {
  }

  lemma UndoSame(mem0: map<nat, Page>, mem1: map<nat, Page>, mem2: map<nat, Page>, mem: map<nat, Page>, o0: map<nat, Use>,
                 o2: map<nat, Use>, o3: map<nat, Use>, d: nat, lo: nat, a: nat, hi: nat, m: nat)
    requires IsDir(o0, d) && IsDir(o2, d) && lo <= a < hi <= 0x80000 && Own(mem2, o3)
    requires forall p: nat :: p in o0 ==> p in o3 && o3[p] == o0[p] && p in o2 && o2[p] == o0[p]
    requires forall v: nat :: lo <= v < 0x80000 ==> !Present(LookV(mem0, d, v))
    requires DataSame(mem0, mem1, o0) && OthersSame(mem0, mem1, o0, d) && SameBut(mem0, mem1, d, lo, a)
    requires Unmapped(mem1, mem2, o2, d, lo, hi) && DataSame(mem1, mem2, o3)
    requires if m == 0 then mem == mem2 else m in mem && m !in o0 && m in o3 && o3[m] == Other && mem == mem2[m := mem[m]]
    ensures DataSame(mem0, mem, o0) && OthersSame(mem0, mem, o0, d)
    ensures forall v: nat :: v < 0x80000 ==> SameView(LookV(mem0, d, v), LookV(mem, d, v))
  {
    hide Own, Present, Lookup, LookV, SameView;
    if m == 0 { SameRefl(mem2, o3); } else { DataWriteSame(mem2, o3, m, mem[m]); }
    forall v: nat | v < 0x80000
      ensures SameView(LookV(mem0, d, v), LookV(mem, d, v))
    {
      SameAtV(mem2, mem, o3, d, v);
      UndoAt(mem0, mem1, mem2, o2, d, lo, a, hi, v);
    }
    forall e: nat, i: nat, j: nat | IsDir(o0, e) && e != d && i < 1024 && j < 1024
      ensures SameAt(mem0, mem, e, i, j)
    {
      assert IsDir(o2, e) && IsDir(o3, e);
      assert SameAt(mem0, mem1, e, i, j) && SameAt(mem1, mem2, e, i, j) && SameAt(mem2, mem, e, i, j);
    }
  }

  lemma CopyFailed(mem0: map<nat, Page>, mem1: map<nat, Page>, mem2: map<nat, Page>, mem: map<nat, Page>, o0: map<nat, Use>,
                   o1: map<nat, Use>, o: map<nat, Use>, c: nat, v: nat, m: nat)
    requires c !in o0 && IsDir(o1, c) && Own(mem1, o1) && Grown(o0[c := Dir], o1, c, 0, v)
    requires DataSame(mem0, mem1, o0) && OthersSame(mem0, mem1, o0, c) && DataSame(mem1, mem2, o1) && SameMaps(mem1, mem2, o1)
    requires if m == 0 then mem == mem2 && o == o1
             else m !in o1 && m in mem && mem == mem2[m := mem[m]] && o == o1[m := Other] - {m} && Own(mem2, o1[m := Other])
    ensures Grown(o0[c := Dir], o, c, 0, v) && DataSame(mem0, mem, o0) && OthersSame(mem0, mem, o0, c) && IsDir(o, c)
  {
    hide Own, Lookup;
    var oc := o0[c := Dir];
    if m == 0 { SameRefl(mem2, o1); } else { DataWriteSame(mem2, o1[m := Other], m, mem[m]); }
    assert o == o1;
    forall p: nat | p in o0
      ensures p in o1 && o1[p] == o0[p]
    {
      assert p in oc;
    }
    forall e: nat, i: nat, j: nat | IsDir(o0, e) && e != c && i < 1024 && j < 1024
      ensures SameAt(mem0, mem, e, i, j)
    {
      assert IsDir(o1, e) && (m != 0 ==> IsDir(o1[m := Other], e));
      assert SameAt(mem0, mem1, e, i, j) && SameAt(mem1, mem2, e, i, j) && SameAt(mem2, mem, e, i, j);
    }
  }

  lemma MoreDirs(mem: map<nat, Page>, mem': map<nat, Page>, owner: map<nat, Use>, owner0: map<nat, Use>)
    requires SameMaps(mem, mem', owner) && forall p: nat :: p in owner0 ==> p in owner && owner[p] == owner0[p]
    ensures SameMaps(mem, mem', owner0)
  {
    forall e: nat, i: nat, j: nat | IsDir(owner0, e) && i < 1024 && j < 1024
      ensures SameAt(mem, mem', e, i, j)
    {
      assert IsDir(owner, e);
    }
  }

  lemma TwoWrites(mem: map<nat, Page>, freelist: nat, chain: seq<nat>, t: nat, d: nat, i: nat, w: nat)
    requires Chained(mem, freelist, chain) && t !in chain && d !in chain && d != t && d in mem && i < |mem[d]|
    ensures Chained(Poke(mem[t := ZeroPage()], d, i, w), freelist, chain)
  {
    hide Chained;
    WriteChained(mem, freelist, chain, t, ZeroPage());
    WriteChained(mem[t := ZeroPage()], freelist, chain, d, Poke(mem[t := ZeroPage()], d, i, w)[d]);
  }

  class Vm {
    const lo: nat                            // first page after the kernel, > 0
    const hi: nat                            // PHYSTOP
    const data: nat                          // V2P(data), where the kernel's data begins
    var mem: map<nat, Page>
    var freelist: nat                        // kmem.freelist, as a page number; 0 is the null pointer
    ghost var chain: seq<nat>
    ghost var owner: map<nat, Use>

    ghost predicate Base()
      reads this
    {
      lo > 0 && 0x100 < data < 0xE000 && Chained(mem, freelist, chain) && Own(mem, owner) && Partition(owner, chain, lo, hi)
    }

    ghost predicate Valid()
      reads this
    {
      Base() && Steady(owner)
    }

    /** kinit: freerange hands every page from lo to hi to kfree. */
    constructor (lo: nat, hi: nat, data: nat, ram: map<nat, Page>)
      requires 0 < lo && 0x100 < data < 0xE000 && forall p: nat :: lo <= p < hi ==> p in ram
      ensures Valid() && owner == map[] && (forall p: nat :: p in chain <==> lo <= p < hi)
      ensures this.lo == lo && this.hi == hi && this.data == data
    {
      this.lo, this.hi, this.data := lo, hi, data;
      mem, freelist := ram, 0;
      chain, owner := [], map[];
      new;
      var p := lo;
      while p < hi
        invariant lo <= p && (p <= hi || p == lo) && Chained(mem, freelist, chain) && owner == map[]
        invariant forall q: nat :: q in chain <==> lo <= q < p
        invariant forall q: nat :: lo <= q < hi ==> q in mem
        decreases hi - p
      {
        ghost var was := chain;
        Kfree(p);
        assert forall q :: q in chain <==> q == p || q in was;
        p := p + 1;
      }
    }

    method Kalloc() returns (p: nat)
      requires Valid()
      modifies this`freelist, this`chain, this`owner
      ensures Valid()
      ensures p == 0 ==> old(chain) == [] && unchanged(this)
      ensures p != 0 ==> old(chain) == [p] + chain && p !in old(owner) && owner == old(owner)[p := Other]
      ensures p != 0 ==> p in mem && |mem[p]| == 1024
    {
      hide Own, Chained;
      ChainHead(mem, freelist, chain);
      p := freelist;
      if p != 0 {
        PopChained(mem, freelist, chain);
        PopPartition(owner, chain, lo, hi);
        Taken(mem, owner, p);
        freelist := mem[p][0];
        chain := chain[1..];
        owner := owner[p := Other];
      }
    }

    /** The page is filled with junk and goes to the head of the list. */
    method Kfree(p: nat)
      requires Chained(mem, freelist, chain) && lo <= p < hi && lo > 0 && p !in chain && p in mem
      modifies this`mem, this`freelist, this`chain
      ensures Chained(mem, freelist, chain) && chain == [p] + old(chain)
      ensures p in mem && mem == old(mem)[p := mem[p]] && |mem[p]| == 1024
      ensures forall k :: 1 <= k < 1024 ==> mem[p][k] == 0x01010101
    {
      hide Chained;
      var junk: Page := seq(1024, _ => 0x01010101)[0 := freelist];
      PushChained(mem, freelist, chain, p, junk);
      mem := mem[p := junk];
      freelist := p;
      chain := [p] + chain;
    }

    /** kfree of a page that nothing points to. */
    method Release(p: nat)
      requires Base() && p in owner && (owner[p].Other? || owner[p].Dying?)
      modifies this
      ensures Base() && owner == old(owner) - {p} && chain == [p] + old(chain)
      ensures p in mem && mem == old(mem)[p := mem[p]]
    {
      hide Own, Chained;
      assert p in mem by { OwnedInMem(mem, owner, p); }
      Kfree(p);
      Given(old(mem), owner, p, mem[p]);
      owner := owner - {p};
    }

    /** The table for index i of directory d; 0 if there is none, or none could be made. */
    method WalkPgdir(d: nat, i: nat, alloc: bool) returns (t: nat)
      requires Valid() && IsDir(owner, d) && i < 1024
      modifies this
      ensures Valid() && SameMaps(old(mem), mem, old(owner))
      ensures t != 0 ==> IsTable(mem, d, i, t) && t in owner && owner[t] == Tab(d, i) && t in mem && |mem[t]| == 1024
      ensures t == 0 || t in old(owner) ==> unchanged(this)
      ensures t == 0 ==> !Present(mem[d][i]) && (alloc ==> chain == [])
      ensures !alloc ==> unchanged(this)
      ensures t != 0 && t !in old(owner) ==>
        && old(chain) == [t] + chain && owner == old(owner)[t := Tab(d, i)]
        && forall p: nat :: p in old(owner) && p != d ==> p in old(mem) && p in mem && mem[p] == old(mem[p])
    {
      hide Own, Chained, Present, AddrOf, Entry, Lookup;
      TableUse(mem, owner, d, i);
      SameRefl(mem, owner);
      if Present(mem[d][i]) {
        t := AddrOf(mem[d][i]);
        TablePositive(owner, chain, lo, hi, t);
        return;
      }
      if !alloc {
        return 0;
      }
      t := Kalloc();
      if t == 0 {
        return;
      }
      NewTable(mem, owner, d, i, t, Poke(mem[t := ZeroPage()], d, i, Entry(t, 7)));
      NewTableSame(mem, owner, d, i, t, Poke(mem[t := ZeroPage()], d, i, Entry(t, 7)));
      TwoWrites(mem, freelist, chain, t, d, i, Entry(t, 7));
      MoreDirs(old(mem), Poke(mem[t := ZeroPage()], d, i, Entry(t, 7)), owner, old(owner));
      AllInMem(mem, owner);
      mem := mem[t := ZeroPage()];
      mem := Poke(mem, d, i, Entry(t, 7));
      owner := owner[t := Tab(d, i)];
    }

    /** One step of mappages for a user page.  It fails only when a table is needed and no page is free. */
    method MapUser(d: nat, i: nat, j: nat, q: nat, perm: nat) returns (ok: bool)
      requires Valid() && IsDir(owner, d) && i < 512 && j < 1024 && perm < 4096 && q in owner && owner[q] == Other
      requires !Present(Lookup(mem, d, i, j))
      modifies this
      ensures Valid()
      ensures !ok ==> unchanged(this) && chain == []
      ensures ok ==> Lookup(mem, d, i, j) == Entry(q, perm) && SameMapsBut(old(mem), mem, old(owner), d, i, j)
      ensures ok ==> TablesAdded(old(owner)[q := User(d, i, j)], owner, d) && DataSame(old(mem), mem, old(owner))
    {
      hide Own, Chained, Present, AddrOf, Entry;
      AllInMem(mem, owner);
      var t := WalkPgdir(d, i, true);
      if t == 0 {
        return false;
      }
      assert SameAt(old(mem), mem, d, i, j);
      assert !Present(mem[t][j]);
      SetUser(mem, owner, t, j, q, perm, Poke(mem, t, j, Entry(q, perm)));
      TableWriteSame(mem, owner, t, j, Entry(q, perm));
      WriteChained(mem, freelist, chain, t, Poke(mem, t, j, Entry(q, perm))[t]);
      SameThenBut(old(mem), mem, Poke(mem, t, j, Entry(q, perm)), old(owner), owner, d, i, j);
      mem := Poke(mem, t, j, Entry(q, perm));
      owner := owner[q := User(d, i, j)];
      ok := true;
    }

    /** One step of mappages for a page of the kernel's part. */
    method MapKernel(d: nat, i: nat, j: nat, w: nat) returns (ok: bool)
      requires Valid() && IsDir(owner, d) && 512 <= i < 1024 && j < 1024 && !Present(Lookup(mem, d, i, j))
      modifies this
      ensures Valid()
      ensures !ok ==> unchanged(this) && chain == []
      ensures ok ==> Lookup(mem, d, i, j) == w && SameMapsBut(old(mem), mem, old(owner), d, i, j)
      ensures ok ==> TablesAdded(old(owner), owner, d) && DataSame(old(mem), mem, old(owner))
    {
      hide Own, Chained, Present, AddrOf, Entry;
      AllInMem(mem, owner);
      var t := WalkPgdir(d, i, true);
      if t == 0 {
        return false;
      }
      WritePage(mem, owner, t, Poke(mem, t, j, w)[t]);
      TableWriteSame(mem, owner, t, j, w);
      WriteChained(mem, freelist, chain, t, Poke(mem, t, j, w)[t]);
      SameThenBut(old(mem), mem, Poke(mem, t, j, w), old(owner), owner, d, i, j);
      mem := Poke(mem, t, j, w);
      ok := true;
    }

    /** deallocuvm on one present entry: kfree, then clear. */
    method DropUser(d: nat, i: nat, j: nat, t: nat)
      requires Valid() && IsDir(owner, d) && i < 512 && j < 1024 && t in owner && owner[t] == Tab(d, i)
      requires t in mem && |mem[t]| == 1024 && Present(mem[t][j])
      modifies this
      ensures Valid() && IsDir(owner, d) && UsersDropped(old(owner), owner, d, i * 1024 + j, i * 1024 + j + 1)
      ensures !Present(Lookup(mem, d, i, j)) && SameMapsBut(old(mem), mem, old(owner), d, i, j)
      ensures DataSame(old(mem), mem, owner)
    {
      hide Own, Chained, Present, AddrOf, Entry, Lookup;
      AllInMem(mem, owner);
      var p := AddrOf(mem[t][j]);
      EntryUse(mem, owner, t, j);
      OnlyOneAt(mem, owner, d, i, j, p);
      Kfree(p);
      ClearUser(old(mem), owner, t, j, mem[p], Poke(mem, t, j, 0));
      WriteChained(mem, freelist, chain, t, Poke(mem, t, j, 0)[t]);
      ClearSame(old(mem), owner, t, j, p, mem[p]);
      mem := Poke(mem, t, j, 0);
      owner := owner - {p};
      EntryFacts(0, 0);
    }

    /** deallocuvm: user pages between the two sizes are freed and unmapped; tables stay. */
    method DeallocUvm(d: nat, oldsz: nat, newsz: nat) returns (r: nat)
      requires Valid() && IsDir(owner, d) && oldsz <= KERNBASE
      modifies this
      ensures Valid() && IsDir(owner, d)
      ensures r == if newsz >= oldsz then oldsz else newsz
      ensures UsersDropped(old(owner), owner, d, Pages(newsz), Pages(oldsz)) && DataSame(old(mem), mem, owner)
      ensures Unmapped(old(mem), mem, old(owner), d, Pages(newsz), Pages(oldsz))
    {
      hide Own, Chained, Present, AddrOf, Entry, Lookup, Pages, UsersDropped, Unmapped, DataSame;
      PagesMonotone(newsz, oldsz);
      NothingDropped(mem, owner, d, Pages(newsz));
      SameData(mem, owner);
      if newsz >= oldsz {
        EmptyRange(mem, owner, d, Pages(newsz), Pages(oldsz));
        return oldsz;
      }
      var a := Pages(newsz);
      while a < Pages(oldsz)
        invariant Valid() && IsDir(owner, d) && Pages(newsz) <= a
        invariant var b := if a < Pages(oldsz) then a else Pages(oldsz);
                  && UsersDropped(old(owner), owner, d, Pages(newsz), b)
                  && Unmapped(old(mem), mem, old(owner), d, Pages(newsz), b)
        invariant DataSame(old(mem), mem, owner)
        decreases Pages(oldsz) - a
      {
        a := DeallocStep(d, a, Pages(oldsz), Pages(newsz), old(mem), old(owner));
      }
      r := newsz;
    }

    /** One round of deallocuvm's loop; without a table it skips to the next one. */
    method DeallocStep(d: nat, a: nat, n: nat, lo0: nat, ghost mem0: map<nat, Page>, ghost owner0: map<nat, Use>)
      returns (next: nat)
      requires Valid() && IsDir(owner, d) && lo0 <= a < n <= 524288
      requires UsersDropped(owner0, owner, d, lo0, a) && Unmapped(mem0, mem, owner0, d, lo0, a) && DataSame(mem0, mem, owner)
      modifies this
      ensures Valid() && IsDir(owner, d) && a < next
      ensures var b := if next < n then next else n;
              UsersDropped(owner0, owner, d, lo0, b) && Unmapped(mem0, mem, owner0, d, lo0, b)
      ensures DataSame(mem0, mem, owner)
    {
      hide Own, Chained, Present, AddrOf, Entry, Lookup, UsersDropped, Unmapped, DataSame;
      var i, j := a / 1024, a % 1024;
      Split(a);
      TableUse(mem, owner, d, i);
      ghost var mem1, owner1 := mem, owner;
      var t := WalkPgdir(d, i, false);
      if t == 0 {
        next := (i + 1) * 1024;
        ghost var b := if next < n then next else n;
        NoTable(mem, owner, d, i, a, b);
        JoinRanges(mem0, owner0, mem, owner, mem, owner, d, lo0, a, b);
        return;
      }
      next := a + 1;
      if Present(mem[t][j]) {
        DropUser(d, i, j, t);
        OneUnmapped(mem1, owner1, mem, d, i, j);
        DataTrans(mem0, mem1, mem, owner1, owner, d, i * 1024 + j, i * 1024 + j + 1);
      } else {
        NotPresent(mem, owner, d, i, j, t);
      }
      JoinRanges(mem0, owner0, mem1, owner1, mem, owner, d, lo0, a, a + 1);
    }

    /** freevm: every page of the address space goes back to the free list. */
    method FreeVm(d: nat)
      requires Valid() && IsDir(owner, d)
      modifies this
      ensures Valid() && owner == Without(old(owner), d)
      ensures SameMaps(old(mem), mem, owner) && DataSame(old(mem), mem, owner)
      ensures forall p: nat :: p in chain <==> p in old(chain) || (p in old(owner) && Belongs(old(owner), p, d))
    {
      hide Own, Chained, Present, AddrOf, Entry, Lookup, UsersDropped, Unmapped, DataSame, SameMaps, Pages, Partition;
      var _ := DeallocUvm(d, KERNBASE, 0);
      NoUsersLeft(mem, old(owner), owner, d);
      ghost var mem1, owner1 := mem, owner;
      DoomOwn(mem, owner, d);
      DoomPartition(owner, chain, lo, hi, d);
      DoomTables(mem, owner, d);
      owner := Doomed(owner, d);
      FreeTables(d, Doomed(owner1, d));
      ghost var mem2, owner2 := mem, owner;
      Release(d);
      SameOwnedShrinks(mem1, mem2, mem, owner2, owner, d);
      TabsBelow(mem1, owner1);
      WithoutBoth(old(owner), owner1, owner2, owner, d);
      FreedSame(old(mem), mem1, mem, old(owner), owner1, owner, d);
      FreeSetGrows(old(owner), old(chain), chain, lo, hi, d);
    }

    /** freevm's loop over the directory. */
    method FreeTables(d: nat, ghost owner0: map<nat, Use>)
      requires Base() && owner == owner0 && d in owner && owner[d] == Dying(d, 1024) && d in mem && DyingTables(mem[d], owner, d)
      modifies this
      ensures Base() && TablesFreed(owner0, owner, d, 1024) && SameOwned(old(mem), mem, owner)
      ensures d in owner && owner[d] == Dying(d, 1024)
    {
      hide Own, Chained, Present, AddrOf, Partition;
      ghost var dir := mem[d];
      AllInMem(mem, owner);
      for i := 0 to 1024
        invariant Base() && TablesFreed(owner0, owner, d, i) && SameOwned(old(mem), mem, owner)
        invariant d in owner && owner[d] == Dying(d, 1024) && d in mem && mem[d] == dir
      {
        if Present(mem[d][i]) {
          Release(AddrOf(mem[d][i]));
        }
      }
    }

    /** mappages over a range of the kernel's part. */
    method MapRegion(d: nat, r: Region) returns (ok: bool)
      requires Valid() && IsDir(owner, d) && 0x80000 <= r.virt && r.virt + r.n <= 0x100000 && r.perm < 4096
      requires forall v: nat :: r.virt <= v < r.virt + r.n ==> !Present(LookV(mem, d, v))
      modifies this
      ensures Valid() && TablesAdded(old(owner), owner, d) && DataSame(old(mem), mem, old(owner))
      ensures ok ==> RegionMapped(old(mem), mem, d, r, r.n)
      ensures OthersSame(old(mem), mem, old(owner), d)
    {
      hide Own, Chained, Present, AddrOf, Entry, Lookup, DataSame, TablesAdded, RegionMapped, OthersSame;
      SameData(mem, owner);
      RegionStart(mem, owner, d, r);
      for k := 0 to r.n
        invariant Valid() && IsDir(owner, d) && TablesAdded(old(owner), owner, d) && DataSame(old(mem), mem, old(owner))
        invariant RegionMapped(old(mem), mem, d, r, k) && OthersSame(old(mem), mem, old(owner), d)
      {
        ghost var mem1, owner1 := mem, owner;
        var v := r.virt + k;
        SplitV(v);
        RegionNext(old(mem), mem, d, r, k);
        ok := MapKernel(d, v / 1024, v % 1024, Entry(r.phys + k, r.perm));
        if !ok {
          return;
        }
        RegionStep(old(mem), mem1, mem, old(owner), owner1, d, r, k);
        AddedTrans(old(owner), owner1, owner, d);
        DataAddTrans(old(mem), mem1, mem, old(owner), owner1, d);
      }
      ok := true;
    }

    /** setupkvm: a directory that maps kmap and nothing else, or 0 with every page given back. */
    method SetupKvm() returns (d: nat)
      requires Valid()
      modifies this
      ensures Valid() && SameMaps(old(mem), mem, old(owner)) && DataSame(old(mem), mem, old(owner))
      ensures d == 0 ==> owner == old(owner) && forall p: nat :: p in chain <==> p in old(chain)
      ensures d != 0 ==> d !in old(owner) && IsDir(owner, d) && TablesAdded(old(owner)[d := Dir], owner, d)
      ensures d != 0 ==> KernelMapped(mem, d, data, 4)
    {
      hide Own, Chained, Present, AddrOf, Entry, Lookup, DataSame, TablesAdded, RegionMapped, OthersSame, SameMaps,
           Partition, Kmap, KernelPte, Without;
      SameData(mem, owner);
      SameRefl(mem, owner);
      d := NewDirectory();
      if d == 0 {
        return;
      }
      ghost var owner1 := owner;
      NothingMapped(mem, d, data);
      AddedRefl(owner, d);
      for n := 0 to 4
        invariant Valid() && IsDir(owner, d) && TablesAdded(owner1, owner, d) && DataSame(old(mem), mem, old(owner))
        invariant OthersSame(old(mem), mem, old(owner), d)
        invariant KernelMapped(mem, d, data, n)
      {
        KmapOk(data, n);
        var r := Kmap(data)[n];
        RegionClear(data, n, mem, d);
        ghost var mem2, owner2 := mem, owner;
        var ok := MapRegion(d, r);
        AddedTrans(owner1, owner2, owner, d);
        OthersTrans(old(mem), mem2, mem, old(owner), owner1, owner2, d);
        if !ok {
          GrownTables(owner1, owner, d, 0);
          FreeFailed(old(mem), old(owner), d, 0);
          SameFreeSet(owner, old(chain), chain, lo, hi);
          return 0;
        }
        KernelStep(data, n, mem2, mem, d);
      }
      OthersAll(old(mem), mem, old(owner), d);
    }

    /** kalloc and memset for a page directory. */
    method NewDirectory() returns (d: nat)
      requires Valid()
      modifies this
      ensures Valid()
      ensures d == 0 ==> unchanged(this)
      ensures d != 0 ==> d !in old(owner) && owner == old(owner)[d := Dir] && IsDir(owner, d)
      ensures d != 0 ==> DataSame(old(mem), mem, old(owner)) && OthersSame(old(mem), mem, old(owner), d)
      ensures d != 0 ==> forall v: nat :: v < 0x100000 ==> LookV(mem, d, v) == 0
    {
      hide Own, Chained, AddrOf, Entry;
      AllInMem(mem, owner);
      d := Kalloc();
      if d == 0 {
        return;
      }
      NewDir(mem, owner, d);
      DataWriteSame(mem, owner, d, ZeroPage());
      WriteChained(mem, freelist, chain, d, ZeroPage());
      assert forall e :: IsDir(old(owner), e) ==> IsDir(owner, e);
      mem := mem[d := ZeroPage()];
      owner := owner[d := Dir];
    }

    /** The way out of a failed setupkvm or copyuvm: freevm leaves exactly the pages that were in use before. */
    method FreeFailed(ghost mem0: map<nat, Page>, ghost owner0: map<nat, Use>, d: nat, ghost n: nat)
      requires Valid() && Own(mem0, owner0) && IsDir(owner, d) && d !in owner0 && Grown(owner0[d := Dir], owner, d, 0, n)
      requires DataSame(mem0, mem, owner0) && OthersSame(mem0, mem, owner0, d)
      modifies this
      ensures Valid() && owner == owner0 && SameMaps(mem0, mem, owner0) && DataSame(mem0, mem, owner0)
    {
      hide Own, Chained, Present, AddrOf, Lookup, Partition;
      ghost var mem1, owner1 := mem, owner;
      FreeVm(d);
      FreshWithout(mem0, owner0, owner1, d, n);
      OthersAll(mem0, mem1, owner0, d);
      SameTrans(mem0, mem1, mem, owner0);
    }

    /** kalloc and mappages for virtual page v of d.  The page's words are `content`. */
    method AddUserPage(d: nat, v: nat, content: Page, perm: nat) returns (ok: bool, m: nat)
      requires Valid() && IsDir(owner, d) && v < 0x80000 && perm < 4096 && |content| == 1024 && !Present(LookV(mem, d, v))
      modifies this
      ensures Valid() && DataSame(old(mem), mem, old(owner))
      ensures !ok ==> SameMaps(old(mem), mem, old(owner)) && owner == if m == 0 then old(owner) else old(owner)[m := Other]
      ensures m != 0 ==> m !in old(owner)
      ensures ok ==> m != 0 && m in mem && mem[m] == content && LookV(mem, d, v) == Entry(m, perm)
      ensures ok ==> SameMapsBut(old(mem), mem, old(owner), d, v / 1024, v % 1024)
      ensures ok ==> TablesAdded(old(owner)[m := User(d, v / 1024, v % 1024)], owner, d)
    {
      hide Own, Chained, Present, AddrOf, Entry, Lookup, LookV, DataSame, TablesAdded, SameMaps, SameMapsBut;
      SplitV(v);
      SameData(mem, owner);
      SameRefl(mem, owner);
      ok := false;
      m := Kalloc();
      if m == 0 {
        return;
      }
      ghost var owner1 := owner;
      WritePage(mem, owner, m, content);
      WriteChained(mem, freelist, chain, m, content);
      DataWriteSame(mem, old(owner), m, content);
      SameAtV(mem, mem[m := content], old(owner), d, v);
      OtherWrite(mem, old(owner), m, content);
      mem := mem[m := content];
      ghost var mem1 := mem;
      assert LookV(mem, d, v) == Lookup(mem, d, v / 1024, v % 1024) by { LookIs(mem, d, v); }
      ok := MapUser(d, v / 1024, v % 1024, m, perm);
      if !ok {
        return;
      }
      AddedPage(old(mem), mem1, mem, old(owner), owner1, owner, d, v, m);
      LookIs(mem, d, v);
    }

    /** allocuvm.  When it fails, what is mapped where is as before; only tables may have been added. */
    method AllocUvm(d: nat, oldsz: nat, newsz: nat) returns (r: nat, ghost ok: bool)
      requires Valid() && IsDir(owner, d)
      requires forall v: nat :: Pages(oldsz) <= v < 0x80000 ==> !Present(LookV(mem, d, v))
      modifies this
      ensures Valid() && DataSame(old(mem), mem, old(owner)) && OthersSame(old(mem), mem, old(owner), d)
      ensures !ok ==> r == 0 && TablesAdded(old(owner), owner, d)
      ensures !ok ==> forall v: nat :: v < 0x80000 ==> SameView(LookV(old(mem), d, v), LookV(mem, d, v))
      ensures ok ==> newsz < KERNBASE && r == if newsz < oldsz then oldsz else newsz
      ensures ok ==> Grown(old(owner), owner, d, Pages(oldsz), Pages(newsz))
      ensures ok ==> UserZeroed(old(mem), mem, d, Pages(oldsz), Pages(newsz))
    {
      hide Own, Chained, Present, AddrOf, Entry, Lookup, LookV, DataSame, TablesAdded, SameMaps, SameMapsBut, Partition, Pages,
           UsersDropped, Unmapped, Grown, OthersSame, UserZeroed;
      SameData(mem, owner);
      AddedRefl(owner, d);
      GrowStart(mem, owner, d, Pages(oldsz), Pages(newsz));
      PagesMonotone(newsz, oldsz);
      ok := false;
      if newsz >= KERNBASE {
        return 0, false;
      }
      PagesBelow(newsz);
      if newsz < oldsz {
        return oldsz, true;
      }
      var a := Pages(oldsz);
      while a < Pages(newsz)
        invariant Valid() && IsDir(owner, d) && Pages(oldsz) <= a <= Pages(newsz)
        invariant DataSame(old(mem), mem, old(owner)) && OthersSame(old(mem), mem, old(owner), d)
        invariant Grown(old(owner), owner, d, Pages(oldsz), a) && UserZeroed(old(mem), mem, d, Pages(oldsz), a)
      {
        ghost var mem1, owner1 := mem, owner;
        NextClear(old(mem), mem, d, Pages(oldsz), a);
        var done, m := AddUserPage(d, a, ZeroPage(), 6);
        if !done {
          GrowFailed(old(mem), mem1, mem, old(owner), owner1, owner, d, Pages(oldsz), a, m);
          UndoAlloc(d, newsz, oldsz, m, a, old(mem), old(owner), owner1);
          return 0, false;
        }
        GrowStep(old(mem), mem1, mem, old(owner), owner1, owner, d, Pages(oldsz), a, m);
        a := a + 1;
      }
      r, ok := newsz, true;
    }

    /** allocuvm's way out: deallocuvm, and kfree of the page in hand. */
    method UndoAlloc(d: nat, newsz: nat, oldsz: nat, m: nat, a: nat, ghost mem0: map<nat, Page>, ghost owner0: map<nat, Use>,
                     ghost owner1: map<nat, Use>)
      requires Valid() && Own(mem0, owner0) && IsDir(owner0, d) && IsDir(owner, d)
      requires newsz < KERNBASE && Pages(oldsz) <= a < Pages(newsz)
      requires forall v: nat :: Pages(oldsz) <= v < 0x80000 ==> !Present(LookV(mem0, d, v))
      requires Grown(owner0, owner1, d, Pages(oldsz), a) && InHand(owner1, owner, m)
      requires DataSame(mem0, mem, owner0) && OthersSame(mem0, mem, owner0, d) && SameBut(mem0, mem, d, Pages(oldsz), a)
      modifies this
      ensures Valid() && TablesAdded(owner0, owner, d) && DataSame(mem0, mem, owner0) && OthersSame(mem0, mem, owner0, d)
      ensures forall v: nat :: v < 0x80000 ==> SameView(LookV(mem0, d, v), LookV(mem, d, v))
    {
      hide Own, Chained, Present, AddrOf, Entry, Lookup, LookV, DataSame, TablesAdded, Partition, Pages,
           UsersDropped, Unmapped, Grown, OthersSame, SameBut, SameView, InHand;
      ghost var mem1, owner2 := mem, owner;
      PagesBelow(newsz);
      PagesMonotone(oldsz, newsz);
      var _ := DeallocUvm(d, newsz, oldsz);
      ghost var mem2, owner3 := mem, owner;
      DroppedAll(mem0, owner0, owner1, owner2, owner3, d, Pages(oldsz), a, Pages(newsz), m);
      if m != 0 {
        Release(m);
        Steadier(owner3, m);
      }
      UndoSame(mem0, mem1, mem2, mem, owner0, owner2, owner3, d, Pages(oldsz), a, Pages(newsz), m);
    }

    /** copyuvm: a new address space with its own copy of every page below sz, or 0 with every page given back. */
    method CopyUvm(d: nat, sz: nat) returns (c: nat)
      requires Valid() && IsDir(owner, d) && sz <= KERNBASE
      requires forall v: nat :: v < Pages(sz) ==> Present(LookV(mem, d, v))
      modifies this
      ensures Valid() && SameMaps(old(mem), mem, old(owner)) && DataSame(old(mem), mem, old(owner))
      ensures c == 0 ==> owner == old(owner) && forall p: nat :: p in chain <==> p in old(chain)
      ensures c != 0 ==> c !in old(owner) && IsDir(owner, c) && Grown(old(owner)[c := Dir], owner, c, 0, Pages(sz))
      ensures c != 0 ==> Copied(old(mem), mem, d, c, old(owner), Pages(sz)) && RestKernel(mem, c, data, Pages(sz))
    {
      hide Own, Chained, Present, AddrOf, Entry, Lookup, LookV, FlagsOf, DataSame, TablesAdded, SameMaps, SameMapsBut, Partition,
           Pages, Grown, OthersSame, Copied, RestKernel, KernelMapped, KernelPte;
      PagesMonotone(0, sz);
      c := SetupKvm();
      if c == 0 {
        return;
      }
      CopyStart(old(mem), mem, old(owner), owner, d, c, data);
      var v := 0;
      while v < Pages(sz)
        invariant Valid() && IsDir(owner, c) && v <= Pages(sz) <= 0x80000
        invariant DataSame(old(mem), mem, old(owner)) && OthersSame(old(mem), mem, old(owner), c)
        invariant Grown(old(owner)[c := Dir], owner, c, 0, v)
        invariant Copied(old(mem), mem, d, c, old(owner), v) && RestKernel(mem, c, data, v)
      {
        var ok := CopyPage(d, c, v, old(mem), old(owner));
        if !ok {
          FreeFailed(old(mem), old(owner), c, v);
          SameFreeSet(owner, old(chain), chain, lo, hi);
          return 0;
        }
        v := v + 1;
      }
      OthersAll(old(mem), mem, old(owner), c);
    }

    /** One round of copyuvm's loop. */
    method CopyPage(d: nat, c: nat, v: nat, ghost mem0: map<nat, Page>, ghost owner0: map<nat, Use>) returns (ok: bool)
      requires Valid() && Own(mem0, owner0) && IsDir(owner0, d) && c !in owner0 && IsDir(owner, c) && v < 0x80000
      requires Present(LookV(mem0, d, v))
      requires DataSame(mem0, mem, owner0) && OthersSame(mem0, mem, owner0, c) && Grown(owner0[c := Dir], owner, c, 0, v)
      requires Copied(mem0, mem, d, c, owner0, v) && RestKernel(mem, c, data, v)
      modifies this
      ensures Valid() && IsDir(owner, c)
      ensures DataSame(mem0, mem, owner0) && OthersSame(mem0, mem, owner0, c)
      ensures Grown(owner0[c := Dir], owner, c, 0, if ok then v + 1 else v)
      ensures ok ==> Copied(mem0, mem, d, c, owner0, v + 1) && RestKernel(mem, c, data, v + 1)
    {
      hide Own, Chained, Present, AddrOf, Entry, Lookup, LookV, FlagsOf, DataSame, TablesAdded, SameMaps, SameMapsBut, Partition,
           Grown, OthersSame, Copied, RestKernel;
      ghost var mem1, owner1 := mem, owner;
      SplitV(v);
      ParentPage(mem0, mem, owner0, owner, d, c, v);
      ChildClear(mem, c, data, v);
      LookIs(mem, d, v);
      TableUse(mem, owner, d, v / 1024);
      var t := WalkPgdir(d, v / 1024, false);
      TableRead(mem, owner, d, v / 1024, v % 1024, t);
      var pte := mem[t][v % 1024];
      FlagsCopy(pte, 0);
      var m;
      ok, m := AddUserPage(c, v, mem[AddrOf(pte)], FlagsOf(pte));
      if ok {
        CopyStep(mem0, mem1, mem, owner0, owner1, owner, d, c, data, v, m);
      } else {
        ghost var mem2, owner2 := mem, owner;
        if m != 0 {
          Release(m);
          Steadier(owner2, m);
        }
        CopyFailed(mem0, mem1, mem2, mem, owner0, owner1, owner, c, v, m);
      }
    }
  }
}
