/** commit() and recover_from_log() of log.c over the buffer cache of bio.c: every bread, bwrite and brelse they make.
    The disk goes through the steps of RedoLog.  Commit panics for want of a buffer exactly when the logged blocks and the
    clean buffers that others hold together fill the cache; recovery never does. */
module CommitCode {
  import opened Common
  import opened BufferCache
  import RL = RedoLog

  // ---- What commit finds in the cache ----

  /** Buffer j holds block n, pinned, and nobody has it locked. */
  ghost predicate PinnedAt(buf: seq<Buf>, n: int, j: int) {
    0 <= j < |buf| && buf[j].dev == DISK && buf[j].blockno == n && buf[j].dirty && !buf[j].locked
  }

  ghost predicate Cached(buf: seq<Buf>, n: int) {
    exists j :: PinnedAt(buf, n, j)
  }

  /** Nobody uses block n, if it is in the cache at all. */
  ghost predicate IdleAt(buf: seq<Buf>, n: int) {
    forall j :: 0 <= j < |buf| && buf[j].dev == DISK && buf[j].blockno == n ==> Recyclable(buf[j])
  }

  ghost predicate Spare(buf: seq<Buf>) {
    exists j :: 0 <= j < |buf| && Recyclable(buf[j])
  }

  /** The pinned buffers are those of the entries from k on, and only the log uses its own blocks. */
  ghost predicate Ready(g: RL.Geometry, lh: seq<int>, k: nat, buf: seq<Buf>) {
    && (forall i :: k <= i < |lh| ==> Cached(buf, lh[i]))
    && (forall j :: 0 <= j < |buf| && buf[j].dirty ==> exists i :: k <= i < |lh| && PinnedAt(buf, lh[i], j))
    && (forall n :: g.start <= n < g.start + g.size ==> IdleAt(buf, n))
  }

  /** At boot every buffer is free. */
  ghost predicate AllFree(buf: seq<Buf>) {
    forall j :: 0 <= j < |buf| ==> Recyclable(buf[j])
  }

  /** Nobody has the buffer of block n locked. */
  ghost predicate Unlocked(buf: seq<Buf>, n: int) {
    forall j :: 0 <= j < |buf| && buf[j].dev == DISK && buf[j].blockno == n ==> !buf[j].locked
  }

  /** Block n is in a buffer that bget cannot take away. */
  ghost predicate Busy(buf: seq<Buf>, n: int) {
    exists j :: 0 <= j < |buf| && buf[j].dev == DISK && buf[j].blockno == n && !Recyclable(buf[j])
  }

  ghost predicate TwoSpare(buf: seq<Buf>) {
    exists i, j :: 0 <= i < j < |buf| && Recyclable(buf[i]) && Recyclable(buf[j])
  }

  /** bread of a log block and then of block n both find a buffer. */
  ghost predicate Enough(buf: seq<Buf>, n: int) {
    Spare(buf) && (Busy(buf, n) || TwoSpare(buf))
  }

  /** The protocol state beside the cache: the same disk, and the buffers that write_log will copy. */
  ghost predicate Linked(g: RL.Geometry, s: RL.State, disk: seq<Block>, current: seq<Block>) {
    && RL.Shape(g, s) && s.disk == disk && |disk| == |current|
    && (|s.lh| < g.size || (|s.lh| >= NBUF && 2 <= g.size))
    && (s.stage.Copying? ==> forall i :: 0 <= i < |s.lh| ==> s.cache[s.lh[i]] == current[s.lh[i]])
    && (forall n :: g.start <= n < g.start + g.size ==> disk[n] == current[n])
  }

  // ---- Counting buffers ----

  ghost function Dirty(buf: seq<Buf>): set<nat> {
    set j: nat | j < |buf| && buf[j].dirty
  }

  /** Clean buffers that somebody refers to. */
  ghost function Held(buf: seq<Buf>): set<nat> {
    set j: nat | j < |buf| && !buf[j].dirty && buf[j].refcnt > 0
  }

  ghost function Below(n: nat): (r: set<nat>)
    ensures forall j: nat :: j in r <==> j < n
    ensures |r| == n
  {
    if n == 0 then {} else Below(n - 1) + {n - 1}
  }

  /** Buffer j is pinned for one of these blocks. */
  ghost predicate PinnedFor(buf: seq<Buf>, lh: seq<int>, j: int) {
    exists i :: 0 <= i < |lh| && PinnedAt(buf, lh[i], j)
  }

  ghost function Pins(buf: seq<Buf>, lh: seq<int>): set<nat> {
    set j: nat | j < |buf| && PinnedFor(buf, lh, j)
  }

  ghost predicate OneEach(buf: seq<Buf>) {
    forall i, j :: 0 <= i < j < |buf| && Keyed(buf[i], buf[j].dev, buf[j].blockno) ==> buf[i].dev != DISK
  }

  lemma OnlyOne(buf: seq<Buf>, n: nat, h: int)
    requires OneEach(buf) && PinnedAt(buf, n, h)
    ensures forall j :: 0 <= j < |buf| && Keyed(buf[j], DISK, n) ==> j == h
  {
    forall j | 0 <= j < |buf| && Keyed(buf[j], DISK, n)
      ensures j == h
    {
      assert Keyed(buf[j], buf[h].dev, buf[h].blockno) && Keyed(buf[h], buf[j].dev, buf[j].blockno);
    }
  }

  /** The last entry adds the one buffer it pins. */
  lemma PinsLast(buf: seq<Buf>, lh: seq<int>, n: nat, h: nat)
    requires OneEach(buf) && Distinct(lh) && |lh| == n + 1 && PinnedAt(buf, lh[n], h)
    ensures Pins(buf, lh) == Pins(buf, lh[..n]) + {h} && h !in Pins(buf, lh[..n])
  {
    var init := lh[..n];
    forall j: nat | j < |buf|
      ensures PinnedFor(buf, lh, j) <==> PinnedFor(buf, init, j) || j == h
    {
      OnlyOne(buf, lh[n], h);
      assert PinnedAt(buf, lh[n], j) ==> Keyed(buf[j], DISK, lh[n]);
      assert forall i :: 0 <= i < n ==> init[i] == lh[i];
    }
  }

  lemma {:induction false} PinCount(buf: seq<Buf>, lh: seq<int>)
    requires OneEach(buf) && Distinct(lh) && forall i :: 0 <= i < |lh| ==> Cached(buf, lh[i])
    ensures |Pins(buf, lh)| == |lh|
  {
    if lh == [] {
      assert Pins(buf, lh) == {};
    } else {
      hide PinnedFor, OneEach;
      var n := |lh| - 1;
      PinCount(buf, lh[..n]);
      assert Cached(buf, lh[n]);
      var h :| PinnedAt(buf, lh[n], h);
      hide Pins;
      PinsLast(buf, lh, n, h);
    }
  }

  lemma ReadyPins(g: RL.Geometry, lh: seq<int>, buf: seq<Buf>)
    requires OneEach(buf) && Distinct(lh) && Ready(g, lh, 0, buf)
    ensures |Dirty(buf)| == |lh|
  {
    PinCount(buf, lh);
    assert Dirty(buf) == Pins(buf, lh);
  }

  lemma SpareSets(buf: seq<Buf>)
    ensures Dirty(buf) !! Held(buf) && Dirty(buf) + Held(buf) <= Below(|buf|)
    ensures !Spare(buf) <==> Dirty(buf) + Held(buf) == Below(|buf|)
  {
    hide Below;
    if Spare(buf) {
      var j :| 0 <= j < |buf| && Recyclable(buf[j]);
      assert j in Below(|buf|);
    } else {
      forall j: nat | j < |buf|
        ensures j in Dirty(buf) + Held(buf)
      {
        assert !Recyclable(buf[j]);
      }
    }
  }

  /** When commit starts, no buffer is left exactly when the entries of the log and the clean buffers that others hold
      add up to NBUF.  A log of LOGSIZE entries leaves none, since LOGSIZE == NBUF. */
  lemma SpareCount(g: RL.Geometry, lh: seq<int>, buf: seq<Buf>)
    requires |buf| == NBUF && OneEach(buf) && Distinct(lh) && Ready(g, lh, 0, buf)
    ensures |lh| + |Held(buf)| <= NBUF
    ensures !Spare(buf) <==> |lh| + |Held(buf)| == NBUF
    ensures |lh| == LOGSIZE ==> !Spare(buf)
  {
    hide Ready, OneEach, Distinct, Dirty, Held, Below, Spare;
    ReadyPins(g, lh, buf);
    SpareSets(buf);
    var both := Dirty(buf) + Held(buf);
    assert |both| == |Dirty(buf)| + |Held(buf)|;
    SubsetSize(both, Below(|buf|));
  }

  /** What a round leaves of the buffers: l now holds log block `slot` and is free again, h is the home buffer. */
  ghost predicate Round(buf: seq<Buf>, buf': seq<Buf>, slot: nat, home: nat, l: nat, h: nat, clean: bool)
  {
    && |buf'| == |buf| && l < |buf| && h < |buf| && l != h && Recyclable(buf[l])
    && (forall j :: 0 <= j < |buf| && j != l && j != h ==> buf'[j] == buf[j])
    && Recyclable(buf'[l]) && buf'[l].dev == DISK && buf'[l].blockno == slot
    && buf'[h].dev == DISK && buf'[h].blockno == home && !buf'[h].locked
    && (buf'[h].dirty <==> !clean && buf[h].dirty) && buf'[h].refcnt == buf[h].refcnt
    && (Keyed(buf[h], DISK, home) || (Recyclable(buf[h]) && !Busy(buf, home)))
  }

  lemma CacheFacts(cache: BCache)
    requires cache.Valid()
    ensures OneEach(cache.buf[..])
    ensures forall j :: 0 <= j < NBUF && cache.buf[j].dirty ==>
              cache.buf[j].valid && cache.buf[j].blockno < |cache.disk| && cache.buf[j].data == cache.current[cache.buf[j].blockno]
    ensures |cache.disk| == |cache.current|
    ensures forall i :: 0 <= i < NBUF && cache.buf[i].locked ==> cache.buf[i].refcnt > 0
  {
    hide Ring;
  }

  // ---- The code ----

  method Release(cache: BCache, b: nat)
    requires cache.Valid() && b < NBUF && cache.buf[b].locked && b !in cache.unsaved
    modifies cache, cache.buf, cache.next, cache.prev
    ensures cache.Valid() && cache.disk == old(cache.disk)
    ensures cache.current == old(cache.current) && cache.unsaved == old(cache.unsaved)
    ensures cache.buf[..] ==
            old(cache.buf[..])[b := old(cache.buf[b]).(locked := false, pid := 0, refcnt := old(cache.buf[b]).refcnt - 1)]
  {
    hide Agrees;
    assert b in cache.order;
    ghost var k :| 0 <= k < |cache.order| && cache.order[k] == b;
    cache.Brelse(b, k);
  }

  lemma FirstBread(buf: seq<Buf>, slot: nat, panicked: bool)
    requires IdleAt(buf, slot)
    requires panicked <==> forall i :: 0 <= i < |buf| ==> !Keyed(buf[i], DISK, slot) && !Recyclable(buf[i])
    ensures panicked <==> !Spare(buf)
  {
  }

  /** bread of a block that nobody uses. */
  method BreadIdle(cache: BCache, n: nat, pid: int) returns (panicked: bool, b: nat)
    requires cache.Valid() && n < |cache.disk| && IdleAt(cache.buf[..], n)
    modifies cache, cache.buf
    ensures cache.Valid() && cache.disk == old(cache.disk) && n < |cache.current|
    ensures cache.current == old(cache.current) && cache.unsaved == old(cache.unsaved)
    ensures panicked <==> !Spare(old(cache.buf[..]))
    ensures panicked ==> cache.buf[..] == old(cache.buf[..])
    ensures !panicked ==>
              && b < NBUF && Recyclable(old(cache.buf[b]))
              && cache.buf[..] == old(cache.buf[..])[b := Buf(DISK, n, 1, true, false, true, pid, cache.current[n])]
  {
    hide Agrees, Ring, Spare;
    ghost var buf := cache.buf[..];
    CacheFacts(cache);
    assert forall i :: 0 <= i < NBUF && Keyed(cache.buf[i], DISK, n) ==> Recyclable(buf[i]);
    panicked, b := cache.Bread(n, pid);
    FirstBread(buf, n, panicked);
    if !panicked { assert Recyclable(buf[b]); }
  }

  ghost predicate InCache(buf: seq<Buf>, n: nat) {
    exists i :: 0 <= i < |buf| && Keyed(buf[i], DISK, n)
  }

  lemma AnyBread(buf: seq<Buf>, n: nat)
    ensures (forall i :: 0 <= i < |buf| ==> !Keyed(buf[i], DISK, n) && !Recyclable(buf[i])) <==> !InCache(buf, n) && !Spare(buf)
    ensures (forall i :: 0 <= i < |buf| ==> !Keyed(buf[i], DISK, n)) <==> !InCache(buf, n)
  {
  }

  /** bread of a block that nobody has locked. */
  method BreadUnlocked(cache: BCache, n: nat, pid: int) returns (panicked: bool, b: nat)
    requires cache.Valid() && n < |cache.disk| && Unlocked(cache.buf[..], n)
    modifies cache, cache.buf
    ensures cache.Valid() && cache.disk == old(cache.disk) && n < |cache.current|
    ensures cache.current == old(cache.current) && cache.unsaved == old(cache.unsaved)
    ensures panicked <==> !InCache(old(cache.buf[..]), n) && !Spare(old(cache.buf[..]))
    ensures !panicked ==>
              && b < NBUF
              && cache.buf[..] == old(cache.buf[..])[b := Buf(DISK, n, old(cache.buf[b]).refcnt + 1, true, old(cache.buf[b]).dirty,
                                                              true, pid, cache.current[n])]
              && (Keyed(old(cache.buf[b]), DISK, n) || (Recyclable(old(cache.buf[b])) && !InCache(old(cache.buf[..]), n)))
  {
    hide Agrees, Ring, Spare, InCache;
    ghost var buf := cache.buf[..];
    CacheFacts(cache);
    assert forall i :: 0 <= i < NBUF && Keyed(cache.buf[i], DISK, n) ==> !buf[i].locked;
    panicked, b := cache.Bread(n, pid);
    AnyBread(buf, n);
  }

  lemma SecondBread(buf: seq<Buf>, mid: seq<Buf>, home: nat, l: nat)
    requires |mid| == |buf| && l < |buf| && Recyclable(buf[l]) && !Recyclable(mid[l]) && !Keyed(mid[l], DISK, home)
    requires forall j :: 0 <= j < |buf| && j != l ==> mid[j] == buf[j]
    ensures InCache(mid, home) || Spare(mid) <==> Busy(buf, home) || TwoSpare(buf)
    ensures !InCache(mid, home) ==> !Busy(buf, home)
    ensures Spare(buf)
  {
    if InCache(mid, home) || Spare(mid) {
      var i :| 0 <= i < |mid| && (Keyed(mid[i], DISK, home) || Recyclable(mid[i]));
      if Recyclable(buf[i]) {
        var a, b := if i < l then i else l, if i < l then l else i;
        assert 0 <= a < b < |buf| && Recyclable(buf[a]) && Recyclable(buf[b]);
      }
    }
    if Busy(buf, home) {
      var i :| 0 <= i < |buf| && buf[i].dev == DISK && buf[i].blockno == home && !Recyclable(buf[i]);
      assert Keyed(mid[i], DISK, home);
    } else if TwoSpare(buf) {
      var a, b :| 0 <= a < b < |buf| && Recyclable(buf[a]) && Recyclable(buf[b]);
      assert Recyclable(mid[if a == l then b else a]);
    }
  }

  /** bread of a log block, then of the home block that goes with it; panics exactly when there is no buffer for one of
      the two. */
  method ReadPair(cache: BCache, slot: nat, home: nat, pid: int) returns (panicked: bool, l: nat, h: nat)
    requires cache.Valid() && slot < |cache.disk| && home < |cache.disk| && slot != home
    requires IdleAt(cache.buf[..], slot) && Unlocked(cache.buf[..], home)
    modifies cache, cache.buf
    ensures cache.Valid() && cache.disk == old(cache.disk) && slot < |cache.current| && home < |cache.current|
    ensures cache.current == old(cache.current) && cache.unsaved == old(cache.unsaved)
    ensures panicked <==> !Enough(old(cache.buf[..]), home)
    ensures !panicked ==>
              && l < NBUF && h < NBUF && l != h && Recyclable(old(cache.buf[l]))
              && cache.buf[..] ==
                 old(cache.buf[..])[l := Buf(DISK, slot, 1, true, false, true, pid, cache.current[slot])]
                                   [h := Buf(DISK, home, old(cache.buf[h]).refcnt + 1, true, old(cache.buf[h]).dirty,
                                             true, pid, cache.current[home])]
              && (Keyed(old(cache.buf[h]), DISK, home) || (Recyclable(old(cache.buf[h])) && !Busy(old(cache.buf[..]), home)))
  {
    hide Agrees, Ring, Spare, Busy, TwoSpare, IdleAt, InCache;
    ghost var buf := cache.buf[..];
    CacheFacts(cache);
    h := 0;
    panicked, l := BreadIdle(cache, slot, pid);
    if panicked { return; }
    ghost var mid := cache.buf[..];
    SecondBread(buf, mid, home, l);
    panicked, h := BreadUnlocked(cache, home, pid);
  }

  /** One round of write_log: the home block's current contents go to the log block. */
  method CopyOne(cache: BCache, slot: nat, home: nat, pid: int) returns (panicked: bool, ghost l: nat, ghost h: nat)
    requires cache.Valid() && cache.unsaved == {} && slot < |cache.disk| && home < |cache.disk| && slot != home
    requires IdleAt(cache.buf[..], slot) && Unlocked(cache.buf[..], home)
    modifies cache, cache.buf, cache.next, cache.prev
    ensures cache.Valid() && cache.unsaved == {}
    ensures panicked <==> !Enough(old(cache.buf[..]), home)
    ensures panicked ==> cache.disk == old(cache.disk) && cache.current == old(cache.current)
    ensures !panicked ==>
              && |old(cache.current)| == |cache.disk| == |old(cache.disk)|
              && cache.current == old(cache.current)[slot := old(cache.current)[home]]
              && cache.disk == old(cache.disk)[slot := old(cache.current)[home]]
              && Round(old(cache.buf[..]), cache.buf[..], slot, home, l, h, false)
  {
    hide Agrees, Ring, IdleAt, Unlocked, Enough, Busy;
    CacheFacts(cache);
    var to, from;
    panicked, to, from := ReadPair(cache, slot, home, pid);
    l, h := to, from;
    if panicked { return; }
    cache.Modify(to, cache.buf[from].data);
    cache.Bwrite(to);
    Release(cache, from);
    Release(cache, to);
  }

  /** One round of install_trans: the log block's contents go home, and the home block's buffer is not pinned. */
  method InstallOne(cache: BCache, slot: nat, home: nat, pid: int) returns (panicked: bool, ghost l: nat, ghost h: nat)
    requires cache.Valid() && cache.unsaved == {} && slot < |cache.disk| && home < |cache.disk| && slot != home
    requires IdleAt(cache.buf[..], slot) && Unlocked(cache.buf[..], home)
    modifies cache, cache.buf, cache.next, cache.prev
    ensures cache.Valid() && cache.unsaved == {}
    ensures panicked <==> !Enough(old(cache.buf[..]), home)
    ensures panicked ==> cache.disk == old(cache.disk) && cache.current == old(cache.current)
    ensures !panicked ==>
              && |old(cache.current)| == |cache.disk| == |old(cache.disk)|
              && cache.current == old(cache.current)[home := old(cache.current)[slot]]
              && cache.disk == old(cache.disk)[home := old(cache.current)[slot]]
              && Round(old(cache.buf[..]), cache.buf[..], slot, home, l, h, true)
  {
    hide Agrees, Ring, IdleAt, Unlocked, Enough, Busy;
    CacheFacts(cache);
    var lbuf, dbuf;
    panicked, lbuf, dbuf := ReadPair(cache, slot, home, pid);
    l, h := lbuf, dbuf;
    if panicked { return; }
    cache.Modify(dbuf, cache.buf[lbuf].data);
    cache.Bwrite(dbuf);
    Release(cache, lbuf);
    Release(cache, dbuf);
  }

  /** write_head. */
  method WriteHead(cache: BCache, start: nat, lh: seq<int>, pid: int) returns (panicked: bool, ghost l: nat)
    requires cache.Valid() && cache.unsaved == {} && start < |cache.disk| && |cache.current| == |cache.disk|
    requires IdleAt(cache.buf[..], start) && |cache.current[start]| == RL.WORDS && |lh| <= LOGSIZE
    modifies cache, cache.buf, cache.next, cache.prev
    ensures cache.Valid() && cache.unsaved == {}
    ensures panicked <==> !Spare(old(cache.buf[..]))
    ensures !panicked ==>
              && cache.current == old(cache.current)[start := RL.PutHead(old(cache.current)[start], lh)]
              && cache.disk == old(cache.disk)[start := RL.PutHead(old(cache.current)[start], lh)]
              && l < NBUF && Recyclable(old(cache.buf[l]))
              && cache.buf[..] == old(cache.buf[..])[l := Buf(DISK, start, 0, true, false, false, 0, cache.current[start])]
  {
    hide Agrees, Ring, Spare, IdleAt;
    var b;
    CacheFacts(cache);
    panicked, b := BreadIdle(cache, start, pid);
    l := b;
    if panicked { return; }
    cache.Modify(b, RL.PutHead(cache.buf[b].data, lh));
    cache.Bwrite(b);
    Release(cache, b);
  }

  // ---- One round keeps cache and protocol together ----

  /** In a commit the home block is pinned: one buffer to spare is enough, and the round finds the pinned one. */
  lemma PinnedEnough(buf: seq<Buf>, n: nat)
    requires OneEach(buf) && Cached(buf, n)
    ensures Unlocked(buf, n) && (Enough(buf, n) <==> Spare(buf))
  {
    var j :| PinnedAt(buf, n, j);
    OnlyOne(buf, n, j);
  }

  lemma RoundPinned(buf: seq<Buf>, buf': seq<Buf>, slot: nat, n: nat, l: nat, h: nat, clean: bool)
    requires OneEach(buf) && Cached(buf, n) && Round(buf, buf', slot, n, l, h, clean)
    ensures PinnedAt(buf, n, h)
  {
    var j :| PinnedAt(buf, n, j);
    OnlyOne(buf, n, j);
  }

  lemma RoundCached(lh: seq<int>, i: nat, x: nat, buf: seq<Buf>, buf': seq<Buf>, slot: nat, l: nat, h: nat, clean: bool)
    requires i < |lh| && x < |lh| && (clean ==> x != i) && Distinct(lh) && Cached(buf, lh[x]) && 0 <= lh[i]
    requires Round(buf, buf', slot, lh[i], l, h, clean) && PinnedAt(buf, lh[i], h)
    ensures Cached(buf', lh[x])
  {
    hide Busy;
    var j :| PinnedAt(buf, lh[x], j);
    assert lh[x] == lh[i] ==> x == i;
    assert PinnedAt(buf', lh[x], j);
  }

  lemma RoundDirty(g: RL.Geometry, lh: seq<int>, k: nat, i: nat, buf: seq<Buf>, buf': seq<Buf>, slot: nat, l: nat, h: nat,
                   clean: bool, j: nat)
    requires k <= i < |lh| && (clean ==> k == i) && OneEach(buf) && Ready(g, lh, k, buf) && 0 <= lh[i]
    requires Round(buf, buf', slot, lh[i], l, h, clean) && PinnedAt(buf, lh[i], h) && j < |buf| && buf'[j].dirty
    ensures exists x :: (if clean then k + 1 else k) <= x < |lh| && PinnedAt(buf', lh[x], j)
  {
    hide Busy;
    var x :| k <= x < |lh| && PinnedAt(buf, lh[x], j);
    if clean { OnlyOne(buf, lh[i], h); }
    assert PinnedAt(buf', lh[x], j);
  }

  lemma RoundReady(g: RL.Geometry, lh: seq<int>, k: nat, i: nat, buf: seq<Buf>, buf': seq<Buf>, slot: nat, l: nat, h: nat,
                   clean: bool)
    requires k <= i < |lh| && (clean ==> k == i) && Distinct(lh) && OneEach(buf) && Ready(g, lh, k, buf)
    requires 0 <= lh[i] && !(g.start <= lh[i] < g.start + g.size) && Round(buf, buf', slot, lh[i], l, h, clean)
    ensures Ready(g, lh, if clean then k + 1 else k, buf') && Spare(buf')
  {
    hide Distinct, OneEach, PinnedAt, Cached, Busy;
    RoundPinned(buf, buf', slot, lh[i], l, h, clean);
    var k' := if clean then k + 1 else k;
    forall x | k' <= x < |lh|
      ensures Cached(buf', lh[x])
    {
      RoundCached(lh, i, x, buf, buf', slot, l, h, clean);
    }
    forall j | 0 <= j < |buf'| && buf'[j].dirty
      ensures exists x :: k' <= x < |lh| && PinnedAt(buf', lh[x], j)
    {
      RoundDirty(g, lh, k, i, buf, buf', slot, l, h, clean, j);
    }
    forall n | g.start <= n < g.start + g.size
      ensures IdleAt(buf', n)
    {
      assert IdleAt(buf, n);
    }
  }

  /** At boot there is always a buffer. */
  lemma FreeEnough(cache: BCache, slot: nat, home: nat)
    requires cache.Valid() && AllFree(cache.buf[..])
    ensures IdleAt(cache.buf[..], slot) && Unlocked(cache.buf[..], home) && Enough(cache.buf[..], home)
  {
    hide Ring, Agrees;
    var buf := cache.buf[..];
    CacheFacts(cache);
    assert Recyclable(buf[0]) && Recyclable(buf[1]);
    assert forall j :: 0 <= j < |buf| && buf[j].locked ==> !Recyclable(buf[j]);
  }

  lemma RoundFree(buf: seq<Buf>, buf': seq<Buf>, slot: nat, home: nat, l: nat, h: nat)
    requires AllFree(buf) && Round(buf, buf', slot, home, l, h, true)
    ensures AllFree(buf')
  {
  }

  /** The state, the run that led to it, and the cache beside it. */
  ghost predicate Going(g: RL.Geometry, s0: RL.State, steps: seq<RL.Step>, s: RL.State, disk: seq<Block>, current: seq<Block>) {
    RL.CanRun(g, s0, steps) && s == RL.After(g, s0, steps) && Linked(g, s, disk, current)
  }

  lemma GoOn(g: RL.Geometry, s0: RL.State, steps: seq<RL.Step>, s: RL.State, step: RL.Step, s': RL.State,
             disk: seq<Block>, current: seq<Block>)
    requires RL.CanRun(g, s0, steps) && s == RL.After(g, s0, steps)
    requires RL.Enabled(g, s, step) && s' == RL.Do(g, s, step) && Linked(g, s', disk, current)
    ensures Going(g, s0, steps + [step], s', disk, current)
  {
    RL.AfterOne(g, s0, steps, step);
  }

  lemma NotYet(g: RL.Geometry, s: RL.State, disk: seq<Block>, current: seq<Block>)
    requires Linked(g, s, disk, current)
    ensures Going(g, s, [], s, disk, current)
  {
  }

  /** Home blocks and log blocks are apart. */
  lemma Apart(g: RL.Geometry, s: RL.State)
    requires RL.Shape(g, s)
    ensures forall x :: 0 <= x < |s.lh| ==> 0 <= s.lh[x] < g.blocks && !(g.start <= s.lh[x] < g.start + g.size)
    ensures Distinct(s.lh) && |s.lh| <= LOGSIZE && g.start + g.size <= g.blocks == |s.disk| && 1 <= g.size
    ensures |s.disk[g.start]| == RL.WORDS
  {
  }

  lemma CopyStep(g: RL.Geometry, s: RL.State, disk: seq<Block>, current: seq<Block>) returns (s': RL.State)
    requires Linked(g, s, disk, current) && s.stage.Copying? && s.stage.k < |s.lh| < g.size && |s.lh| < NBUF
    ensures RL.Enabled(g, s, RL.CopyBlock) && s' == RL.Do(g, s, RL.CopyBlock)
    ensures var slot, home := g.start + 1 + s.stage.k, s.lh[s.stage.k];
            && 0 <= home < |disk| && slot < |disk|
            && Linked(g, s', disk[slot := current[home]], current[slot := current[home]])
    ensures s' == s.(disk := s'.disk, stage := RL.Copying(s.stage.k + 1))
  {
    Apart(g, s);
    s' := RL.Do(g, s, RL.CopyBlock);
  }

  /** The stage of install_trans in commit and in recovery. */
  ghost function AtInstall(recovering: bool, k: nat): RL.Stage {
    if recovering then RL.Recovering(k) else RL.Installing(k)
  }

  lemma InstallStep(g: RL.Geometry, s: RL.State, disk: seq<Block>, current: seq<Block>, recovering: bool, k: nat)
    returns (s': RL.State)
    requires Linked(g, s, disk, current) && s.stage == AtInstall(recovering, k) && k < |s.lh| < g.size
    ensures RL.Enabled(g, s, RL.InstallBlock) && s' == RL.Do(g, s, RL.InstallBlock)
    ensures var slot, home := g.start + 1 + k, s.lh[k];
            && 0 <= home < |disk| && slot < |disk|
            && Linked(g, s', disk[home := current[slot]], current[home := current[slot]])
    ensures s' == s.(disk := s'.disk, stage := AtInstall(recovering, k + 1))
  {
    Apart(g, s);
    s' := RL.Do(g, s, RL.InstallBlock);
  }

  lemma HeadStep(g: RL.Geometry, s: RL.State, disk: seq<Block>, current: seq<Block>) returns (s': RL.State)
    requires Linked(g, s, disk, current) && s.stage.Copying? && s.stage.k == |s.lh| < g.size && |s.lh| < NBUF
    ensures RL.Enabled(g, s, RL.WriteHeader) && s' == RL.Do(g, s, RL.WriteHeader)
    ensures var head := RL.PutHead(s.disk[g.start], s.lh); Linked(g, s', disk[g.start := head], current[g.start := head])
    ensures s' == s.(disk := s'.disk, stage := RL.Installing(0), durable := |s.hist|)
  {
    Apart(g, s);
    s' := RL.Do(g, s, RL.WriteHeader);
  }

  lemma ClearStep(g: RL.Geometry, s: RL.State, disk: seq<Block>, current: seq<Block>, recovering: bool) returns (s': RL.State)
    requires Linked(g, s, disk, current) && s.stage == AtInstall(recovering, |s.lh|)
    ensures RL.Enabled(g, s, RL.ClearHeader) && s' == RL.Do(g, s, RL.ClearHeader)
    ensures var head := RL.PutHead(s.disk[g.start], []); Linked(g, s', disk[g.start := head], current[g.start := head])
    ensures s' == s.(disk := s'.disk, lh := [], stage := if recovering then RL.Idle else RL.Committed)
  {
    Apart(g, s);
    s' := RL.Do(g, s, RL.ClearHeader);
  }

  lemma ReadyAt(g: RL.Geometry, lh: seq<int>, k: nat, i: nat, slot: nat, buf: seq<Buf>)
    requires Ready(g, lh, k, buf) && k <= i < |lh| && g.start <= slot < g.start + g.size
    ensures Cached(buf, lh[i]) && IdleAt(buf, slot)
  {
  }

  lemma ReadyHead(g: RL.Geometry, lh: seq<int>, k: nat, buf: seq<Buf>)
    requires Ready(g, lh, k, buf) && 1 <= g.size
    ensures IdleAt(buf, g.start)
  {
  }

  /** write_head's buffer is one that was free, and is free again. */
  lemma HeadReady(g: RL.Geometry, lh: seq<int>, k: nat, buf: seq<Buf>, l: nat, b: Buf)
    requires Ready(g, lh, k, buf) && l < |buf| && Recyclable(buf[l]) && Recyclable(b)
    ensures Ready(g, lh, k, buf[l := b]) && Spare(buf[l := b])
  {
    var buf' := buf[l := b];
    forall x | k <= x < |lh|
      ensures Cached(buf', lh[x])
    {
      assert Cached(buf, lh[x]);
      var j :| PinnedAt(buf, lh[x], j);
      assert PinnedAt(buf', lh[x], j);
    }
    forall j | 0 <= j < |buf'| && buf'[j].dirty
      ensures exists x :: k <= x < |lh| && PinnedAt(buf', lh[x], j)
    {
      var x :| k <= x < |lh| && PinnedAt(buf, lh[x], j);
      assert PinnedAt(buf', lh[x], j);
    }
    forall n | g.start <= n < g.start + g.size
      ensures IdleAt(buf', n)
    {
      assert IdleAt(buf, n);
    }
    assert Recyclable(buf'[l]);
  }

  /** With nothing pinned the disk has everything. */
  lemma AllSaved(cache: BCache)
    requires cache.Valid() && cache.unsaved == {} && forall j :: 0 <= j < NBUF ==> !cache.buf[..][j].dirty
    ensures cache.disk == cache.current
  {
    hide Ring;
  }

  /** Past the last entry nothing is pinned. */
  lemma ReadyEnd(g: RL.Geometry, lh: seq<int>, buf: seq<Buf>)
    requires Ready(g, lh, |lh|, buf)
    ensures Ready(g, [], 0, buf)
  {
  }

  lemma ReadyClean(g: RL.Geometry, buf: seq<Buf>)
    requires Ready(g, [], 0, buf)
    ensures forall j :: 0 <= j < |buf| ==> !buf[j].dirty
  {
  }

  // ---- commit() ----

  /** Each log block holds what its home block does. */
  ghost predicate Copied(g: RL.Geometry, lh: seq<int>, n: nat, current: seq<Block>) {
    n <= |lh| && forall i :: 0 <= i < n ==>
      0 <= lh[i] < |current| && g.start + 1 + i < |current| && current[g.start + 1 + i] == current[lh[i]]
  }

  lemma NoneCopied(g: RL.Geometry, lh: seq<int>, current: seq<Block>)
    requires |current| == g.blocks
    ensures Copied(g, lh, 0, current) && RL.SameHome(g, current, current)
  {
  }

  lemma CopiedOne(g: RL.Geometry, lh: seq<int>, tail: nat, current: seq<Block>, c0: seq<Block>)
    requires Copied(g, lh, tail, current) && tail < |lh| < g.size && RL.SameHome(g, current, c0) && g.start + g.size <= g.blocks
    requires forall x :: 0 <= x < |lh| ==> 0 <= lh[x] < g.blocks && !(g.start <= lh[x] < g.start + g.size)
    ensures var current' := current[g.start + 1 + tail := current[lh[tail]]];
            Copied(g, lh, tail + 1, current') && RL.SameHome(g, current', c0)
  {
  }

  /** One round of write_log with all that goes with it. */
  method CopyRound(cache: BCache, g: RL.Geometry, lh: seq<int>, tail: nat, pid: int,
                   ghost s0: RL.State, ghost steps0: seq<RL.Step>, ghost s1: RL.State)
    returns (panicked: bool, ghost s: RL.State, ghost steps: seq<RL.Step>)
    requires cache.Valid() && cache.unsaved == {} && Going(g, s0, steps0, s1, cache.disk, cache.current)
    requires tail < |lh| && s1.stage == RL.Copying(tail) && s1.lh == lh && Ready(g, lh, 0, cache.buf[..])
    requires tail == 0 || |lh| < NBUF
    modifies cache, cache.buf, cache.next, cache.prev
    ensures cache.Valid() && cache.unsaved == {}
    ensures panicked <==> !Spare(old(cache.buf[..]))
    ensures panicked ==> cache.disk == old(cache.disk) && cache.current == old(cache.current)
    ensures !panicked ==> |lh| < g.size && |lh| < NBUF && Going(g, s0, steps, s, cache.disk, cache.current)
    ensures !panicked ==> s == s1.(disk := s.disk, stage := RL.Copying(tail + 1))
    ensures !panicked ==> Ready(g, lh, 0, cache.buf[..]) && Spare(cache.buf[..])
    ensures !panicked ==>
              && g.start + 1 + tail < |old(cache.current)| && 0 <= lh[tail] < |old(cache.current)|
              && cache.current == old(cache.current)[g.start + 1 + tail := old(cache.current)[lh[tail]]]
  {
    hide Agrees, Ring, Ready, Spare, Cached, IdleAt, Unlocked, Enough, RL.Shape, RL.CanRun, RL.After, RL.Enabled, RL.Do, PinnedAt, Round;
    s, steps := s1, steps0;
    Apart(g, s);
    ghost var buf, disk, current := cache.buf[..], cache.disk, cache.current;
    CacheFacts(cache);
    ReadyAt(g, lh, 0, tail, g.start + 1 + tail, buf);
    PinnedEnough(buf, lh[tail]);
    SpareCount(g, lh, buf);
    ghost var l, h;
    panicked, l, h := CopyOne(cache, g.start + tail + 1, lh[tail], pid);
    if panicked { return; }
    RoundReady(g, lh, 0, tail, buf, cache.buf[..], g.start + tail + 1, l, h, false);
    s := CopyStep(g, s1, disk, current);
    GoOn(g, s0, steps0, s1, RL.CopyBlock, s, cache.disk, cache.current);
    steps := steps0 + [RL.CopyBlock];
  }

  /** write_log: copies every pinned buffer to the log; it wants for a buffer in the first round or never. */
  method WriteLog(cache: BCache, g: RL.Geometry, lh: seq<int>, pid: int,
                  ghost s0: RL.State, ghost steps0: seq<RL.Step>, ghost s1: RL.State)
    returns (panicked: bool, ghost s: RL.State, ghost steps: seq<RL.Step>)
    requires cache.Valid() && cache.unsaved == {} && Going(g, s0, steps0, s1, cache.disk, cache.current)
    requires s1.stage == RL.Copying(0) && s1.lh == lh != [] && Ready(g, lh, 0, cache.buf[..])
    modifies cache, cache.buf, cache.next, cache.prev
    ensures cache.Valid() && cache.unsaved == {}
    ensures panicked <==> !Spare(old(cache.buf[..]))
    ensures panicked ==> cache.disk == old(cache.disk) && cache.current == old(cache.current)
    ensures !panicked ==> |lh| < g.size && |lh| < NBUF && Going(g, s0, steps, s, cache.disk, cache.current)
    ensures !panicked ==> s == s1.(disk := s.disk, stage := RL.Copying(|lh|))
    ensures !panicked ==> Ready(g, lh, 0, cache.buf[..]) && Spare(cache.buf[..]) && Copied(g, lh, |lh|, cache.current)
    ensures !panicked ==> RL.SameHome(g, cache.current, old(cache.current))
  {
    hide Agrees, Ring, Ready, Spare, RL.Shape, RL.CanRun, RL.After, Copied, RL.SameHome;
    panicked, s, steps := false, s1, steps0;
    Apart(g, s);
    assert Copied(g, lh, 0, cache.current) && RL.SameHome(g, cache.current, cache.current) by {
      NoneCopied(g, lh, cache.current);
    }
    var tail := 0;
    while tail < |lh|
      invariant 0 <= tail <= |lh| && cache.Valid() && cache.unsaved == {}
      invariant Going(g, s0, steps, s, cache.disk, cache.current) && s == s1.(disk := s.disk, stage := RL.Copying(tail))
      invariant Ready(g, lh, 0, cache.buf[..]) && Copied(g, lh, tail, cache.current)
      invariant RL.SameHome(g, cache.current, old(cache.current))
      invariant if tail == 0
                then cache.buf[..] == old(cache.buf[..]) && cache.disk == old(cache.disk) && cache.current == old(cache.current)
                else Spare(old(cache.buf[..])) && Spare(cache.buf[..]) && |lh| < g.size && |lh| < NBUF
    {
      ghost var current := cache.current;
      panicked, s, steps := CopyRound(cache, g, lh, tail, pid, s0, steps, s);
      if panicked { return; }
      CopiedOne(g, lh, tail, current, old(cache.current));
      tail := tail + 1;
    }
  }

  /** One round of install_trans with all that goes with it. */
  method InstallRound(cache: BCache, g: RL.Geometry, lh: seq<int>, tail: nat, pid: int,
                      ghost s0: RL.State, ghost steps0: seq<RL.Step>, ghost s1: RL.State, ghost recovering: bool)
    returns (panicked: bool, ghost s: RL.State, ghost steps: seq<RL.Step>, ghost l: nat, ghost h: nat)
    requires cache.Valid() && cache.unsaved == {} && Going(g, s0, steps0, s1, cache.disk, cache.current)
    requires tail < |lh| < g.size && s1.stage == AtInstall(recovering, tail) && s1.lh == lh && 0 <= lh[tail]
    requires IdleAt(cache.buf[..], g.start + 1 + tail) && Unlocked(cache.buf[..], lh[tail])
    modifies cache, cache.buf, cache.next, cache.prev
    ensures cache.Valid() && cache.unsaved == {}
    ensures panicked <==> !Enough(old(cache.buf[..]), lh[tail])
    ensures !panicked ==> Going(g, s0, steps, s, cache.disk, cache.current)
    ensures !panicked ==> s == s1.(disk := s.disk, stage := AtInstall(recovering, tail + 1))
    ensures !panicked ==> Round(old(cache.buf[..]), cache.buf[..], g.start + 1 + tail, lh[tail], l, h, true)
    ensures !panicked ==>
              && g.start + 1 + tail < |old(cache.current)| && 0 <= lh[tail] < |old(cache.current)|
              && cache.current == old(cache.current)[lh[tail] := old(cache.current)[g.start + 1 + tail]]
  {
    hide Agrees, Ring, IdleAt, Unlocked, Enough, RL.Shape, RL.CanRun, RL.After, RL.Enabled, RL.Do, Round;
    s, steps := s1, steps0;
    Apart(g, s);
    CacheFacts(cache);
    ghost var disk, current := cache.disk, cache.current;
    panicked, l, h := InstallOne(cache, g.start + tail + 1, lh[tail], pid);
    if panicked { return; }
    s := InstallStep(g, s1, disk, current, recovering, tail);
    GoOn(g, s0, steps0, s1, RL.InstallBlock, s, cache.disk, cache.current);
    steps := steps0 + [RL.InstallBlock];
  }

  /** install_trans never wants for a buffer: after write_log one is to spare and the home blocks are pinned, and at boot
      all are free.  In commit the log blocks hold what the home blocks do, so only the disk and the pins change. */
  method InstallTrans(cache: BCache, g: RL.Geometry, lh: seq<int>, pid: int,
                      ghost s0: RL.State, ghost steps0: seq<RL.Step>, ghost s1: RL.State, ghost recovering: bool)
    returns (panicked: bool, ghost s: RL.State, ghost steps: seq<RL.Step>)
    requires cache.Valid() && cache.unsaved == {} && Going(g, s0, steps0, s1, cache.disk, cache.current)
    requires s1.stage == AtInstall(recovering, 0) && s1.lh == lh && |lh| < g.size
    requires if recovering then AllFree(cache.buf[..])
             else Ready(g, lh, 0, cache.buf[..]) && Spare(cache.buf[..]) && Copied(g, lh, |lh|, cache.current)
    modifies cache, cache.buf, cache.next, cache.prev
    ensures cache.Valid() && cache.unsaved == {} && !panicked
    ensures Going(g, s0, steps, s, cache.disk, cache.current)
    ensures s == s1.(disk := s.disk, stage := AtInstall(recovering, |lh|))
    ensures if recovering then AllFree(cache.buf[..])
            else Ready(g, lh, |lh|, cache.buf[..]) && Spare(cache.buf[..]) && cache.current == old(cache.current)
  {
    hide Agrees, Ring, Ready, Spare, Cached, IdleAt, Unlocked, Enough, RL.Shape, RL.CanRun, RL.After, PinnedAt, Round, AllFree;
    panicked, s, steps := false, s1, steps0;
    var tail := 0;
    while tail < |lh|
      invariant 0 <= tail <= |lh| && cache.Valid() && cache.unsaved == {} && !panicked
      invariant Going(g, s0, steps, s, cache.disk, cache.current)
      invariant s == s1.(disk := s.disk, stage := AtInstall(recovering, tail))
      invariant if recovering then AllFree(cache.buf[..])
                else Ready(g, lh, tail, cache.buf[..]) && Spare(cache.buf[..]) && cache.current == old(cache.current)
    {
      Apart(g, s);
      ghost var buf, current := cache.buf[..], cache.current;
      CacheFacts(cache);
      if recovering {
        FreeEnough(cache, g.start + 1 + tail, lh[tail]);
      } else {
        ReadyAt(g, lh, tail, tail, g.start + 1 + tail, buf);
        PinnedEnough(buf, lh[tail]);
      }
      ghost var l, h;
      panicked, s, steps, l, h := InstallRound(cache, g, lh, tail, pid, s0, steps, s, recovering);
      if recovering {
        RoundFree(buf, cache.buf[..], g.start + 1 + tail, lh[tail], l, h);
      } else {
        RoundReady(g, lh, tail, tail, buf, cache.buf[..], g.start + tail + 1, l, h, true);
        assert current[lh[tail] := current[g.start + 1 + tail]] == current;
      }
      tail := tail + 1;
    }
  }

  /** write_head within commit, for the commit point and to erase the transaction. */
  method Head(cache: BCache, g: RL.Geometry, lh: seq<int>, pid: int,
              ghost s0: RL.State, ghost steps0: seq<RL.Step>, ghost s1: RL.State, put: seq<int>)
    returns (ghost s: RL.State, ghost steps: seq<RL.Step>)
    requires cache.Valid() && cache.unsaved == {} && Going(g, s0, steps0, s1, cache.disk, cache.current) && s1.lh == lh != []
    requires |lh| < g.size && |lh| < NBUF
    requires (put == lh && s1.stage == RL.Copying(|lh|)) || (put == [] && s1.stage == RL.Installing(|lh|))
    requires Spare(cache.buf[..]) && Ready(g, lh, if put == lh then 0 else |lh|, cache.buf[..])
    modifies cache, cache.buf, cache.next, cache.prev
    ensures cache.Valid() && cache.unsaved == {} && Going(g, s0, steps, s, cache.disk, cache.current) && Spare(cache.buf[..])
    ensures Ready(g, put, 0, cache.buf[..])
    ensures put == lh ==> s == s1.(disk := s.disk, stage := RL.Installing(0), durable := |s1.hist|)
    ensures put == [] ==> s == s1.(disk := s.disk, lh := [], stage := RL.Committed)
    ensures RL.SameHome(g, cache.current, old(cache.current))
    ensures Copied(g, lh, |lh|, old(cache.current)) ==> Copied(g, lh, |lh|, cache.current)
  {
    hide Agrees, Ring, Ready, Spare, IdleAt, RL.Shape, RL.CanRun, RL.After, RL.Enabled, RL.Do, RL.PutHead;
    Apart(g, s1);
    CacheFacts(cache);
    ghost var buf, disk, current := cache.buf[..], cache.disk, cache.current;
    ReadyHead(g, lh, if put == lh then 0 else |lh|, buf);
    var panicked; ghost var l;
    panicked, l := WriteHead(cache, g.start, put, pid);
    assert !panicked;                       // the buffer write_log used is free
    HeadReady(g, lh, if put == lh then 0 else |lh|, buf, l, cache.buf[l]);
    if put == lh {
      s := HeadStep(g, s1, disk, current);
      GoOn(g, s0, steps0, s1, RL.WriteHeader, s, cache.disk, cache.current);
      steps := steps0 + [RL.WriteHeader];
    } else {
      ReadyEnd(g, lh, cache.buf[..]);
      s := ClearStep(g, s1, disk, current, false);
      GoOn(g, s0, steps0, s1, RL.ClearHeader, s, cache.disk, cache.current);
      steps := steps0 + [RL.ClearHeader];
    }
  }

  /** commit(): the disk takes exactly the steps of the protocol, every pinned buffer reaches its home block, and the
      contents of no home block change.  It panics ("bget: no buffers") exactly when the logged blocks and the clean
      buffers that others hold fill the cache, with nothing written; a log of LOGSIZE entries always does. */
  method Commit(cache: BCache, g: RL.Geometry, lh: seq<int>, pid: int, ghost s0: RL.State)
    returns (panicked: bool, ghost s: RL.State, ghost steps: seq<RL.Step>)
    requires cache.Valid() && cache.unsaved == {} && Linked(g, s0, cache.disk, cache.current) && s0.lh == lh
    requires s0.stage == (if lh == [] then RL.Committed else RL.Copying(0)) && Ready(g, lh, 0, cache.buf[..])
    modifies cache, cache.buf, cache.next, cache.prev
    ensures cache.Valid() && cache.unsaved == {}
    ensures panicked <==> lh != [] && |lh| + |Held(old(cache.buf[..]))| == NBUF
    ensures |lh| == LOGSIZE ==> panicked
    ensures panicked ==> cache.disk == old(cache.disk) && cache.current == old(cache.current)
    ensures !panicked ==> RL.CanRun(g, s0, steps) && s == RL.After(g, s0, steps) && s.stage.Committed? && s.lh == []
    ensures !panicked ==> cache.disk == s.disk == cache.current && forall j :: 0 <= j < NBUF ==> !cache.buf[j].dirty
    ensures !panicked ==> RL.SameHome(g, cache.current, old(cache.current))
  {
    hide Agrees, Ring, Ready, Spare, RL.Shape, RL.CanRun, RL.After;
    panicked, s, steps := false, s0, [];
    assert Going(g, s0, [], s0, cache.disk, cache.current) by { NotYet(g, s0, cache.disk, cache.current); }
    Apart(g, s0);
    CacheFacts(cache);
    SpareCount(g, lh, cache.buf[..]);
    if |lh| > 0 {
      panicked, s, steps := WriteLog(cache, g, lh, pid, s0, [], s0);
      if panicked { return; }
      s, steps := Head(cache, g, lh, pid, s0, steps, s, lh);
      panicked, s, steps := InstallTrans(cache, g, lh, pid, s0, steps, s, false);
      s, steps := Head(cache, g, lh, pid, s0, steps, s, []);
    }
    ReadyClean(g, cache.buf[..]);
    AllSaved(cache);
  }

  // ---- recover_from_log() ----

  /** read_head. */
  method ReadHead(cache: BCache, start: nat, pid: int) returns (panicked: bool, lh: seq<int>)
    requires cache.Valid() && cache.unsaved == {} && start < |cache.disk| && AllFree(cache.buf[..])
    requires |cache.current| == |cache.disk| && |cache.current[start]| == RL.WORDS && 0 <= cache.current[start][0] <= LOGSIZE
    modifies cache, cache.buf, cache.next, cache.prev
    ensures cache.disk == old(cache.disk) && cache.current == old(cache.current) && AllFree(cache.buf[..])
    ensures cache.Valid() && cache.unsaved == {} && !panicked && lh == RL.Head(cache.current[start])
  {
    hide Agrees, Ring;
    CacheFacts(cache);
    ghost var buf := cache.buf[..];
    assert forall j :: 0 <= j < NBUF ==> Recyclable(buf[j]);
    assert Recyclable(cache.buf[0]);
    var b;
    panicked, b := cache.Bread(start, pid);
    assert !panicked;
    lh := RL.Head(cache.buf[b].data);
    Release(cache, b);
  }

  lemma FreeSpare(buf: seq<Buf>)
    requires AllFree(buf) && |buf| == NBUF
    ensures Spare(buf)
  {
    assert Recyclable(buf[0]);
  }

  lemma StillFree(buf: seq<Buf>, l: nat, b: Buf)
    requires AllFree(buf) && l < |buf| && Recyclable(b)
    ensures AllFree(buf[l := b])
  {
  }

  lemma FreeClean(buf: seq<Buf>)
    requires AllFree(buf)
    ensures forall j :: 0 <= j < |buf| ==> !buf[j].dirty
  {
    assert forall j :: 0 <= j < |buf| ==> Recyclable(buf[j]);
  }

  /** recover_from_log() on the cache as binit leaves it: it never wants for a buffer, the disk takes exactly the steps of
      the protocol, and cache and disk agree at the end. */
  method RecoverFromLog(cache: BCache, g: RL.Geometry, pid: int, ghost s0: RL.State)
    returns (panicked: bool, ghost s: RL.State, ghost steps: seq<RL.Step>)
    requires cache.Valid() && cache.unsaved == {} && AllFree(cache.buf[..]) && Linked(g, s0, cache.disk, cache.current)
    requires s0.stage == RL.Recovering(0) && s0.lh == RL.Head(s0.disk[g.start]) && |s0.lh| < g.size
    modifies cache, cache.buf, cache.next, cache.prev
    ensures cache.Valid() && cache.unsaved == {} && !panicked && AllFree(cache.buf[..])
    ensures RL.CanRun(g, s0, steps) && s == RL.After(g, s0, steps) && s.stage.Idle? && s.lh == []
    ensures cache.disk == s.disk == cache.current
  {
    hide Agrees, Ring, AllFree, RL.CanRun, RL.After, IdleAt, Unlocked, Enough, Spare;
    s, steps := s0, [];
    assert Going(g, s0, [], s0, cache.disk, cache.current) by { NotYet(g, s0, cache.disk, cache.current); }
    Apart(g, s0);
    CacheFacts(cache);
    var lh;
    panicked, lh := ReadHead(cache, g.start, pid);
    panicked, s, steps := InstallTrans(cache, g, lh, pid, s0, steps, s, true);
    Apart(g, s);
    CacheFacts(cache);
    ghost var disk, current, s1, buf := cache.disk, cache.current, s, cache.buf[..];
    FreeEnough(cache, g.start, 0);
    ghost var l;
    panicked, l := WriteHead(cache, g.start, [], pid);
    assert Spare(buf) by { FreeSpare(buf); }
    s := ClearStep(g, s1, disk, current, true);
    GoOn(g, s0, steps, s1, RL.ClearHeader, s, cache.disk, cache.current);
    steps := steps + [RL.ClearHeader];
    StillFree(buf, l, cache.buf[l]);
    FreeClean(cache.buf[..]);
    AllSaved(cache);
  }

  // ---- A cache in which commit finds no buffer ----

  function Marks(g: RL.Geometry, n: nat): (r: seq<int>)
    ensures |r| == n && forall i :: 0 <= i < n ==> r[i] == RL.Mark(g, i)
  {
    seq(n, i requires 0 <= i < n => RL.Mark(g, i))
  }

  /** The blocks in the cache are among those numbered lo up to hi. */
  ghost predicate Range(buf: seq<Buf>, lo: nat, hi: nat) {
    forall j :: 0 <= j < |buf| && buf[j].dev == DISK ==> lo <= buf[j].blockno < hi
  }

  /** What an operation does with a block: bread, new contents, log_write's mark, brelse. */
  method LogBlock(cache: BCache, b: nat, data: Block, pid: int) returns (panicked: bool, ghost l: nat)
    requires cache.Valid() && cache.unsaved == {} && b < |cache.disk| && IdleAt(cache.buf[..], b)
    modifies cache, cache.buf, cache.next, cache.prev
    ensures cache.Valid() && cache.unsaved == {} && cache.disk == old(cache.disk) && |old(cache.current)| == |cache.disk|
    ensures panicked <==> !Spare(old(cache.buf[..]))
    ensures !panicked ==>
              && cache.current == old(cache.current)[b := data]
              && l < NBUF && Recyclable(old(cache.buf[l]))
              && cache.buf[..] == old(cache.buf[..])[l := Buf(DISK, b, 0, true, true, false, 0, data)]
  {
    hide Agrees, Ring, Spare, IdleAt;
    CacheFacts(cache);
    var bp;
    panicked, bp := BreadIdle(cache, b, pid);
    l := bp;
    if panicked { return; }
    cache.Modify(bp, data);
    cache.MarkDirty(bp);
    Release(cache, bp);
  }

  lemma MarkedOne(g: RL.Geometry, i: nat, buf: seq<Buf>, l: nat, b: Buf)
    requires Ready(g, Marks(g, i), 0, buf) && Range(buf, RL.Mark(g, 0), RL.Mark(g, i)) && l < |buf| && Recyclable(buf[l])
    requires b.dev == DISK && b.blockno == RL.Mark(g, i) && b.dirty && !b.locked && b.refcnt == 0
    ensures Ready(g, Marks(g, i + 1), 0, buf[l := b]) && Range(buf[l := b], RL.Mark(g, 0), RL.Mark(g, i + 1))
    ensures Held(buf[l := b]) == Held(buf)
  {
    var buf', lh, lh' := buf[l := b], Marks(g, i), Marks(g, i + 1);
    forall x | 0 <= x < i + 1
      ensures Cached(buf', lh'[x])
    {
      if x == i {
        assert PinnedAt(buf', lh'[x], l);
      } else {
        assert Cached(buf, lh[x]);
        var j :| PinnedAt(buf, lh[x], j);
        assert PinnedAt(buf', lh'[x], j);
      }
    }
    forall j | 0 <= j < |buf'| && buf'[j].dirty
      ensures exists x :: 0 <= x < |lh'| && PinnedAt(buf', lh'[x], j)
    {
      if j == l {
        assert PinnedAt(buf', lh'[i], j);
      } else {
        var x :| 0 <= x < |lh| && PinnedAt(buf, lh[x], j);
        assert PinnedAt(buf', lh'[x], j);
      }
    }
  }

  lemma HeldOne(g: RL.Geometry, n: nat, i: nat, buf: seq<Buf>, l: nat, b: Buf)
    requires Ready(g, Marks(g, n), 0, buf) && Range(buf, RL.Mark(g, 0), RL.Mark(g, i)) && l < |buf| && Recyclable(buf[l])
    requires b.dev == DISK && b.blockno == RL.Mark(g, i) && !b.dirty && b.refcnt > 0
    ensures Ready(g, Marks(g, n), 0, buf[l := b]) && Range(buf[l := b], RL.Mark(g, 0), RL.Mark(g, i + 1))
    ensures |Held(buf[l := b])| == |Held(buf)| + 1
  {
    var buf', lh := buf[l := b], Marks(g, n);
    forall x | 0 <= x < n
      ensures Cached(buf', lh[x])
    {
      assert Cached(buf, lh[x]);
      var j :| PinnedAt(buf, lh[x], j);
      assert PinnedAt(buf', lh[x], j);
    }
    forall j | 0 <= j < |buf'| && buf'[j].dirty
      ensures exists x :: 0 <= x < |lh| && PinnedAt(buf', lh[x], j)
    {
      var x :| 0 <= x < |lh| && PinnedAt(buf, lh[x], j);
      assert PinnedAt(buf', lh[x], j);
    }
    assert Held(buf') == Held(buf) + {l};
  }

  lemma SpareLeft(cache: BCache, g: RL.Geometry, n: nat, i: nat)
    requires cache.Valid() && Ready(g, Marks(g, n), 0, cache.buf[..]) && Range(cache.buf[..], RL.Mark(g, 0), RL.Mark(g, i))
    requires n + |Held(cache.buf[..])| < NBUF
    ensures Spare(cache.buf[..]) && IdleAt(cache.buf[..], RL.Mark(g, i))
  {
    hide Agrees, Ring, Spare, Held, Ready;
    CacheFacts(cache);
    SpareCount(g, Marks(g, n), cache.buf[..]);
  }

  lemma AtBinit(g: RL.Geometry, buf: seq<Buf>)
    requires forall j :: 0 <= j < |buf| ==> buf[j] == Buf(0, 0, 0, false, false, false, 0, [])
    ensures Ready(g, Marks(g, 0), 0, buf) && Range(buf, RL.Mark(g, 0), RL.Mark(g, 0)) && Held(buf) == {}
  {
  }

  /** From binit: blocks Mark(0) up to Mark(n) are written and logged, and as many others read and held as there are
      buffers left. */
  method FillCache(g: RL.Geometry, n: nat, pid: int) returns (cache: BCache)
    requires RL.Ample(g) && n <= NBUF
    ensures fresh(cache) && fresh(cache.buf) && fresh(cache.next) && fresh(cache.prev)
    ensures cache.Valid() && cache.unsaved == {} && Ready(g, Marks(g, n), 0, cache.buf[..])
    ensures |Held(cache.buf[..])| == NBUF - n
    ensures cache.disk == RL.FreshBoot(g).disk && |cache.current| == g.blocks
    ensures forall b :: 0 <= b < g.blocks ==>
              cache.current[b] == if RL.Mark(g, 0) <= b < RL.Mark(g, n) then RL.Ones() else RL.Zeroes()
  {
    hide Agrees, Ring, Spare, IdleAt, Ready, Range, Held, RL.Ones, RL.Zeroes;
    cache := new BCache(seq(g.blocks, i => RL.Zeroes()));
    assert cache.disk == RL.FreshBoot(g).disk;
    AtBinit(g, cache.buf[..]);
    var i := 0;
    while i < n
      invariant 0 <= i <= n && cache.Valid() && cache.unsaved == {} && cache.disk == RL.FreshBoot(g).disk
      invariant fresh(cache) && fresh(cache.buf) && fresh(cache.next) && fresh(cache.prev)
      invariant Ready(g, Marks(g, i), 0, cache.buf[..]) && Range(cache.buf[..], RL.Mark(g, 0), RL.Mark(g, i))
      invariant Held(cache.buf[..]) == {} && |cache.current| == g.blocks
      invariant forall b :: 0 <= b < g.blocks ==>
                  cache.current[b] == if RL.Mark(g, 0) <= b < RL.Mark(g, i) then RL.Ones() else RL.Zeroes()
    {
      ghost var buf := cache.buf[..];
      SpareLeft(cache, g, i, i);
      var panicked; ghost var l;
      panicked, l := LogBlock(cache, RL.Mark(g, i), RL.Ones(), pid);
      MarkedOne(g, i, buf, l, cache.buf[l]);
      i := i + 1;
    }
    while i < NBUF
      invariant n <= i <= NBUF && cache.Valid() && cache.unsaved == {} && cache.disk == RL.FreshBoot(g).disk
      invariant fresh(cache) && fresh(cache.buf) && fresh(cache.next) && fresh(cache.prev)
      invariant Ready(g, Marks(g, n), 0, cache.buf[..]) && Range(cache.buf[..], RL.Mark(g, 0), RL.Mark(g, i))
      invariant |Held(cache.buf[..])| == i - n && |cache.current| == g.blocks
      invariant forall b :: 0 <= b < g.blocks ==>
                  cache.current[b] == if RL.Mark(g, 0) <= b < RL.Mark(g, n) then RL.Ones() else RL.Zeroes()
    {
      ghost var buf := cache.buf[..];
      SpareLeft(cache, g, n, i);
      var panicked, b := BreadIdle(cache, RL.Mark(g, i), pid);
      HeldOne(g, n, i, buf, b, cache.buf[b]);
      i := i + 1;
    }
  }

  /** For every number of logged blocks from 1 to LOGSIZE there is a reachable group commit, and a cache filled by bread,
      log_write and brelse, in which commit() finds no buffer: the other buffers are held by readers. */
  method CommitStops(g: RL.Geometry, n: nat, pid: int) returns (panicked: bool, ghost s: RL.State)
    requires RL.Ample(g) && 1 <= n <= LOGSIZE && 2 <= g.size && (n < g.size || n == LOGSIZE == g.size)
    ensures panicked && RL.Reachable(g, RL.FreshBoot(g).disk, s) && s.stage == RL.Copying(0) && |s.lh| == n
  {
    hide Agrees, Ring, Spare, IdleAt, Ready, Range, Held, RL.CanRun, RL.After, RL.Reachable, RL.Ones, RL.Zeroes;
    ghost var run := RL.GroupReady(g, n);
    s := RL.After(g, RL.FreshBoot(g), run);
    RL.ReachedBy(g, run);
    var cache := FillCache(g, n, pid);
    assert s.lh == Marks(g, n);
    assert cache.disk == s.disk;
    assert Linked(g, s, cache.disk, cache.current);
    ghost var s', steps;
    panicked, s', steps := Commit(cache, g, Marks(g, n), pid, s);
  }
}
