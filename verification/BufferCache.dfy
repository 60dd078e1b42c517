/** The buffer cache of bio.c over the memory disk of memide.c.
    Buffers are numbered 0..NBUF-1; the links prev/next run through them and through NBUF, the list head.
    Three abstractions are kept beside the code: `order`, the buffers from most to least recently used;
    `current`, the plain block map the cache stands for; and `unsaved`, the buffers a caller has changed
    and not yet handed to log_write or bwrite. */
module BufferCache {
  import opened Common

  const DISK: nat := 1                // the only device iderw serves

  type Block = seq<int>

  datatype Buf = Buf(dev: nat, blockno: nat, refcnt: nat, valid: bool, dirty: bool,
                     locked: bool, pid: int, data: Block)

  // ---- The list ----

  /** The i-th node of the circle; the head comes before the first buffer and after the last. */
  ghost function Node(order: seq<nat>, i: int): nat {
    if 0 <= i < |order| then order[i] else NBUF
  }

  /** next and prev form one circle through the head and exactly the buffers of `order`. */
  ghost predicate Ring(next: seq<nat>, prev: seq<nat>, order: seq<nat>) {
    && |next| == NBUF + 1 && |prev| == NBUF + 1
    && (forall b :: 0 <= b <= NBUF ==> next[b] <= NBUF && prev[b] <= NBUF)
    && (forall i :: 0 <= i < |order| ==> order[i] < NBUF)
    && Distinct(order)
    && (forall i :: -1 <= i < |order| ==> next[Node(order, i)] == Node(order, i + 1))
    && (forall i :: 0 <= i <= |order| ==> prev[Node(order, i)] == Node(order, i - 1))
  }

  ghost predicate AllIn(order: seq<nat>) {
    forall b :: 0 <= b < NBUF ==> b in order
  }

  ghost function Without(order: seq<nat>, k: nat): seq<nat>
    requires k < |order|
  {
    order[..k] + order[k + 1..]
  }

  /** Releasing the k-th buffer makes it the most recently used; the others keep their order. */
  ghost function MoveToFront(order: seq<nat>, k: nat): (r: seq<nat>)
    requires k < |order|
    ensures |r| == |order|
  {
    [order[k]] + Without(order, k)
  }

  lemma MoveToFrontPermutes(order: seq<nat>, k: nat)
    requires k < |order|
    ensures multiset(MoveToFront(order, k)) == multiset(order)
  {
    assert order == order[..k] + ([order[k]] + order[k + 1..]);
  }

  lemma MoveToFrontKeeps(order: seq<nat>, k: nat)
    requires k < |order| && AllIn(order)
    ensures AllIn(MoveToFront(order, k))
  {
    var r := MoveToFront(order, k);
    forall b | 0 <= b < NBUF
      ensures b in r
    {
      assert b in order;
      var i :| 0 <= i < |order| && order[i] == b;
      assert r[if i < k then i + 1 else if i == k then 0 else i] == b;
    }
  }

  lemma Unlinked(next: seq<nat>, prev: seq<nat>, order: seq<nat>, k: nat, next': seq<nat>, prev': seq<nat>)
    requires Ring(next, prev, order) && k < |order|
    requires next' == next[prev[order[k]] := next[order[k]]]
    requires prev' == prev[next[order[k]] := prev[order[k]]]
    ensures Ring(next', prev', Without(order, k))
  {
    var r := Without(order, k);
    var b := order[k];
    assert next[Node(order, k)] == Node(order, k + 1) && prev[Node(order, k)] == Node(order, k - 1);
    forall i | -1 <= i < |r|
      ensures next'[Node(r, i)] == Node(r, i + 1)
    {
      var j := if i < k then i else i + 1;
      assert Node(r, i) == Node(order, j) && next[Node(order, j)] == Node(order, j + 1);
    }
    forall i | 0 <= i <= |r|
      ensures prev'[Node(r, i)] == Node(r, i - 1)
    {
      var j := if i < k then i else i + 1;
      assert Node(r, i) == Node(order, j) && prev[Node(order, j)] == Node(order, j - 1);
    }
  }

  lemma Pushed(next: seq<nat>, prev: seq<nat>, order: seq<nat>, b: nat, next': seq<nat>, prev': seq<nat>)
    requires Ring(next, prev, order) && b < NBUF && b !in order
    requires next' == next[b := next[NBUF]][NBUF := b]
    requires prev' == prev[b := NBUF][next[NBUF] := b]
    ensures Ring(next', prev', [b] + order)
  {
    var r := [b] + order;
    assert next[Node(order, -1)] == Node(order, 0);
    forall i | -1 <= i < |r|
      ensures next'[Node(r, i)] == Node(r, i + 1)
    {
      if i > 0 { assert Node(r, i) == Node(order, i - 1) && next[Node(order, i - 1)] == Node(order, i); }
    }
    forall i | 0 <= i <= |r|
      ensures prev'[Node(r, i)] == Node(r, i - 1)
    {
      if i > 1 { assert Node(r, i) == Node(order, i - 1) && prev[Node(order, i - 1)] == Node(order, i - 2); }
    }
  }

  // ---- The contents ----

  predicate Keyed(b: Buf, dev: nat, blockno: nat) {
    b.dev == dev && b.blockno == blockno
  }

  /** bget may reuse a buffer only if nobody refers to it and log.c has not pinned it. */
  predicate Recyclable(b: Buf) {
    b.refcnt == 0 && !b.dirty
  }

  /** A buffer whose contents the disk need not have. */
  ghost predicate Pinned(buf: seq<Buf>, unsaved: set<int>, i: int) {
    0 <= i < |buf| && buf[i].valid && (buf[i].dirty || i in unsaved)
  }

  ghost predicate Agrees(buf: seq<Buf>, disk: seq<Block>, current: seq<Block>, unsaved: set<int>) {
    && |buf| == NBUF && |disk| == |current|
    && (forall i, j :: 0 <= i < j < NBUF && Keyed(buf[i], buf[j].dev, buf[j].blockno) ==> buf[i].dev != DISK)
    && (forall i :: 0 <= i < NBUF && buf[i].locked ==> buf[i].refcnt > 0)
    && (forall i :: 0 <= i < NBUF && buf[i].dirty ==> buf[i].valid)
    && (forall i :: i in unsaved ==> 0 <= i < NBUF && buf[i].locked && buf[i].valid)
    && (forall i :: 0 <= i < NBUF && buf[i].valid ==>
          buf[i].dev == DISK && buf[i].blockno < |disk| && buf[i].data == current[buf[i].blockno])
    && (forall i :: 0 <= i < NBUF && buf[i].valid && !Pinned(buf, unsaved, i) ==>
          buf[i].data == disk[buf[i].blockno])
    && (forall b :: 0 <= b < |disk| && disk[b] != current[b] ==>
          exists i :: Pinned(buf, unsaved, i) && buf[i].blockno == b)
  }

  /** Reusing a buffer that nobody refers to and that is not pinned loses nothing: the cache still stands for
      the same block map. */
  lemma RecycleKeeps(buf: seq<Buf>, disk: seq<Block>, current: seq<Block>, unsaved: set<int>, k: nat, b: Buf)
    requires Agrees(buf, disk, current, unsaved) && k < NBUF && Recyclable(buf[k])
    requires !b.valid && !b.dirty && !b.locked
    requires forall i :: 0 <= i < NBUF ==> !Keyed(buf[i], b.dev, b.blockno)
    ensures Agrees(buf[k := b], disk, current, unsaved)
  {
    var buf' := buf[k := b];
    forall n | 0 <= n < |disk| && disk[n] != current[n]
      ensures exists i :: Pinned(buf', unsaved, i) && buf'[i].blockno == n
    {
      var i :| Pinned(buf, unsaved, i) && buf[i].blockno == n;
      assert Pinned(buf', unsaved, i);
    }
  }

  /** Changing only reference count, lock and pid of an unsaved-free buffer keeps the agreement. */
  lemma CountKeeps(buf: seq<Buf>, disk: seq<Block>, current: seq<Block>, unsaved: set<int>, k: nat, b: Buf)
    requires Agrees(buf, disk, current, unsaved) && k < NBUF
    requires b == buf[k].(refcnt := b.refcnt, locked := b.locked, pid := b.pid)
    requires (b.locked ==> b.refcnt > 0) && (k in unsaved ==> b.locked)
    ensures Agrees(buf[k := b], disk, current, unsaved)
  {
    var buf' := buf[k := b];
    forall n | 0 <= n < |disk| && disk[n] != current[n]
      ensures exists i :: Pinned(buf', unsaved, i) && buf'[i].blockno == n
    {
      var i :| Pinned(buf, unsaved, i) && buf[i].blockno == n;
      assert Pinned(buf', unsaved, i);
    }
  }

  /** The holder changes the data of its valid buffer. */
  lemma ModifyKeeps(buf: seq<Buf>, disk: seq<Block>, current: seq<Block>, unsaved: set<int>, k: nat, data: Block)
    requires Agrees(buf, disk, current, unsaved) && k < NBUF && buf[k].valid && buf[k].locked
    ensures Agrees(buf[k := buf[k].(data := data)], disk, current[buf[k].blockno := data], unsaved + {k})
  {
    var buf', current' := buf[k := buf[k].(data := data)], current[buf[k].blockno := data];
    forall n | 0 <= n < |disk| && disk[n] != current'[n]
      ensures exists i :: Pinned(buf', unsaved + {k}, i) && buf'[i].blockno == n
    {
      if n == buf[k].blockno {
        assert Pinned(buf', unsaved + {k}, k);
      } else {
        var i :| Pinned(buf, unsaved, i) && buf[i].blockno == n;
        assert Pinned(buf', unsaved + {k}, i);
      }
    }
    forall i | 0 <= i < NBUF && i != k && buf'[i].valid
      ensures buf'[i].blockno != buf[k].blockno
    {
      assert Keyed(buf[i], buf[k].dev, buf[k].blockno) <==> Keyed(buf[k], buf[i].dev, buf[i].blockno);
    }
  }

  /** log_write pins the buffer: its contents may stay ahead of the disk after the release. */
  lemma PinKeeps(buf: seq<Buf>, disk: seq<Block>, current: seq<Block>, unsaved: set<int>, k: nat)
    requires Agrees(buf, disk, current, unsaved) && k < NBUF && buf[k].valid
    ensures Agrees(buf[k := buf[k].(dirty := true)], disk, current, unsaved - {k})
  {
    var buf' := buf[k := buf[k].(dirty := true)];
    forall n | 0 <= n < |disk| && disk[n] != current[n]
      ensures exists i :: Pinned(buf', unsaved - {k}, i) && buf'[i].blockno == n
    {
      var i :| Pinned(buf, unsaved, i) && buf[i].blockno == n;
      assert Pinned(buf', unsaved - {k}, i);
    }
    forall i | 0 <= i < NBUF && buf'[i].valid && !Pinned(buf', unsaved - {k}, i)
      ensures buf'[i].data == disk[buf'[i].blockno]
    {
      assert !Pinned(buf, unsaved, i);
    }
  }

  /** Writing a valid buffer to its block unpins it. */
  lemma WriteKeeps(buf: seq<Buf>, disk: seq<Block>, current: seq<Block>, unsaved: set<int>, k: nat)
    requires Agrees(buf, disk, current, unsaved) && k < NBUF && buf[k].valid
    ensures Agrees(buf[k := buf[k].(dirty := false)], disk[buf[k].blockno := buf[k].data], current, unsaved - {k})
  {
    var buf', disk' := buf[k := buf[k].(dirty := false)], disk[buf[k].blockno := buf[k].data];
    forall n | 0 <= n < |disk'| && disk'[n] != current[n]
      ensures exists i :: Pinned(buf', unsaved - {k}, i) && buf'[i].blockno == n
    {
      var i :| Pinned(buf, unsaved, i) && buf[i].blockno == n;
      assert Pinned(buf', unsaved - {k}, i);
    }
    forall i | 0 <= i < NBUF && buf'[i].valid && !Pinned(buf', unsaved - {k}, i)
      ensures buf'[i].data == disk'[buf'[i].blockno]
    {
      if i != k {
        assert !Pinned(buf, unsaved, i);
        assert Keyed(buf[i], buf[k].dev, buf[k].blockno) <==> Keyed(buf[k], buf[i].dev, buf[i].blockno);
      }
    }
  }

  /** Reading the block into an invalid buffer of the disk gives its current contents, since no other
      buffer can be ahead of the disk for that block. */
  lemma ReadKeeps(buf: seq<Buf>, disk: seq<Block>, current: seq<Block>, unsaved: set<int>, k: nat)
    requires Agrees(buf, disk, current, unsaved) && k < NBUF && !buf[k].valid
    requires buf[k].dev == DISK && buf[k].blockno < |disk|
    ensures disk[buf[k].blockno] == current[buf[k].blockno]
    ensures Agrees(buf[k := buf[k].(valid := true, data := disk[buf[k].blockno])], disk, current, unsaved)
  {
    var n := buf[k].blockno;
    if disk[n] != current[n] {
      var i :| Pinned(buf, unsaved, i) && buf[i].blockno == n;
      assert Keyed(buf[i], buf[k].dev, buf[k].blockno) && Keyed(buf[k], buf[i].dev, buf[i].blockno);
      assert false;
    }
    var buf' := buf[k := buf[k].(valid := true, data := disk[n])];
    forall m | 0 <= m < |disk| && disk[m] != current[m]
      ensures exists i :: Pinned(buf', unsaved, i) && buf'[i].blockno == m
    {
      var i :| Pinned(buf, unsaved, i) && buf[i].blockno == m;
      assert Pinned(buf', unsaved, i);
    }
    forall i | 0 <= i < NBUF && buf'[i].valid && !Pinned(buf', unsaved, i)
      ensures buf'[i].data == disk[buf'[i].blockno]
    {
      if i != k { assert !Pinned(buf, unsaved, i); }
    }
  }

  // ---- The code ----

  class BCache {
    const buf: array<Buf>
    const next: array<nat>
    const prev: array<nat>
    var disk: seq<Block>

    ghost var order: seq<nat>
    ghost var current: seq<Block>
    ghost var unsaved: set<int>

    ghost predicate Sized()
      reads this
    {
      buf.Length == NBUF && next.Length == NBUF + 1 && prev.Length == NBUF + 1 && next != prev
    }

    ghost predicate Valid()
      reads this, buf, next, prev
    {
      && Sized()
      && Ring(next[..], prev[..], order) && |order| == NBUF && AllIn(order)
      && Agrees(buf[..], disk, current, unsaved)
    }

    /** binit: the list is built by pushing the buffers one by one. */
    constructor (image: seq<Block>)
      ensures Valid() && fresh(buf) && fresh(next) && fresh(prev)
      ensures disk == image && current == image && unsaved == {}
      ensures forall i :: 0 <= i < NBUF ==> buf[i] == Buf(0, 0, 0, false, false, false, 0, [])
    {
      buf := new Buf[NBUF](i => Buf(0, 0, 0, false, false, false, 0, []));
      next := new nat[NBUF + 1](i => NBUF);
      prev := new nat[NBUF + 1](i => NBUF);
      disk, order, current, unsaved := image, [], image, {};
      new;
      var b := 0;
      while b < NBUF
        invariant 0 <= b <= NBUF && Sized() && Ring(next[..], prev[..], order) && |order| == b
        invariant forall i :: 0 <= i < b ==> i in order
        invariant forall i :: 0 <= i < |order| ==> order[i] < b
        invariant forall i :: 0 <= i < NBUF ==> buf[i] == Buf(0, 0, 0, false, false, false, 0, [])
        invariant disk == image && current == image && unsaved == {}
      {
        ghost var was := order;
        PushFront(b);
        assert forall i :: 0 <= i < b ==> i in was;
        b := b + 1;
      }
    }

    /** Link b in after the head. */
    method PushFront(b: nat)
      requires Sized() && Ring(next[..], prev[..], order) && b < NBUF && b !in order
      modifies next, prev, this`order
      ensures Ring(next[..], prev[..], order) && order == [b] + old(order)
    {
      ghost var n, p := next[..], prev[..];
      next[b] := next[NBUF];
      prev[b] := NBUF;
      prev[next[NBUF]] := b;
      next[NBUF] := b;
      Pushed(n, p, order, b, next[..], prev[..]);
      order := [b] + order;
    }

    /** Take b out of the circle. */
    method Unlink(b: nat, ghost k: nat)
      requires Sized() && Ring(next[..], prev[..], order) && k < |order| && order[k] == b
      modifies next, prev, this`order
      ensures Ring(next[..], prev[..], order) && order == Without(old(order), k)
    {
      ghost var n, p := next[..], prev[..];
      prev[next[b]] := prev[b];
      next[prev[b]] := next[b];
      assert n[Node(order, k)] == Node(order, k + 1) && p[Node(order, k)] == Node(order, k - 1);
      Unlinked(n, p, order, k, next[..], prev[..]);
      order := Without(order, k);
    }

    /** bget's first scan: from the most recently used buffer on. */
    method FindCached(dev: nat, blockno: nat) returns (b: nat)
      requires Valid()
      ensures b <= NBUF
      ensures b < NBUF ==> Keyed(buf[b], dev, blockno)
      ensures b == NBUF ==> forall i :: 0 <= i < NBUF ==> !Keyed(buf[i], dev, blockno)
    {
      hide Agrees;
      b := next[NBUF];
      ghost var k := 0;
      assert next[..][Node(order, -1)] == Node(order, 0);
      while b != NBUF
        invariant 0 <= k <= NBUF && b == Node(order, k)
        invariant forall i :: 0 <= i < k ==> !Keyed(buf[order[i]], dev, blockno)
        decreases NBUF - k
      {
        if buf[b].dev == dev && buf[b].blockno == blockno { return; }
        assert next[..][Node(order, k)] == Node(order, k + 1);
        b := next[b];
        k := k + 1;
      }
      forall i | 0 <= i < NBUF ensures !Keyed(buf[i], dev, blockno) {
        assert i in order;
      }
    }

    /** bget's second scan: from the least recently used buffer on. */
    method FindVictim() returns (b: nat)
      requires Valid()
      ensures b <= NBUF
      ensures b < NBUF ==> Recyclable(buf[b])
      ensures b < NBUF ==> forall i, j :: 0 <= i < j < NBUF && order[i] == b ==> !Recyclable(buf[order[j]])
      ensures b == NBUF ==> forall i :: 0 <= i < NBUF ==> !Recyclable(buf[i])
    {
      hide Agrees;
      b := prev[NBUF];
      ghost var k := NBUF;
      assert prev[..][Node(order, NBUF)] == Node(order, NBUF - 1);
      while b != NBUF
        invariant 0 <= k <= NBUF && b == Node(order, k - 1)
        invariant forall i :: k <= i < NBUF ==> !Recyclable(buf[order[i]])
        decreases k
      {
        if buf[b].refcnt == 0 && !buf[b].dirty { return; }
        assert prev[..][Node(order, k - 1)] == Node(order, k - 2);
        b := prev[b];
        k := k - 1;
      }
      forall i | 0 <= i < NBUF ensures !Recyclable(buf[i]) {
        assert i in order;
      }
    }

    /** bget up to the release of bcache.lock: the buffer that holds the block, or else the least recently
        used buffer that may be reused; panic exactly when there is neither. */
    method Bget(dev: nat, blockno: nat) returns (panicked: bool, b: nat)
      requires Valid()
      modifies buf
      ensures Valid()
      ensures panicked <==>
                forall i :: 0 <= i < NBUF ==> !Keyed(old(buf[i]), dev, blockno) && !Recyclable(old(buf[i]))
      ensures panicked ==> buf[..] == old(buf[..])
      ensures !panicked ==> b < NBUF && Keyed(buf[b], dev, blockno)
      ensures !panicked ==> forall i :: 0 <= i < NBUF && i != b ==> buf[i] == old(buf[i])
      ensures !panicked && Keyed(old(buf[b]), dev, blockno) ==>
                buf[b] == old(buf[b]).(refcnt := old(buf[b]).refcnt + 1)
      ensures !panicked && !Keyed(old(buf[b]), dev, blockno) ==>
                && Recyclable(old(buf[b])) && buf[b].refcnt == 1 && !buf[b].valid && !buf[b].dirty && !buf[b].locked
                && (forall i :: 0 <= i < NBUF ==> !Keyed(old(buf[i]), dev, blockno))
                && forall i, j :: 0 <= i < j < NBUF && order[i] == b ==> !Recyclable(old(buf[order[j]]))
    {
      panicked := false;
      ghost var was := buf[..];
      b := FindCached(dev, blockno);
      if b < NBUF {
        buf[b] := buf[b].(refcnt := buf[b].refcnt + 1);
        CountKeeps(was, disk, current, unsaved, b, buf[b]);
        assert buf[..] == was[b := buf[b]];
        return;
      }
      b := FindVictim();
      if b < NBUF {
        assert !buf[b].locked;
        buf[b] := buf[b].(dev := dev, blockno := blockno, valid := false, dirty := false, refcnt := 1);
        RecycleKeeps(was, disk, current, unsaved, b, buf[b]);
        assert buf[..] == was[b := buf[b]];
        return;
      }
      panicked := true;
    }

    /** acquiresleep on a buffer that is free. */
    method Lock(b: nat, pid: int)
      requires Valid() && b < NBUF && buf[b].refcnt > 0 && !buf[b].locked
      modifies buf
      ensures Valid() && buf[..] == old(buf[..])[b := old(buf[b]).(locked := true, pid := pid)]
    {
      ghost var was := buf[..];
      buf[b] := buf[b].(locked := true, pid := pid);
      CountKeeps(was, disk, current, unsaved, b, buf[b]);
      assert buf[..] == was[b := buf[b]];
    }

    /** iderw: writes a dirty buffer, otherwise reads an invalid one. */
    method Iderw(b: nat)
      requires Valid() && b < NBUF && buf[b].locked
      requires !(buf[b].valid && !buf[b].dirty)                       // "nothing to do"
      requires buf[b].dev == DISK && buf[b].blockno < |disk|          // "not for disk 1", "out of range"
      modifies buf, this`disk, this`unsaved
      ensures Valid()
      ensures old(buf[b]).dirty ==>
                && disk == old(disk)[old(buf[b]).blockno := current[old(buf[b]).blockno]] && unsaved == old(unsaved) - {b}
                && buf[..] == old(buf[..])[b := old(buf[b]).(dirty := false)]
      ensures !old(buf[b]).dirty ==>
                && disk == old(disk) && unsaved == old(unsaved)
                && buf[..] == old(buf[..])[b := old(buf[b]).(valid := true, data := current[old(buf[b]).blockno])]
    {
      ghost var was := buf[..];
      if buf[b].dirty {
        WriteKeeps(was, disk, current, unsaved, b);
        disk := disk[buf[b].blockno := buf[b].data];
        buf[b] := buf[b].(dirty := false);
        unsaved := unsaved - {b};
      } else {
        ReadKeeps(was, disk, current, unsaved, b);
        buf[b] := buf[b].(valid := true, data := disk[buf[b].blockno]);
      }
      assert buf[..] == was[b := buf[b]];
    }

    /** bread: whoever gets the buffer sees the last value given to the block, whether it came from the cache
        or from the disk, and the block map is unchanged. */
    method Bread(blockno: nat, pid: int) returns (panicked: bool, b: nat)
      requires Valid() && blockno < |disk|
      requires forall i :: 0 <= i < NBUF && Keyed(buf[i], DISK, blockno) ==> !buf[i].locked
      modifies buf, this`disk, this`unsaved
      ensures Valid() && disk == old(disk) && unsaved == old(unsaved)
      ensures panicked <==>
                forall i :: 0 <= i < NBUF ==> !Keyed(old(buf[i]), DISK, blockno) && !Recyclable(old(buf[i]))
      ensures panicked ==> buf[..] == old(buf[..])
      ensures !panicked ==>
                && b < NBUF && Keyed(buf[b], DISK, blockno) && buf[b].locked && buf[b].pid == pid
                && buf[b].valid && buf[b].data == current[blockno]
      ensures !panicked && Keyed(old(buf[b]), DISK, blockno) ==>
                buf[b].refcnt == old(buf[b]).refcnt + 1 && buf[b].dirty == old(buf[b]).dirty
      ensures !panicked && !Keyed(old(buf[b]), DISK, blockno) ==>
                && Recyclable(old(buf[b])) && buf[b].refcnt == 1 && !buf[b].dirty
                && forall i :: 0 <= i < NBUF ==> !Keyed(old(buf[i]), DISK, blockno)
      ensures !panicked ==> forall i :: 0 <= i < NBUF && i != b ==> buf[i] == old(buf[i])
    {
      hide Agrees, Ring;
      SameSizes();
      panicked, b := Bget(DISK, blockno);
      if !panicked {
        Lock(b, pid);
        if !buf[b].valid {
          assert !buf[b].dirty by { NotDirty(b); }
          Iderw(b);
        }
        ShowsCurrent(b);
      }
    }

    lemma SameSizes()
      requires Valid()
      ensures |disk| == |current|
    {
    }

    lemma NotDirty(b: nat)
      requires Valid() && b < NBUF && !buf[b].valid
      ensures !buf[b].dirty
    {
    }

    /** A valid buffer holds the last value given to its block. */
    lemma ShowsCurrent(b: nat)
      requires Valid() && b < NBUF && buf[b].valid
      ensures buf[b].blockno < |current| && buf[b].data == current[buf[b].blockno]
    {
    }

    /** The holder stores into b->data. */
    method Modify(b: nat, data: Block)
      requires Valid() && b < NBUF && buf[b].locked && buf[b].valid
      modifies buf, this`current, this`unsaved
      ensures Valid() && current == old(current)[old(buf[b]).blockno := data] && unsaved == old(unsaved) + {b}
      ensures buf[..] == old(buf[..])[b := old(buf[b]).(data := data)]
    {
      ghost var was := buf[..];
      ModifyKeeps(was, disk, current, unsaved, b, data);
      buf[b] := buf[b].(data := data);
      current := current[buf[b].blockno := data];
      unsaved := unsaved + {b};
      assert buf[..] == was[b := buf[b]];
    }

    /** What log_write does to the buffer. */
    method MarkDirty(b: nat)
      requires Valid() && b < NBUF && buf[b].valid
      modifies buf, this`unsaved
      ensures Valid() && unsaved == old(unsaved) - {b}
      ensures buf[..] == old(buf[..])[b := old(buf[b]).(dirty := true)]
    {
      ghost var was := buf[..];
      PinKeeps(was, disk, current, unsaved, b);
      buf[b] := buf[b].(dirty := true);
      unsaved := unsaved - {b};
      assert buf[..] == was[b := buf[b]];
    }

    /** bwrite: the disk gets the current contents of the block, and the buffer is no longer pinned. */
    method Bwrite(b: nat)
      requires Valid() && b < NBUF && buf[b].locked && buf[b].valid
      modifies buf, this`disk, this`unsaved
      ensures Valid() && unsaved == old(unsaved) - {b}
      ensures disk == old(disk)[old(buf[b]).blockno := current[old(buf[b]).blockno]]
      ensures buf[..] == old(buf[..])[b := old(buf[b]).(dirty := false)]
    {
      ghost var was := buf[..];
      MarkDirty(b);
      Iderw(b);
      assert buf[..] == was[b := was[b].(dirty := false)];
    }

    /** brelse: unlock; the last user moves the buffer to the front of the list. */
    method Brelse(b: nat, ghost k: nat)
      requires Valid() && b < NBUF && buf[b].locked && b !in unsaved && k < NBUF && order[k] == b
      modifies buf, next, prev, this`order
      ensures Valid()
      ensures order == if buf[b].refcnt == 0 then MoveToFront(old(order), k) else old(order)
      ensures buf[..] == old(buf[..])[b := old(buf[b]).(locked := false, pid := 0, refcnt := old(buf[b]).refcnt - 1)]
    {
      ghost var was := buf[..];
      buf[b] := buf[b].(locked := false, pid := 0);
      buf[b] := buf[b].(refcnt := buf[b].refcnt - 1);
      CountKeeps(was, disk, current, unsaved, b, buf[b]);
      assert buf[..] == was[b := buf[b]];
      if buf[b].refcnt == 0 {
        ghost var o := order;
        MoveToFrontKeeps(o, k);
        Unlink(b, k);
        PushFront(b);
      }
    }
  }
}
