/** The pipe of pipe.c: a 512-byte ring addressed by 32-bit counters that wrap. */
module PipeRing {
  import opened Common

  /** The fields of struct pipe.  A step below runs with the pipe's lock held. */
  datatype Ring = Ring(data: seq<byte>, nread: nat, nwrite: nat, readopen: bool, writeopen: bool)

  /** pipewrite's test for a full ring, in 32-bit arithmetic. */
  predicate Full(r: Ring) {
    r.nwrite == (r.nread + PIPESIZE) % UINT
  }

  predicate Empty(r: Ring) {
    r.nread == r.nwrite
  }

  function Put(r: Ring, b: byte): Ring
    requires |r.data| == PIPESIZE
  {
    r.(data := r.data[r.nwrite % PIPESIZE := b], nwrite := (r.nwrite + 1) % UINT)
  }

  function Get(r: Ring): Ring {
    r.(nread := (r.nread + 1) % UINT)
  }

  function Front(r: Ring): byte
    requires |r.data| == PIPESIZE
  {
    r.data[r.nread % PIPESIZE]
  }

  // ---- What the ring holds ----

  ghost predicate Slot(data: seq<byte>, accepted: seq<byte>, k: nat)
    requires |data| == PIPESIZE && k < |accepted|
  {
    data[k % PIPESIZE] == accepted[k]
  }

  /** `accepted` are all bytes ever written, of which the first `taken` were read. */
  ghost predicate Holds(r: Ring, accepted: seq<byte>, taken: nat) {
    && |r.data| == PIPESIZE && taken <= |accepted| <= taken + PIPESIZE
    && r.nwrite == |accepted| % UINT && r.nread == taken % UINT
    && forall k: nat :: taken <= k < |accepted| ==> Slot(r.data, accepted, k)
  }

  lemma Remainder(x: nat, q: nat, r: nat)
    requires x == PIPESIZE * q + r && r < PIPESIZE
    ensures x % PIPESIZE == r
  {
  }

  lemma WrapKeepsSlot(x: nat)
    ensures x % UINT % PIPESIZE == x % PIPESIZE
  {
    var q, r := x / UINT, x % UINT;
    Remainder(x, 8388608 * q + r / PIPESIZE, r % PIPESIZE);
  }

  lemma ModShift(x: nat, q: nat)
    ensures (UINT * q + x) % UINT == x % UINT
  {
    assert UINT * q + x == UINT * (q + x / UINT) + x % UINT;
  }

  lemma WrapSum(x: nat, y: nat)
    ensures (x % UINT + y) % UINT == (x + y) % UINT
  {
    var q, r := x / UINT, x % UINT;
    assert x + y == UINT * q + (r + y);
    ModShift(r + y, q);
  }

  lemma WrapApart(a: nat, b: nat)
    requires a < b < a + UINT
    ensures a % UINT != b % UINT
  {
    var p, q := a / UINT, b / UINT;
    assert a == UINT * p + a % UINT && b == UINT * q + b % UINT;
  }

  lemma SlotsApart(a: nat, b: nat)
    requires a < b < a + PIPESIZE
    ensures a % PIPESIZE != b % PIPESIZE
  {
    assert a == PIPESIZE * (a / PIPESIZE) + a % PIPESIZE && b == PIPESIZE * (b / PIPESIZE) + b % PIPESIZE;
  }

  /** The counters count modulo 2^32, yet tell exactly when the ring is full or empty, and how much it holds. */
  lemma CountersTell(r: Ring, accepted: seq<byte>, taken: nat)
    requires Holds(r, accepted, taken)
    ensures Full(r) <==> |accepted| == taken + PIPESIZE
    ensures Empty(r) <==> |accepted| == taken
    ensures (r.nwrite + UINT - r.nread) % UINT == |accepted| - taken
  {
    WrapSum(taken, PIPESIZE);
    if |accepted| < taken + PIPESIZE { WrapApart(|accepted|, taken + PIPESIZE); }
    if taken < |accepted| { WrapApart(taken, |accepted|); }
    var n := |accepted| - taken;
    WrapSum(taken, n);
    assert (r.nread + n) % UINT == r.nwrite;
    if r.nread + n < UINT {
      assert r.nwrite == r.nread + n;
    } else {
      assert r.nwrite == r.nread + n - UINT;
    }
  }

  lemma PutHolds(r: Ring, accepted: seq<byte>, taken: nat, b: byte)
    requires Holds(r, accepted, taken) && !Full(r)
    ensures Holds(Put(r, b), accepted + [b], taken)
  {
    CountersTell(r, accepted, taken);
    WrapKeepsSlot(|accepted|);
    WrapSum(|accepted|, 1);
    var accepted', data := accepted + [b], Put(r, b).data;
    forall k: nat | taken <= k < |accepted'|
      ensures Slot(data, accepted', k)
    {
      if k < |accepted| {
        assert Slot(r.data, accepted, k);
        SlotsApart(k, |accepted|);
      }
    }
  }

  lemma GetHolds(r: Ring, accepted: seq<byte>, taken: nat)
    requires Holds(r, accepted, taken) && !Empty(r)
    ensures taken < |accepted| && Front(r) == accepted[taken] && Holds(Get(r), accepted, taken + 1)
  {
    CountersTell(r, accepted, taken);
    WrapKeepsSlot(taken);
    WrapSum(taken, 1);
    assert Slot(r.data, accepted, taken);
  }

  // ---- Any interleaving of readers and writers ----

  datatype Op = WriteByte(b: byte) | ReadByte | CloseRead | CloseWrite

  /** The ring, with what writers have put in and readers have taken out so far. */
  datatype Run = Run(ring: Ring, accepted: seq<byte>, delivered: seq<byte>)

  ghost predicate Enabled(s: Run, op: Op) {
    && |s.ring.data| == PIPESIZE
    && (op.WriteByte? ==> !Full(s.ring))
    && (op.ReadByte? ==> !Empty(s.ring))
  }

  ghost function Do(s: Run, op: Op): Run
    requires Enabled(s, op)
  {
    match op
    case WriteByte(b) => Run(Put(s.ring, b), s.accepted + [b], s.delivered)
    case ReadByte => Run(Get(s.ring), s.accepted, s.delivered + [Front(s.ring)])
    case CloseRead => s.(ring := s.ring.(readopen := false))
    case CloseWrite => s.(ring := s.ring.(writeopen := false))
  }

  /** pipealloc: open at both ends, counters zero, contents of the page arbitrary. */
  ghost predicate Fresh(s: Run) {
    && |s.ring.data| == PIPESIZE && s.ring.nread == 0 && s.ring.nwrite == 0 && s.ring.readopen && s.ring.writeopen
    && s.accepted == [] && s.delivered == []
  }

  ghost predicate Leads(s: Run, ops: seq<Op>, s': Run)
    decreases |ops|
  {
    if ops == [] then s == s' else Enabled(s, ops[0]) && Leads(Do(s, ops[0]), ops[1..], s')
  }

  ghost predicate Reachable(s: Run) {
    exists s0: Run, ops: seq<Op> :: Fresh(s0) && Leads(s0, ops, s)
  }

  ghost predicate Fifo(s: Run) {
    Holds(s.ring, s.accepted, |s.delivered|) && s.delivered == s.accepted[..|s.delivered|]
  }

  lemma HoldsBound(r: Ring, accepted: seq<byte>, taken: nat)
    requires Holds(r, accepted, taken)
    ensures taken <= |accepted| <= taken + PIPESIZE && |r.data| == PIPESIZE
  {
  }

  lemma HoldsData(r: Ring, r': Ring, accepted: seq<byte>, taken: nat)
    requires Holds(r, accepted, taken) && r'.data == r.data && r'.nread == r.nread && r'.nwrite == r.nwrite
    ensures Holds(r', accepted, taken)
  {
  }

  lemma StepFifo(s: Run, op: Op)
    requires Fifo(s) && Enabled(s, op)
    ensures Fifo(Do(s, op))
  {
    hide Holds, Full, Empty, Put, Get, Front;
    HoldsBound(s.ring, s.accepted, |s.delivered|);
    match op
    case WriteByte(b) =>
      PutHolds(s.ring, s.accepted, |s.delivered|, b);
    case ReadByte =>
      GetHolds(s.ring, s.accepted, |s.delivered|);
    case CloseRead =>
      HoldsData(s.ring, Do(s, op).ring, s.accepted, |s.delivered|);
    case CloseWrite =>
      HoldsData(s.ring, Do(s, op).ring, s.accepted, |s.delivered|);
  }

  lemma {:induction false} RunFifo(s: Run, ops: seq<Op>, s': Run)
    requires Fifo(s) && Leads(s, ops, s')
    ensures Fifo(s')
    decreases |ops|
  {
    if ops != [] {
      StepFifo(s, ops[0]);
      RunFifo(Do(s, ops[0]), ops[1..], s');
    }
  }

  /** In every run: delivered bytes followed by buffered ones are the accepted ones, in order, and the 32-bit
      difference of the counters is the number buffered, at most PIPESIZE. */
  lemma PipeIsFifo(s: Run) returns (buffered: seq<byte>)
    requires Reachable(s)
    ensures s.delivered + buffered == s.accepted
    ensures |buffered| == (s.ring.nwrite + UINT - s.ring.nread) % UINT <= PIPESIZE
    ensures Full(s.ring) <==> |buffered| == PIPESIZE
    ensures Empty(s.ring) <==> buffered == []
  {
    var s0: Run, ops: seq<Op> :| Fresh(s0) && Leads(s0, ops, s);
    RunFifo(s0, ops, s);
    CountersTell(s.ring, s.accepted, |s.delivered|);
    buffered := s.accepted[|s.delivered|..];
  }

  // ---- The loops of pipewrite and piperead between two sleeps ----

  /** How a stretch of pipewrite ends: all bytes are in, it returns -1, or it sleeps on &p->nwrite. */
  datatype Outcome = Done | Fails | Sleeps

  class PipeBuffer {
    const data: array<byte>
    var nread: nat
    var nwrite: nat
    var readopen: bool
    var writeopen: bool
    ghost var accepted: seq<byte>
    ghost var delivered: seq<byte>

    ghost function View(): Ring
      reads this, data
    {
      Ring(data[..], nread, nwrite, readopen, writeopen)
    }

    ghost predicate Valid()
      reads this, data
    {
      Fifo(Run(View(), accepted, delivered))
    }

    constructor ()
      ensures Valid() && fresh(data) && accepted == [] && delivered == [] && readopen && writeopen
    {
      data := new byte[PIPESIZE];
      nread, nwrite, readopen, writeopen := 0, 0, true, true;
      accepted, delivered := [], [];
    }

    /** pipewrite from addr[i] on, up to the next sleep or to its end.  It takes bytes until the ring is full, closed read
        end or not; only then does it look at the read end and at its own killed flag. */
    method WriteBurst(addr: seq<byte>, i: nat, killed: bool) returns (j: nat, end: Outcome)
      requires Valid() && i <= |addr|
      modifies this`nwrite, this`accepted, data
      ensures Valid() && i <= j <= |addr| && accepted == old(accepted) + addr[i..j]
      ensures end.Done? <==> j == |addr|
      ensures j < |addr| ==> Full(View()) && (end.Fails? <==> !readopen || killed)
    {
      hide Holds, Put;
      j := i;
      while j < |addr| && nwrite != (nread + PIPESIZE) % UINT
        invariant Valid() && i <= j <= |addr| && accepted == old(accepted) + addr[i..j]
      {
        ghost var was := Run(View(), accepted, delivered);
        HoldsBound(was.ring, accepted, |delivered|);
        StepFifo(was, WriteByte(addr[j]));
        WriteOne(addr[j]);
        j := j + 1;
      }
      end := if j == |addr| then Done else if !readopen || killed then Fails else Sleeps;
    }

    method WriteOne(b: byte)
      requires data.Length == PIPESIZE
      modifies this`nwrite, this`accepted, data
      ensures View() == Put(old(View()), b) && accepted == old(accepted) + [b]
    {
      data[nwrite % PIPESIZE] := b;
      nwrite := (nwrite + 1) % UINT;
      accepted := accepted + [b];
    }

    /** piperead's copy loop: the oldest bytes, as many as asked for and there. */
    method ReadBurst(n: nat) returns (out: seq<byte>)
      requires Valid()
      modifies this`nread, this`delivered
      ensures Valid() && delivered == old(delivered) + out && |out| <= n
      ensures old(delivered) + out == accepted[..|old(delivered)| + |out|]
      ensures |out| < n ==> Empty(View())
    {
      hide Holds;
      out := [];
      while |out| < n && nread != nwrite
        invariant Valid() && delivered == old(delivered) + out && |out| <= n
        decreases n - |out|
      {
        ghost var was := Run(View(), accepted, delivered);
        HoldsBound(was.ring, accepted, |delivered|);
        StepFifo(was, ReadByte);
        var b := data[nread % PIPESIZE];
        out := out + [b];
        nread := (nread + 1) % UINT;
        delivered := delivered + [b];
      }
    }

    /** pipeclose; the answer is whether the page is to be freed. */
    method Close(writable: bool) returns (last: bool)
      requires Valid()
      modifies this`readopen, this`writeopen
      ensures Valid() && last == (!readopen && !writeopen)
      ensures writable ==> !writeopen && readopen == old(readopen)
      ensures !writable ==> !readopen && writeopen == old(writeopen)
    {
      hide Holds;
      ghost var was := View();
      if writable {
        writeopen := false;
      } else {
        readopen := false;
      }
      HoldsData(was, View(), accepted, |delivered|);
      last := !readopen && !writeopen;
    }
  }
}
