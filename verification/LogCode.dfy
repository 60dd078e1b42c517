/** log.c as code.  Each method updates the log in place; the ghost field `trace` holds every state the
    protocol in RedoLog has gone through, one step per disk write or stretch under log.lock, so that the
    theorems about runs and crashes speak about every moment between two writes of this code. */
module LogCode {
  import opened Common
  import opened RedoLog

  lemma DropOne(ops: map<nat, nat>, op: nat)
    requires op in ops
    ensures |ops - {op}| == |ops| - 1 && (|ops - {op}| == 0 <==> ops - {op} == map[])
  {
    assert (ops - {op}).Keys == ops.Keys - {op};
  }

  class Log {
    const g: Geometry
    var disk: seq<Block>
    var cache: map<int, Block>      // buffers changed in memory
    var lh: seq<int>                // log.lh: block numbers, n is the length
    var outstanding: nat
    var committing: bool

    ghost var c0: seq<Block>
    ghost var trace: seq<State>
    ghost var ops: map<nat, nat>
    ghost var passed: set<nat>
    ghost var stage: Stage
    ghost var hist: seq<Event>
    ghost var durable: nat
    ghost var spilled: bool

    ghost function Now(): State
      reads this`disk, this`cache, this`lh, this`ops, this`passed, this`stage, this`hist, this`durable, this`spilled
    {
      State(disk, cache, lh, ops, passed, stage, hist, durable, spilled)
    }

    /** The recorded states are a run of the protocol, and the fields are where it has led. */
    ghost predicate OnTrack()
      reads this`disk, this`cache, this`lh, this`ops, this`passed, this`stage, this`hist, this`durable, this`spilled
      reads this`c0, this`trace
    {
      IsTrace(g, trace) && Boots(g, c0, trace[0]) && trace[|trace| - 1] == Now() && Shape(g, Now())
    }

    ghost predicate Valid()
      reads this
    {
      OnTrack() && outstanding == |ops| && committing == IsCommitting(Now())
    }

    lemma OnTrackFacts()
      requires OnTrack()
      ensures IsTrace(g, trace) && Boots(g, c0, trace[0]) && trace[|trace| - 1] == Now() && Shape(g, Now())
    {
    }

    lemma Facts()
      requires OnTrack()
      ensures Inv(g, c0, Now())
    {
      TraceInv(g, c0, trace);
    }

    ghost method Took(step: Step)
      requires IsTrace(g, trace) && Boots(g, c0, trace[0])
      requires Enabled(g, trace[|trace| - 1], step) && Now() == Do(g, trace[|trace| - 1], step)
      modifies this`trace
      ensures OnTrack() && old(trace) < trace
    {
      TraceGrows(g, c0, trace, step);
      trace := trace + [Now()];
    }

    /** initlog up to read_head: power-on with any disk whose header is well formed. */
    constructor (geometry: Geometry, image: seq<Block>, ghost contents: seq<Block>)
      requires GeometryOk(geometry) && |image| == geometry.blocks && HeadOk(geometry, image[geometry.start])
      requires |Head(image[geometry.start])| < geometry.size && Shows(geometry, image, contents)
      ensures Valid() && g == geometry && disk == image && c0 == contents
      ensures stage == Recovering(0) && hist == [] && lh == Head(image[geometry.start]) && !spilled
    {
      g := geometry;
      disk, cache, lh, outstanding, committing := image, map[], [], 0, false;
      c0, ops, passed, stage, hist, durable, spilled := contents, map[], {}, Recovering(0), [], 0, false;
      new;
      lh := ReadHead();
      trace := [Now()];
      Begins();
    }

    lemma Begins()
      requires trace == [Now()] && Boots(g, c0, Now()) && outstanding == 0 && !committing
      ensures Valid()
    {
      assert Head(disk[g.start]) == lh;
    }

    /** read_head. */
    method ReadHead() returns (head: seq<int>)
      requires GeometryOk(g) && |disk| == g.blocks && HeadOk(g, disk[g.start])
      ensures head == Head(disk[g.start])
    {
      var buf := disk[g.start];
      head := [];
      var i := 0;
      while i < buf[0]
        invariant 0 <= i <= buf[0] && head == buf[1..1 + i]
      {
        head := head + [buf[1 + i]];
        i := i + 1;
      }
    }

    /** write_head: copies n and n block numbers into the header buffer and writes it. */
    method WriteHead()
      requires GeometryOk(g) && |disk| == g.blocks && |disk[g.start]| == WORDS && |lh| <= LOGSIZE
      modifies this`disk
      ensures disk == old(disk)[g.start := PutHead(old(disk)[g.start], lh)]
    {
      var buf: seq<int> := disk[g.start];
      ghost var was := buf;
      buf := buf[0 := |lh|];
      var i := 0;
      while i < |lh|
        invariant 0 <= i <= |lh| && |buf| == WORDS
        invariant buf == [|lh|] + lh[..i] + was[1 + i..]
      {
        buf := buf[1 + i := lh[i]];
        i := i + 1;
      }
      assert lh[..|lh|] == lh;
      disk := disk[g.start := buf];
    }

    method InstallOne(tail: nat)
      requires OnTrack() && (stage == Installing(tail) || stage == Recovering(tail)) && tail < |lh|
      modifies this`disk, this`stage, this`trace
      ensures OnTrack()
      ensures stage == if old(stage).Installing? then Installing(tail + 1) else Recovering(tail + 1)
    {
      assert Enabled(g, Now(), InstallBlock);
      var lbuf := disk[g.start + tail + 1];
      disk := disk[lh[tail] := lbuf];
      stage := if stage.Installing? then Installing(tail + 1) else Recovering(tail + 1);
      Took(InstallBlock);
    }

    /** install_trans: copies each log block to its home, in commit() and in recovery. */
    method InstallTrans()
      requires OnTrack() && (stage == Installing(0) || stage == Recovering(0))
      modifies this`disk, this`stage, this`trace
      ensures OnTrack()
      ensures stage == (if old(stage).Installing? then Installing(|lh|) else Recovering(|lh|))
    {
      var tail := 0;
      while tail < |lh|
        invariant 0 <= tail <= |lh| && OnTrack()
        invariant stage == (if old(stage).Installing? then Installing(tail) else Recovering(tail))
      {
        InstallOne(tail);
        tail := tail + 1;
      }
    }

    /** recover_from_log, after the header has been read. */
    method RecoverFromLog()
      requires Valid() && stage == Recovering(0)
      modifies this`disk, this`lh, this`stage, this`trace
      ensures Valid() && stage.Idle? && lh == []
      ensures Safe(g) || !spilled ==> SameHome(g, disk, Replay(c0, hist))
    {
      InstallTrans();
      EraseHead();
      Facts();
      assert hist[..|hist|] == hist;
    }

    /** log.lh.n = 0 followed by write_head. */
    method EraseHead()
      requires OnTrack() && (stage == Installing(|lh|) || stage == Recovering(|lh|))
      modifies this`disk, this`lh, this`stage, this`trace
      ensures OnTrack() && lh == [] && stage == (if old(stage).Installing? then Committed else Idle)
    {
      assert Enabled(g, Now(), ClearHeader);
      lh := [];
      WriteHead();
      stage := if stage.Installing? then Committed else Idle;
      Took(ClearHeader);
    }

    /** A crash and the reboot: memory is gone and the header is read back. */
    method Reboot()
      requires Valid()
      modifies this
      ensures Valid() && stage == Recovering(0) && disk == old(disk) && c0 == old(c0) && spilled == old(spilled)
      ensures hist == old(hist)[..old(durable)] && lh == Head(disk[g.start])
      ensures old(trace) < trace
    {
      ghost var s := Now();
      assert Enabled(g, s, Crash);
      cache, outstanding, committing := map[], 0, false;
      lh := ReadHead();
      ops, passed, stage, hist := map[], {}, Recovering(0), hist[..durable];
      assert Now() == Do(g, s, Crash);
      Took(Crash);
    }

    /** One pass of begin_op's loop; false means the caller sleeps. */
    method BeginOp(ghost op: nat) returns (admitted: bool)
      requires Valid() && !stage.Recovering? && op !in ops
      modifies this
      ensures Valid() && disk == old(disk) && c0 == old(c0) && lh == old(lh) && passed == old(passed)
      ensures admitted <==> !old(committing) && |old(lh)| + (old(outstanding) + 1) * MAXOPBLOCKS <= LOGSIZE
      ensures admitted ==> ops == old(ops)[op := 0] && hist == old(hist) + [Began(op)] && stage == old(stage)
      ensures !admitted ==> Now() == old(Now())
    {
      if committing {
        admitted := false;
      } else if |lh| + (outstanding + 1) * MAXOPBLOCKS > LOGSIZE {
        admitted := false;
      } else {
        assert Enabled(g, Now(), RedoLog.BeginOp(op));
        outstanding := outstanding + 1;
        ops, hist := ops[op := 0], hist + [Began(op)];
        Took(RedoLog.BeginOp(op));
        admitted := true;
      }
    }

    /** The absorption scan of log_write. */
    method Find(b: nat) returns (i: nat)
      ensures i <= |lh| && (i < |lh| ==> lh[i] == b) && (i == |lh| ==> b !in lh)
    {
      i := 0;
      while i < |lh| && lh[i] != b
        invariant 0 <= i <= |lh| && b !in lh[..i]
      {
        i := i + 1;
      }
    }

    /** log_write up to acquire(&log.lock): its two tests, made without the lock. */
    method LogTest(ghost op: nat) returns (panicked: bool)
      requires Valid() && stage.Idle? && (ops == map[] || (op in ops && op !in passed))
      modifies this`passed, this`trace
      ensures Valid()
      ensures panicked <==> LogWritePanics(g, Now()) || ops == map[]
      ensures passed == if panicked then old(passed) else old(passed) + {op}
    {
      hide Boots, IsTrace, HeadOk;
      assert |ops| == 0 <==> ops == map[];
      panicked := |lh| >= LOGSIZE || |lh| >= g.size - 1 || outstanding < 1;
      if !panicked {
        ghost var s := Now();
        assert Enabled(g, s, RedoLog.LogTest(op));
        passed := passed + {op};
        Took(RedoLog.LogTest(op));
      }
    }

    /** log_write under log.lock, any number of other steps after the test: absorb the block or append it. */
    method LogAppend(ghost op: nat, b: nat, data: Block)
      requires Valid() && stage.Idle? && op in ops && op in passed && Home(g, b)
      requires b !in lh ==> ops[op] < MAXOPBLOCKS
      modifies this`lh, this`cache, this`ops, this`passed, this`hist, this`trace
      ensures Valid()
      ensures cache == old(cache)[b := data] && hist == old(hist) + [Wrote(op, b, data)] && passed == old(passed) - {op}
      ensures lh == if b in old(lh) then old(lh) else old(lh) + [b]
      ensures ops == if b in old(lh) then old(ops) else old(ops)[op := old(ops)[op] + 1]
    {
      hide OnTrack;
      assert ops[op := ops[op] + 1].Keys == ops.Keys;
      ghost var s := Now();
      assert IsTrace(g, trace) && Boots(g, c0, trace[0]) && trace[|trace| - 1] == s && Shape(g, s) by { OnTrackFacts(); }
      Record(b, data);
      Append(s, op, b, data);
    }

    ghost method Append(s: State, op: nat, b: nat, data: Block)
      requires IsTrace(g, trace) && Boots(g, c0, trace[0]) && trace[|trace| - 1] == s && Shape(g, s)
      requires s.stage.Idle? && op in s.ops && op in s.passed && Home(g, b) && (b !in s.lh ==> s.ops[op] < MAXOPBLOCKS)
      requires Now() == s.(cache := s.cache[b := data], lh := if b in s.lh then s.lh else s.lh + [b])
      modifies this`ops, this`passed, this`hist, this`trace
      ensures OnTrack() && passed == s.passed - {op} && hist == s.hist + [Wrote(op, b, data)]
      ensures ops == if b in s.lh then s.ops else s.ops[op := s.ops[op] + 1]
    {
      hide Boots, IsTrace, Shape, Enabled, Do;
      AppendDo(g, s, op, b, data);
      if b !in s.lh {
        ops := ops[op := ops[op] + 1];
      }
      passed, hist := passed - {op}, hist + [Wrote(op, b, data)];
      Took(RedoLog.LogAppend(op, b, data));
    }

    /** log.lh.block[i] = b->blockno, and the buffer stays in memory. */
    method Record(b: nat, data: Block)
      modifies this`lh, this`cache
      ensures cache == old(cache)[b := data] && lh == if b in old(lh) then old(lh) else old(lh) + [b]
    {
      var i := Find(b);
      if i == |lh| {
        lh := lh + [b];
      } else {
        lh := lh[i := b];
      }
      cache := cache[b := data];
    }

    /** One round of write_log; it panics if the logged blocks pin every buffer. */
    method CopyOne(tail: nat) returns (panicked: bool)
      requires OnTrack() && stage == Copying(tail) && tail < |lh|
      modifies this`disk, this`stage, this`trace, this`spilled
      ensures OnTrack() && (panicked <==> |lh| >= NBUF)
      ensures panicked ==> Now() == old(Now())
      ensures !panicked ==> stage == Copying(tail + 1)
    {
      panicked := |lh| >= NBUF;                        // bread: "bget: no buffers"
      if panicked { return; }
      assert Enabled(g, Now(), CopyBlock);
      var from := cache[lh[tail]];
      disk := disk[g.start + tail + 1 := from];
      stage, spilled := Copying(tail + 1), spilled || g.start + tail + 1 >= g.start + g.size;
      Took(CopyBlock);
    }

    /** write_log: copies the changed buffers into the log area, or panics before it has written anything. */
    method WriteLog() returns (panicked: bool)
      requires OnTrack() && stage == Copying(0) && lh != []
      modifies this`disk, this`stage, this`trace, this`spilled
      ensures OnTrack() && (panicked <==> |lh| >= NBUF)
      ensures panicked ==> Now() == old(Now())
      ensures !panicked ==> stage == Copying(|lh|)
    {
      panicked := false;
      var tail := 0;
      while tail < |lh|
        invariant 0 <= tail <= |lh| && OnTrack() && stage == Copying(tail)
        invariant tail == 0 ==> Now() == old(Now())
        invariant tail > 0 ==> |lh| < NBUF
      {
        panicked := CopyOne(tail);
        if panicked { return; }
        tail := tail + 1;
      }
    }

    /** write_head at the commit point. */
    method CommitHead()
      requires OnTrack() && stage == Copying(|lh|) && |lh| < NBUF
      modifies this`disk, this`stage, this`trace, this`durable
      ensures OnTrack() && stage == Installing(0) && durable == |hist|
    {
      assert Enabled(g, Now(), WriteHeader);
      WriteHead();
      stage, durable := Installing(0), |hist|;
      Took(WriteHeader);
    }

    lemma AllDone()
      requires OnTrack() && stage.Committed?
      ensures lh == [] && durable == |hist| && (Safe(g) || !spilled ==> SameHome(g, disk, Replay(c0, hist)))
    {
      Facts();
      assert hist[..|hist|] == hist;
    }

    lemma FewEntries()
      requires OnTrack()
      ensures |lh| <= LOGSIZE
    {
    }

    /** commit().  It panics exactly for a log of LOGSIZE entries, with nothing written. */
    method Commit() returns (panicked: bool)
      requires OnTrack() && stage == (if lh == [] then Committed else Copying(0))
      modifies this`disk, this`lh, this`stage, this`trace, this`durable, this`spilled
      ensures OnTrack() && (panicked <==> |old(lh)| == LOGSIZE)
      ensures panicked ==> Now() == old(Now())
      ensures !panicked ==> stage.Committed? && lh == [] && durable == |hist|
      ensures !panicked && (Safe(g) || !spilled) ==> SameHome(g, disk, Replay(c0, hist))
    {
      hide OnTrack, SameHome, Replay, Safe;
      FewEntries();
      panicked := false;
      if |lh| > 0 {
        panicked := WriteLog();
        if panicked { return; }
        CommitHead();
        InstallTrans();
        EraseHead();
      }
      AllDone();
    }

    /** The first critical section of end_op; true means this caller must commit. */
    method LeaveOp(ghost op: nat) returns (doCommit: bool)
      requires Valid() && stage.Idle? && op in ops && op !in passed
      modifies this`outstanding, this`committing, this`ops, this`hist, this`stage, this`durable, this`trace
      ensures Valid()
      ensures ops == old(ops) - {op} && hist == old(hist) + [Ended(op)]
      ensures doCommit <==> ops == map[]
      ensures doCommit ==> stage == if lh == [] then Committed else Copying(0)
      ensures doCommit && lh != [] ==> durable == old(durable)
      ensures !doCommit ==> stage.Idle? && durable == old(durable)
    {
      hide OnTrack;
      assert !committing;                    // panic("log.committing") is not reached
      DropOne(ops, op);
      Leave(op);
      outstanding := outstanding - 1;
      doCommit := outstanding == 0;
      if doCommit {
        committing := true;
      }
    }

    ghost method Leave(op: nat)
      requires OnTrack() && stage.Idle? && op in ops && op !in passed
      modifies this`ops, this`hist, this`stage, this`durable, this`trace
      ensures OnTrack() && ops == old(ops) - {op} && hist == old(hist) + [Ended(op)]
      ensures stage == if ops != map[] then Idle else if lh != [] then Copying(0) else Committed
      ensures durable == if ops == map[] && lh == [] then |hist| else old(durable)
    {
      hide Boots, IsTrace, Shape, Enabled, Do;
      EndDo(g, Now(), op);
      ops, hist := ops - {op}, hist + [Ended(op)];
      if ops == map[] {
        if lh == [] { stage, durable := Committed, |hist|; } else { stage := Copying(0); }
      }
      Took(RedoLog.EndOp(op));
    }

    /** The second critical section of end_op. */
    method DoneCommitting()
      requires Valid() && stage.Committed?
      modifies this`committing, this`stage, this`trace
      ensures Valid() && stage.Idle?
    {
      assert Enabled(g, Now(), FinishCommit);
      committing := false;
      stage := Idle;
      Took(FinishCommit);
    }

    /** end_op: the last operation out commits, and all its group becomes durable. */
    method EndOp(ghost op: nat) returns (panicked: bool)
      requires Valid() && stage.Idle? && op in ops && op !in passed
      modifies this
      ensures Valid() && c0 == old(c0) && ops == old(ops) - {op} && hist == old(hist) + [Ended(op)] && passed == old(passed)
      ensures panicked <==> ops == map[] && |old(lh)| == LOGSIZE
      ensures panicked ==> lh == old(lh) && stage == Copying(0)
      ensures !panicked ==> stage.Idle?
      ensures !panicked && ops == map[] ==> lh == [] && durable == |hist|
      ensures !panicked && ops == map[] && (Safe(g) || !spilled) ==> SameHome(g, disk, Replay(c0, hist))
      ensures panicked || ops != map[] ==> disk == old(disk) && durable == old(durable)
    {
      hide OnTrack, SameHome;
      panicked := false;
      var doCommit := LeaveOp(op);
      if doCommit {
        panicked := Commit();
        if panicked { return; }
        DoneCommitting();
      }
    }
  }
}
