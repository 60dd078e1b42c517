/** The redo log of log.c: group commit with crash recovery, as a state machine.
    The disk is a sequence of blocks, one block write is one atomic step, and a crash may come
    between any two steps, during recovery as well.  log_write takes two steps, since it tests the
    size of the log before it takes log.lock.  write_log needs a buffer besides those that the logged
    blocks pin, so a commit of NBUF blocks stops at its first bread, and only a crash comes after it.
    LogCode has the code, whose every disk write and every stretch under log.lock is one step of this
    machine; CommitCode has commit and recovery with their buffers. */
module RedoLog {
  import opened Common

  const WORDS: nat := 128                    // BSIZE / sizeof(int)

  type Block = seq<int>                      // the words of one block

  /** Superblock facts used by the log: log.start, log.size and the number of disk blocks. */
  datatype Geometry = Geometry(start: nat, size: nat, blocks: nat)

  /** The log area is on the disk, and so is every block that a header of LOGSIZE entries can name a slot for. */
  ghost predicate GeometryOk(g: Geometry) {
    1 <= g.size && g.start + g.size <= g.blocks && g.start + 1 + LOGSIZE <= g.blocks
  }

  /** A home block: on the disk and outside the log area. */
  predicate Home(g: Geometry, b: int) {
    0 <= b < g.blocks && !(g.start <= b < g.start + g.size)
  }

  /** The log block that holds entry i. */
  function Slot(g: Geometry, i: nat): nat {
    g.start + 1 + i
  }

  // ---- The header block: word 0 is n, words 1..n the home block numbers ----

  function Head(b: Block): (lh: seq<int>)
    requires |b| == WORDS && 0 <= b[0] <= LOGSIZE
    ensures |lh| == b[0]
  {
    b[1..1 + b[0]]
  }

  /** What write_head leaves in the header buffer: n and n entries; the other words stay. */
  function PutHead(b: Block, lh: seq<int>): (r: Block)
    requires |b| == WORDS && |lh| <= LOGSIZE
    ensures |r| == WORDS && r[0] == |lh| && Head(r) == lh
    ensures r[1 + |lh|..] == b[1 + |lh|..]
  {
    [|lh|] + lh + b[1 + |lh|..]
  }

  ghost predicate LogOk(g: Geometry, lh: seq<int>) {
    && |lh| <= LOGSIZE
    && Distinct(lh)
    && forall i :: 0 <= i < |lh| ==> Home(g, lh[i])
  }

  ghost predicate HeadOk(g: Geometry, b: Block) {
    && |b| == WORDS && 0 <= b[0] <= LOGSIZE
    && LogOk(g, Head(b))
  }

  /** Disk `d`, once recovery has finished, holds `c` in every home block. */
  ghost predicate Shows(g: Geometry, d: seq<Block>, c: seq<Block>)
    requires GeometryOk(g) && |d| == g.blocks && HeadOk(g, d[g.start])
  {
    var lh := Head(d[g.start]);
    && |c| == g.blocks
    && (forall i :: 0 <= i < |lh| ==> c[lh[i]] == d[Slot(g, i)])
    && (forall b :: Home(g, b) && b !in lh ==> c[b] == d[b])
  }

  ghost predicate SameHome(g: Geometry, d: seq<Block>, c: seq<Block>) {
    |d| == g.blocks && |c| == g.blocks && forall b :: Home(g, b) ==> d[b] == c[b]
  }

  // ---- What the file system operations asked for: the history ----

  datatype Event = Began(op: nat) | Wrote(op: nat, b: nat, data: Block) | Ended(op: nat)

  /** The blocks after all writes of a history, with no log and no crash. */
  ghost function Replay(c: seq<Block>, hist: seq<Event>): (r: seq<Block>)
    ensures |r| == |c|
  {
    if hist == [] then c else
    var r := Replay(c, hist[..|hist| - 1]);
    match hist[|hist| - 1]
    case Wrote(_, b, data) => if b < |r| then r[b := data] else r
    case _ => r
  }

  /** Operations begun and not yet ended. */
  ghost function Open(hist: seq<Event>): set<nat> {
    if hist == [] then {} else
    var o := Open(hist[..|hist| - 1]);
    match hist[|hist| - 1]
    case Began(op) => o + {op}
    case Ended(op) => o - {op}
    case Wrote(_, _, _) => o
  }

  // ---- The protocol ----

  /** Where commit() or recover_from_log() stands; the number counts blocks already done. */
  datatype Stage = Idle | Copying(k: nat) | Installing(k: nat) | Committed | Recovering(k: nat)

  /** `cache` holds the buffers in memory, `lh` the in-memory header, `ops` the outstanding operations with
      the number of blocks each has added to the log, and `passed` those whose log_write has passed its
      tests and not yet taken log.lock.  The rest is history: `hist` is what the operations did, `durable`
      the length of it that survives a crash, and `spilled` whether write_log ever wrote behind the log area. */
  datatype State = State(disk: seq<Block>, cache: map<int, Block>, lh: seq<int>, ops: map<nat, nat>, passed: set<nat>,
                         stage: Stage, hist: seq<Event>, durable: nat, spilled: bool)

  datatype Step =
    | BeginOp(op: nat)
    | LogTest(op: nat)                             // log_write before acquire(&log.lock)
    | LogAppend(op: nat, b: nat, data: Block)      // log_write under log.lock
    | EndOp(op: nat)
    | CopyBlock        // write_log: one bwrite
    | WriteHeader      // write_head: the commit point
    | InstallBlock     // install_trans: one bwrite, in commit or in recovery
    | ClearHeader      // write_head with n == 0
    | FinishCommit     // committing = 0
    | Crash            // memory is lost; recovery reads the header

  predicate IsCommitting(s: State) {
    s.stage.Copying? || s.stage.Installing? || s.stage.Committed?
  }

  /** begin_op's test: not committing, and room for one more full operation. */
  predicate MayBegin(s: State) {
    s.stage.Idle? && |s.lh| + (|s.ops| + 1) * MAXOPBLOCKS <= LOGSIZE
  }

  /** log_write's "too big a transaction" test, made before it looks for the block. */
  predicate LogWritePanics(g: Geometry, s: State) {
    |s.lh| >= LOGSIZE || |s.lh| >= g.size - 1
  }

  ghost predicate Shape(g: Geometry, s: State) {
    && GeometryOk(g)
    && |s.disk| == g.blocks
    && LogOk(g, s.lh)
    && HeadOk(g, s.disk[g.start])
    && s.durable <= |s.hist|
    && (s.stage.Copying? ==> forall i :: 0 <= i < |s.lh| ==> s.lh[i] in s.cache)
  }

  ghost predicate Enabled(g: Geometry, s: State, step: Step) {
    && Shape(g, s)
    && match step
       case BeginOp(op) => MayBegin(s) && op !in s.ops
       case LogTest(op) => s.stage.Idle? && op in s.ops && op !in s.passed && !LogWritePanics(g, s)
       case LogAppend(op, b, data) =>
         s.stage.Idle? && op in s.ops && op in s.passed && Home(g, b) && (b !in s.lh ==> s.ops[op] < MAXOPBLOCKS)
       case EndOp(op) => s.stage.Idle? && op in s.ops && op !in s.passed
       case CopyBlock => s.stage.Copying? && s.stage.k < |s.lh| < NBUF
       case WriteHeader => s.stage.Copying? && s.stage.k == |s.lh| < NBUF
       case InstallBlock => (s.stage.Installing? || s.stage.Recovering?) && s.stage.k < |s.lh|
       case ClearHeader => (s.stage.Installing? || s.stage.Recovering?) && s.stage.k == |s.lh|
       case FinishCommit => s.stage.Committed?
       case Crash => true
  }

  ghost function Do(g: Geometry, s: State, step: Step): State
    requires Enabled(g, s, step)
  {
    match step
    case BeginOp(op) => s.(ops := s.ops[op := 0], hist := s.hist + [Began(op)])
    case LogTest(op) => s.(passed := s.passed + {op})
    case LogAppend(op, b, data) =>
      var t := s.(cache := s.cache[b := data], passed := s.passed - {op}, hist := s.hist + [Wrote(op, b, data)]);
      if b in s.lh then t
      else t.(lh := s.lh + [b], ops := s.ops[op := s.ops[op] + 1])
    case EndOp(op) =>
      var t := s.(ops := s.ops - {op}, hist := s.hist + [Ended(op)]);
      if t.ops != map[] then t
      else if s.lh != [] then t.(stage := Copying(0))
      else t.(stage := Committed, durable := |t.hist|)
    case CopyBlock =>
      s.(disk := s.disk[Slot(g, s.stage.k) := s.cache[s.lh[s.stage.k]]], stage := Copying(s.stage.k + 1),
         spilled := s.spilled || Slot(g, s.stage.k) >= g.start + g.size)
    case WriteHeader =>
      s.(disk := s.disk[g.start := PutHead(s.disk[g.start], s.lh)], stage := Installing(0), durable := |s.hist|)
    case InstallBlock =>
      s.(disk := s.disk[s.lh[s.stage.k] := s.disk[Slot(g, s.stage.k)]],
         stage := if s.stage.Installing? then Installing(s.stage.k + 1) else Recovering(s.stage.k + 1))
    case ClearHeader =>
      s.(disk := s.disk[g.start := PutHead(s.disk[g.start], [])], lh := [],
         stage := if s.stage.Installing? then Committed else Idle)
    case FinishCommit => s.(stage := Idle)
    case Crash =>
      s.(cache := map[], lh := Head(s.disk[g.start]), ops := map[], passed := {}, stage := Recovering(0),
         hist := s.hist[..s.durable])
  }

  lemma AppendDo(g: Geometry, s: State, op: nat, b: nat, data: Block)
    requires Shape(g, s) && s.stage.Idle? && op in s.ops && op in s.passed && Home(g, b)
    requires b !in s.lh ==> s.ops[op] < MAXOPBLOCKS
    ensures Enabled(g, s, LogAppend(op, b, data))
    ensures Do(g, s, LogAppend(op, b, data)) ==
            State(s.disk, s.cache[b := data], if b in s.lh then s.lh else s.lh + [b],
                  if b in s.lh then s.ops else s.ops[op := s.ops[op] + 1], s.passed - {op}, s.stage,
                  s.hist + [Wrote(op, b, data)], s.durable, s.spilled)
  {
  }

  lemma EndDo(g: Geometry, s: State, op: nat)
    requires Shape(g, s) && s.stage.Idle? && op in s.ops && op !in s.passed
    ensures Enabled(g, s, EndOp(op))
    ensures var ops, hist := s.ops - {op}, s.hist + [Ended(op)];
            Do(g, s, EndOp(op)) ==
            State(s.disk, s.cache, s.lh, ops, s.passed,
                  if ops != map[] then Idle else if s.lh != [] then Copying(0) else Committed,
                  hist, if ops == map[] && s.lh == [] then |hist| else s.durable, s.spilled)
  {
  }

  /** Power-on: any disk with a well-formed header; the history starts from what it shows. */
  ghost predicate Boots(g: Geometry, c0: seq<Block>, s: State) {
    && GeometryOk(g) && |s.disk| == g.blocks && HeadOk(g, s.disk[g.start]) && |Head(s.disk[g.start])| < g.size
    && Shows(g, s.disk, c0)
    && s == State(s.disk, map[], Head(s.disk[g.start]), map[], {}, Recovering(0), [], 0, false)
  }

  /** The steps can be taken one after the other from `s` ... */
  ghost predicate CanRun(g: Geometry, s: State, steps: seq<Step>)
    decreases |steps|, 0
  {
    steps == [] ||
    var n := |steps| - 1;
    CanRun(g, s, steps[..n]) && Enabled(g, After(g, s, steps[..n]), steps[n])
  }

  /** ... and lead here. */
  ghost function After(g: Geometry, s: State, steps: seq<Step>): State
    requires CanRun(g, s, steps)
    decreases |steps|, 1
  {
    if steps == [] then s else
    var n := |steps| - 1;
    Do(g, After(g, s, steps[..n]), steps[n])
  }

  lemma AfterOne(g: Geometry, s: State, steps: seq<Step>, step: Step)
    requires CanRun(g, s, steps) && Enabled(g, After(g, s, steps), step)
    ensures CanRun(g, s, steps + [step]) && After(g, s, steps + [step]) == Do(g, After(g, s, steps), step)
  {
    assert (steps + [step])[..|steps|] == steps;
  }

  ghost predicate Next(g: Geometry, s: State, t: State) {
    exists step :: Enabled(g, s, step) && t == Do(g, s, step)
  }

  /** A run given by its states instead of its steps. */
  ghost predicate IsTrace(g: Geometry, trace: seq<State>) {
    |trace| > 0 && forall i :: 0 <= i < |trace| - 1 ==> Next(g, trace[i], trace[i + 1])
  }

  lemma NextExtends(g: Geometry, s: State, steps: seq<Step>, t: State) returns (step: Step)
    requires CanRun(g, s, steps) && Next(g, After(g, s, steps), t)
    ensures CanRun(g, s, steps + [step]) && After(g, s, steps + [step]) == t
  {
    step :| Enabled(g, After(g, s, steps), step) && t == Do(g, After(g, s, steps), step);
    AfterOne(g, s, steps, step);
  }

  lemma {:induction false} TraceIsRun(g: Geometry, trace: seq<State>) returns (steps: seq<Step>)
    requires IsTrace(g, trace)
    ensures CanRun(g, trace[0], steps) && After(g, trace[0], steps) == trace[|trace| - 1]
    decreases |trace|
  {
    var n := |trace| - 1;
    if n == 0 {
      steps := [];
    } else {
      steps := TraceIsRun(g, trace[..n]);
      assert trace[n] == trace[n - 1 + 1];
      var step := NextExtends(g, trace[0], steps, trace[n]);
      steps := steps + [step];
    }
  }

  // ---- The invariant ----

  /** What an outstanding operation may still add, summed over all of them. */
  ghost function Unused(ops: map<nat, nat>): int
    decreases |ops|
  {
    if ops == map[] then 0 else
    var op :| op in ops;
    MAXOPBLOCKS - ops[op] + Unused(ops - {op})
  }

  /** Header on disk, header in memory and bookkeeping, as each stage leaves them. */
  ghost predicate StageBooks(g: Geometry, s: State)
    requires Shape(g, s)
  {
    var head := Head(s.disk[g.start]);
    match s.stage
    case Idle => head == []
    case Copying(k) => head == [] && s.ops == map[] && s.lh != [] && k <= |s.lh|
    case Installing(k) => head == s.lh && s.ops == map[] && s.durable == |s.hist| && k <= |s.lh|
    case Committed => head == [] && s.ops == map[] && s.lh == [] && s.durable == |s.hist|
    case Recovering(k) =>
      head == s.lh && s.ops == map[] && s.durable == |s.hist| && k <= |s.lh| && s.cache == map[]
  }

  ghost predicate Reserved(s: State) {
    && (forall op :: op in s.ops ==> s.ops[op] <= MAXOPBLOCKS)
    && |s.lh| + Unused(s.ops) <= LOGSIZE
  }

  /** What has been copied, or is being installed, lies in the log area. */
  ghost predicate Inside(g: Geometry, s: State) {
    match s.stage
    case Copying(k) => k < g.size
    case Installing(_) => |s.lh| < g.size
    case Recovering(_) => |s.lh| < g.size
    case _ => true
  }

  /** What holds of the log whatever its size. */
  ghost predicate Books(g: Geometry, s: State) {
    && Shape(g, s)
    && Open(s.hist) == s.ops.Keys
    && Open(s.hist[..s.durable]) == {}
    && s.passed <= s.ops.Keys
    && StageBooks(g, s)
    && (!s.stage.Recovering? ==> Reserved(s))
    && (!s.stage.Recovering? ==> forall i :: 0 <= i < |s.lh| ==> s.lh[i] in s.cache)
    && (!s.spilled ==> Inside(g, s))
    && (g.size == 1 ==> s.passed == {} && s.lh == [] && !s.spilled)
    && (g.size >= LOGSIZE ==> !s.spilled)
  }

  ghost predicate InMemory(g: Geometry, c0: seq<Block>, s: State)
    requires Shape(g, s) && |c0| == g.blocks
  {
    var c := Replay(c0, s.hist);
    && (forall b :: b in s.cache ==> Home(g, b) && s.cache[b] == c[b])
    && (forall b :: Home(g, b) && b !in s.lh ==> s.disk[b] == c[b])
  }

  /** The blocks that the stage has already copied or installed. */
  ghost predicate StageOk(g: Geometry, s: State)
    requires Shape(g, s)
  {
    match s.stage
    case Copying(k) =>
      k <= |s.lh| && forall i :: 0 <= i < k ==> s.lh[i] in s.cache && s.disk[Slot(g, i)] == s.cache[s.lh[i]]
    case Installing(k) => k <= |s.lh| && forall i :: 0 <= i < k ==> s.disk[s.lh[i]] == s.disk[Slot(g, i)]
    case Recovering(k) => k <= |s.lh| && forall i :: 0 <= i < k ==> s.disk[s.lh[i]] == s.disk[Slot(g, i)]
    case _ => true
  }

  /** What the disk and the cache hold, as long as write_log has kept to the log area. */
  ghost predicate Contents(g: Geometry, c0: seq<Block>, s: State)
    requires Shape(g, s)
  {
    && |c0| == g.blocks
    && Shows(g, s.disk, Replay(c0, s.hist[..s.durable]))
    && (!s.stage.Recovering? ==> InMemory(g, c0, s))
    && StageOk(g, s)
  }

  ghost predicate Inv(g: Geometry, c0: seq<Block>, s: State) {
    Books(g, s) && (!s.spilled ==> Contents(g, c0, s))
  }

  lemma BootInv(g: Geometry, c0: seq<Block>, s: State)
    requires Boots(g, c0, s)
    ensures Inv(g, c0, s)
  {
  }

  lemma {:induction false} UnusedAt(ops: map<nat, nat>, op: nat)
    requires op in ops
    ensures Unused(ops) == MAXOPBLOCKS - ops[op] + Unused(ops - {op})
    decreases |ops|
  {
    var first :| first in ops && Unused(ops) == MAXOPBLOCKS - ops[first] + Unused(ops - {first});
    if first != op {
      UnusedAt(ops - {first}, op);
      UnusedAt(ops - {op}, first);
      assert ops - {first} - {op} == ops - {op} - {first};
    }
  }

  lemma {:induction false} UnusedBound(ops: map<nat, nat>)
    ensures Unused(ops) <= |ops| * MAXOPBLOCKS
    ensures (forall op :: op in ops ==> ops[op] <= MAXOPBLOCKS) ==> 0 <= Unused(ops)
    decreases |ops|
  {
    if ops != map[] {
      var op :| op in ops;
      UnusedAt(ops, op);
      UnusedBound(ops - {op});
    }
  }

  lemma UnusedUpdate(ops: map<nat, nat>, op: nat, used: nat)
    ensures op in ops ==> Unused(ops[op := used]) == Unused(ops) + ops[op] - used
    ensures op !in ops ==> Unused(ops[op := used]) == Unused(ops) + MAXOPBLOCKS - used
  {
    UnusedAt(ops[op := used], op);
    assert ops[op := used] - {op} == ops - {op};
    if op in ops { UnusedAt(ops, op); } else { assert ops - {op} == ops; }
  }

  // ---- Every step keeps the books ----

  lemma BeginBooks(g: Geometry, s: State, op: nat)
    requires Books(g, s) && Enabled(g, s, BeginOp(op))
    ensures Books(g, Do(g, s, BeginOp(op)))
  {
    hide LogOk, HeadOk, Unused;
    var t := Do(g, s, BeginOp(op));
    assert t.hist[..|s.hist|] == s.hist && t.hist[..t.durable] == s.hist[..s.durable];
    UnusedUpdate(s.ops, op, 0);
    UnusedBound(s.ops);
  }

  /** An operation with allowance left finds room in the header. */
  lemma RoomLeft(s: State, op: nat)
    requires Reserved(s) && op in s.ops
    ensures s.ops[op] < MAXOPBLOCKS ==> |s.lh| < LOGSIZE
  {
    UnusedAt(s.ops, op);
    UnusedBound(s.ops - {op});
  }

  lemma AppendBooks(g: Geometry, s: State, op: nat, b: nat, data: Block)
    requires Books(g, s) && Enabled(g, s, LogAppend(op, b, data))
    ensures Books(g, Do(g, s, LogAppend(op, b, data)))
  {
    hide HeadOk, Unused;
    var t := Do(g, s, LogAppend(op, b, data));
    assert t.hist[..|s.hist|] == s.hist && t.hist[..t.durable] == s.hist[..s.durable];
    UnusedUpdate(s.ops, op, s.ops[op] + 1);
    RoomLeft(s, op);
  }

  lemma EndBooks(g: Geometry, s: State, op: nat)
    requires Books(g, s) && Enabled(g, s, EndOp(op))
    ensures Books(g, Do(g, s, EndOp(op)))
  {
    hide LogOk, HeadOk, Unused;
    var t := Do(g, s, EndOp(op));
    assert t.hist[..|s.hist|] == s.hist && t.hist[..s.durable] == s.hist[..s.durable];
    UnusedAt(s.ops, op);
    if t.ops == map[] {
      assert t.ops.Keys == {};
      assert t.hist[..|t.hist|] == t.hist;
    }
  }

  lemma UnusedNone()
    ensures Unused(map[]) == 0
  {
  }

  lemma CommitBooks(g: Geometry, s: State, step: Step)
    requires Books(g, s) && Enabled(g, s, step)
    requires step.CopyBlock? || step.WriteHeader? || step.InstallBlock? || step.ClearHeader?
    ensures Books(g, Do(g, s, step))
  {
    hide Unused;
    var t := Do(g, s, step);
    assert t.hist[..|s.hist|] == s.hist;
    UnusedNone();
  }

  lemma CrashBooks(g: Geometry, s: State)
    requires Books(g, s) && Enabled(g, s, Crash)
    ensures Books(g, Do(g, s, Crash))
  {
    hide Unused;
    var t := Do(g, s, Crash);
    assert t.hist[..t.durable] == t.hist;
  }

  lemma StepBooks(g: Geometry, s: State, step: Step)
    requires Books(g, s) && Enabled(g, s, step)
    ensures Books(g, Do(g, s, step))
  {
    match step
    case BeginOp(op) => BeginBooks(g, s, op);
    case LogTest(op) =>
    case LogAppend(op, b, data) => AppendBooks(g, s, op, b, data);
    case EndOp(op) => EndBooks(g, s, op);
    case CopyBlock => CommitBooks(g, s, step);
    case WriteHeader => CommitBooks(g, s, step);
    case InstallBlock => CommitBooks(g, s, step);
    case ClearHeader => CommitBooks(g, s, step);
    case FinishCommit =>
    case Crash => CrashBooks(g, s);
  }

  // ---- Every step keeps the contents, unless the log spills ----

  lemma BeginContents(g: Geometry, c0: seq<Block>, s: State, op: nat)
    requires Books(g, s) && Contents(g, c0, s) && Enabled(g, s, BeginOp(op))
    ensures Shape(g, Do(g, s, BeginOp(op))) && Contents(g, c0, Do(g, s, BeginOp(op)))
  {
    hide LogOk, HeadOk, Unused, Reserved, Shows;
    var t := Do(g, s, BeginOp(op));
    assert t.hist[..|s.hist|] == s.hist && t.hist[..t.durable] == s.hist[..s.durable];
  }

  lemma AppendContents(g: Geometry, c0: seq<Block>, s: State, op: nat, b: nat, data: Block)
    requires Books(g, s) && Contents(g, c0, s) && Enabled(g, s, LogAppend(op, b, data))
    requires Shape(g, Do(g, s, LogAppend(op, b, data)))
    ensures Contents(g, c0, Do(g, s, LogAppend(op, b, data)))
  {
    hide LogOk, HeadOk, Unused, Reserved, Shows, Open;
    var t := Do(g, s, LogAppend(op, b, data));
    assert t.hist[..|s.hist|] == s.hist && t.hist[..t.durable] == s.hist[..s.durable];
    assert Replay(c0, t.hist) == Replay(c0, s.hist)[b := data];
    if b !in s.lh { assert t.lh[|s.lh|] == b; }
  }

  /** With an empty log the disk itself shows the whole history. */
  lemma EmptyShows(g: Geometry, c0: seq<Block>, s: State)
    requires Shape(g, s) && |c0| == g.blocks && InMemory(g, c0, s) && s.lh == [] && Head(s.disk[g.start]) == []
    ensures Shows(g, s.disk, Replay(c0, s.hist))
  {
  }

  lemma MemorySame(g: Geometry, c0: seq<Block>, s: State, t: State)
    requires Shape(g, s) && Shape(g, t) && |c0| == g.blocks && InMemory(g, c0, s)
    requires t.disk == s.disk && t.cache == s.cache && t.lh == s.lh && Replay(c0, t.hist) == Replay(c0, s.hist)
    ensures InMemory(g, c0, t)
  {
  }

  lemma EndContents(g: Geometry, c0: seq<Block>, s: State, op: nat)
    requires Books(g, s) && Contents(g, c0, s) && Enabled(g, s, EndOp(op)) && Shape(g, Do(g, s, EndOp(op)))
    ensures Contents(g, c0, Do(g, s, EndOp(op)))
  {
    hide LogOk, HeadOk, Unused, Reserved, Open, Shows, InMemory;
    var t := Do(g, s, EndOp(op));
    assert t.hist[..|s.hist|] == s.hist && t.hist[..s.durable] == s.hist[..s.durable];
    assert Replay(c0, t.hist) == Replay(c0, s.hist);
    MemorySame(g, c0, s, t);
    if s.lh == [] { EmptyShows(g, c0, s); }
    assert t.hist[..|t.hist|] == t.hist;
  }

  lemma CopyContents(g: Geometry, c0: seq<Block>, s: State)
    requires Books(g, s) && Contents(g, c0, s) && Enabled(g, s, CopyBlock) && s.stage.k + 1 < g.size
    requires Shape(g, Do(g, s, CopyBlock))
    ensures Contents(g, c0, Do(g, s, CopyBlock))
  {
    hide Unused, Reserved, Open;
  }

  lemma HeaderContents(g: Geometry, c0: seq<Block>, s: State)
    requires Books(g, s) && Contents(g, c0, s) && Enabled(g, s, WriteHeader) && |s.lh| < g.size
    requires Shape(g, Do(g, s, WriteHeader))
    ensures Contents(g, c0, Do(g, s, WriteHeader))
  {
    hide Unused, Reserved, Open;
    var t := Do(g, s, WriteHeader);
    assert t.hist[..t.durable] == s.hist;
  }

  lemma InstallShows(g: Geometry, s: State, c: seq<Block>)
    requires Enabled(g, s, InstallBlock) && Head(s.disk[g.start]) == s.lh && |s.lh| < g.size && Shows(g, s.disk, c)
    ensures Shape(g, Do(g, s, InstallBlock)) && Shows(g, Do(g, s, InstallBlock).disk, c)
  {
  }

  lemma InstallStage(g: Geometry, s: State)
    requires Enabled(g, s, InstallBlock) && StageOk(g, s) && |s.lh| < g.size && Shape(g, Do(g, s, InstallBlock))
    ensures StageOk(g, Do(g, s, InstallBlock))
  {
    var t := Do(g, s, InstallBlock);
    forall i | 0 <= i < t.stage.k
      ensures t.disk[s.lh[i]] == t.disk[Slot(g, i)]
    {
      assert s.lh[i] == s.lh[s.stage.k] ==> i == s.stage.k;
    }
  }

  lemma InstallMemory(g: Geometry, c0: seq<Block>, s: State)
    requires Enabled(g, s, InstallBlock) && |c0| == g.blocks && InMemory(g, c0, s)
    requires Shape(g, Do(g, s, InstallBlock))
    ensures InMemory(g, c0, Do(g, s, InstallBlock))
  {
    var t := Do(g, s, InstallBlock);
    assert forall b :: Home(g, b) && b !in s.lh ==> t.disk[b] == s.disk[b];
  }

  lemma ClearContents(g: Geometry, c0: seq<Block>, s: State)
    requires Books(g, s) && Contents(g, c0, s) && Enabled(g, s, ClearHeader) && Shape(g, Do(g, s, ClearHeader))
    ensures Contents(g, c0, Do(g, s, ClearHeader))
  {
    hide Unused, Reserved, Open;
    var t := Do(g, s, ClearHeader);
    assert s.hist[..s.durable] == s.hist;
    var c := Replay(c0, s.hist);
    forall b | Home(g, b)
      ensures t.disk[b] == c[b]
    {
      if b in s.lh {
        var i :| 0 <= i < |s.lh| && s.lh[i] == b;
      }
    }
  }

  lemma CrashContents(g: Geometry, c0: seq<Block>, s: State)
    requires Books(g, s) && Contents(g, c0, s) && Enabled(g, s, Crash) && Shape(g, Do(g, s, Crash))
    ensures Contents(g, c0, Do(g, s, Crash))
  {
    hide Unused, Reserved, Open;
    var t := Do(g, s, Crash);
    assert t.hist[..t.durable] == t.hist;
  }

  lemma StepContents(g: Geometry, c0: seq<Block>, s: State, step: Step)
    requires Books(g, s) && Contents(g, c0, s) && Enabled(g, s, step)
    requires Books(g, Do(g, s, step)) && !Do(g, s, step).spilled
    ensures Contents(g, c0, Do(g, s, step))
  {
    match step
    case BeginOp(op) => BeginContents(g, c0, s, op);
    case LogTest(op) =>
    case LogAppend(op, b, data) => AppendContents(g, c0, s, op, b, data);
    case EndOp(op) => EndContents(g, c0, s, op);
    case CopyBlock => CopyContents(g, c0, s);
    case WriteHeader => HeaderContents(g, c0, s);
    case InstallBlock =>
      InstallShows(g, s, Replay(c0, s.hist[..s.durable]));
      InstallStage(g, s);
      if !s.stage.Recovering? { InstallMemory(g, c0, s); }
    case ClearHeader => ClearContents(g, c0, s);
    case FinishCommit =>
    case Crash => CrashContents(g, c0, s);
  }

  lemma StaysSpilled(g: Geometry, s: State, step: Step)
    requires Enabled(g, s, step)
    ensures s.spilled ==> Do(g, s, step).spilled
  {
  }

  lemma StepKeeps(g: Geometry, c0: seq<Block>, s: State, step: Step)
    requires Inv(g, c0, s) && Enabled(g, s, step)
    ensures Inv(g, c0, Do(g, s, step))
  {
    StepBooks(g, s, step);
    StaysSpilled(g, s, step);
    if !Do(g, s, step).spilled { StepContents(g, c0, s, step); }
    hide Books, Contents;
  }

  lemma {:induction false} RunKeeps(g: Geometry, c0: seq<Block>, s: State, steps: seq<Step>)
    requires Inv(g, c0, s) && CanRun(g, s, steps)
    ensures Inv(g, c0, After(g, s, steps))
    decreases |steps|
  {
    hide Inv;
    if steps != [] {
      var n := |steps| - 1;
      RunKeeps(g, c0, s, steps[..n]);
      StepKeeps(g, c0, After(g, s, steps[..n]), steps[n]);
    }
  }

  lemma TraceInv(g: Geometry, c0: seq<Block>, trace: seq<State>)
    requires IsTrace(g, trace) && Boots(g, c0, trace[0])
    ensures Inv(g, c0, trace[|trace| - 1])
  {
    var steps := TraceIsRun(g, trace);
    BootInv(g, c0, trace[0]);
    RunKeeps(g, c0, trace[0], steps);
  }

  lemma TraceGrows(g: Geometry, c0: seq<Block>, trace: seq<State>, step: Step)
    requires IsTrace(g, trace) && Boots(g, c0, trace[0]) && Enabled(g, trace[|trace| - 1], step)
    ensures IsTrace(g, trace + [Do(g, trace[|trace| - 1], step)])
    ensures Shape(g, Do(g, trace[|trace| - 1], step))
  {
    assert Next(g, trace[|trace| - 1], Do(g, trace[|trace| - 1], step));
    TraceInv(g, c0, trace);
    StepKeeps(g, c0, trace[|trace| - 1], step);
  }

  // ---- Crash atomicity ----

  /** `s` is reached by some run that starts with a power-on showing `c0`. */
  ghost predicate Reachable(g: Geometry, c0: seq<Block>, s: State) {
    exists boot, steps :: Boots(g, c0, boot) && CanRun(g, boot, steps) && After(g, boot, steps) == s
  }

  lemma ReachableInv(g: Geometry, c0: seq<Block>, s: State)
    requires Reachable(g, c0, s)
    ensures Inv(g, c0, s)
  {
    var boot, steps :| Boots(g, c0, boot) && CanRun(g, boot, steps) && After(g, boot, steps) == s;
    BootInv(g, c0, boot);
    RunKeeps(g, c0, boot, steps);
  }

  /** The disk, after recovery, would show the effect of the durable history, which is whole operations. */
  ghost predicate Atomic(g: Geometry, c0: seq<Block>, s: State) {
    && Shape(g, s) && |c0| == g.blocks
    && Open(s.hist[..s.durable]) == {}
    && Shows(g, s.disk, Replay(c0, s.hist[..s.durable]))
    && (s.stage.Committed? ==> s.durable == |s.hist| && SameHome(g, s.disk, Replay(c0, s.hist)))
  }

  /** The sizes for which write_log cannot leave the log area: mkfs makes it equal to LOGSIZE. */
  predicate Safe(g: Geometry) {
    g.size >= LOGSIZE || g.size == 1
  }

  /** In every run, with crashes anywhere, what the disk would show after recovery is the effect of a prefix of
      the history in which every operation that began has also ended.  For a log smaller than LOGSIZE this asks that
      write_log has kept to the log area; AtomicIff says that smaller logs need it. */
  lemma CrashAtomicity(g: Geometry, c0: seq<Block>, s: State)
    requires Reachable(g, c0, s) && (Safe(g) || !s.spilled)
    ensures Atomic(g, c0, s)
  {
    ReachableInv(g, c0, s);
    hide Reachable;
    assert s.hist[..|s.hist|] == s.hist;
  }

  /** A crash, then recovery, itself cut short by further crashes any number of times. */
  ghost predicate OnlyRecovers(steps: seq<Step>) {
    && 0 < |steps| && steps[0].Crash?
    && forall i :: 0 <= i < |steps| ==> steps[i].Crash? || steps[i].InstallBlock? || steps[i].ClearHeader?
  }

  lemma {:induction false} RecoveryRun(g: Geometry, c0: seq<Block>, s: State, more: seq<Step>)
    requires Inv(g, c0, s) && OnlyRecovers(more) && CanRun(g, s, more)
    ensures var t := After(g, s, more);
            && Inv(g, c0, t) && t.hist == s.hist[..s.durable] && t.durable == |t.hist| && t.spilled == s.spilled
            && (t.stage.Recovering? || (t.stage.Idle? && t.lh == []))
    decreases |more|
  {
    hide Contents, Reserved, LogOk, HeadOk;
    var n := |more| - 1;
    var m := After(g, s, more[..n]);
    if n > 0 {
      RecoveryRun(g, c0, s, more[..n]);
      assert m.hist[..|m.hist|] == m.hist;
    }
    StepKeeps(g, c0, m, more[n]);
  }

  /** From any reachable state: crash, and recover with any number of further crashes between block writes.
      Whenever recovery gets to its end, the home blocks are those after the interrupted transaction if its
      header had reached the disk, and otherwise those before it. */
  lemma RecoveryOutcome(g: Geometry, c0: seq<Block>, s: State, more: seq<Step>)
    requires Reachable(g, c0, s) && (Safe(g) || !s.spilled) && OnlyRecovers(more) && CanRun(g, s, more)
    requires After(g, s, more).stage.Idle?
    ensures s.durable <= |s.hist|
    ensures var t := After(g, s, more);
            && SameHome(g, t.disk, Replay(c0, if s.stage.Installing? then s.hist else s.hist[..s.durable]))
            && t.hist == (if s.stage.Installing? then s.hist else s.hist[..s.durable])
  {
    ReachableInv(g, c0, s);
    RecoveryRun(g, c0, s, more);
    var t := After(g, s, more);
    hide CanRun, After, Reachable;
    assert s.hist[..|s.hist|] == s.hist && t.hist[..|t.hist|] == t.hist;
  }

  // ---- Group commit ----

  /** The header write is the only step that makes more history durable (besides ending a group that
      wrote nothing); it does so for whole operations only. */
  lemma CommitPoint(g: Geometry, c0: seq<Block>, s: State, step: Step)
    requires Reachable(g, c0, s) && Enabled(g, s, step)
    ensures var t := Do(g, s, step);
            && t.durable <= |t.hist|
            && (step.WriteHeader? ==> t.hist[..t.durable] == s.hist && Open(s.hist) == {})
            && (!step.WriteHeader? && !(step.EndOp? && s.lh == []) ==> t.hist[..t.durable] == s.hist[..s.durable])
  {
    ReachableInv(g, c0, s);
    hide Reachable, Contents, Reserved, LogOk, HeadOk, Replay;
    assert s.hist[..|s.hist|] == s.hist;
    if step.Crash? {
      assert s.hist[..s.durable][..s.durable] == s.hist[..s.durable];
    }
  }

  lemma DiskStep(g: Geometry, s: State, step: Step)
    requires Enabled(g, s, step) && !step.InstallBlock? && (step.CopyBlock? ==> s.stage.k + 1 < g.size)
    ensures SameHome(g, s.disk, Do(g, s, step).disk)
  {
    hide LogOk, HeadOk;
    var t := Do(g, s, step);
    forall b | Home(g, b)
      ensures t.disk[b] == s.disk[b]
    {
    }
  }

  lemma HomeStep(g: Geometry, s: State, step: Step)
    requires Books(g, s) && Enabled(g, s, step) && !Do(g, s, step).spilled
    ensures SameHome(g, s.disk, Do(g, s, step).disk) || step.InstallBlock?
  {
    hide Reserved, Open, SameHome, LogOk, HeadOk, Unused;
    if !step.InstallBlock? { DiskStep(g, s, step); }
  }

  /** committing implies no outstanding operation, so end_op's panic is unreachable; and a home block changes on disk
      only when every operation in the history has ended, in a log smaller than LOGSIZE as long as write_log keeps to
      the log area. */
  lemma HomeWritesWait(g: Geometry, c0: seq<Block>, s: State, step: Step)
    requires Reachable(g, c0, s) && Enabled(g, s, step)
    ensures IsCommitting(s) ==> s.ops == map[]
    ensures (Safe(g) || !Do(g, s, step).spilled) && !SameHome(g, s.disk, Do(g, s, step).disk) ==>
              s.ops == map[] && Open(s.hist) == {} && s.durable == |s.hist|
  {
    ReachableInv(g, c0, s);
    hide Reachable, Contents, Reserved, SameHome;
    StepBooks(g, s, step);
    if !Do(g, s, step).spilled { HomeStep(g, s, step); }
    assert s.stage.Installing? || s.stage.Recovering? ==> Open(s.hist) == {} && s.durable == |s.hist|;
  }

  // ---- Log reservation ----

  /** Blocks logged plus what outstanding operations may still add never exceed LOGSIZE; so an operation
      within its allowance finds room, and with log.size > LOGSIZE only a full log with no allowance left
      anywhere makes log_write panic. */
  lemma Reservation(g: Geometry, c0: seq<Block>, s: State)
    requires Reachable(g, c0, s) && !s.stage.Recovering?
    ensures |s.lh| + Unused(s.ops) <= LOGSIZE
    ensures forall op :: op in s.ops && s.ops[op] < MAXOPBLOCKS ==> |s.lh| < LOGSIZE
    ensures g.size > LOGSIZE && LogWritePanics(g, s) ==> |s.lh| == LOGSIZE && Unused(s.ops) == 0
  {
    ReachableInv(g, c0, s);
    hide Reachable, Contents, Unused;
    UnusedBound(s.ops);
    forall op | op in s.ops && s.ops[op] < MAXOPBLOCKS
      ensures |s.lh| < LOGSIZE
    {
      RoomLeft(s, op);
    }
  }

  // ---- When the panic in log_write is out of reach ----

  ghost predicate HasAllowance(s: State, op: nat) {
    s.stage.Idle? && op in s.ops && s.ops[op] < MAXOPBLOCKS
  }

  /** No run makes log_write panic for an operation that has allowance left. */
  ghost predicate NeverTooBig(g: Geometry) {
    forall c0, s, op :: Reachable(g, c0, s) && HasAllowance(s, op) ==> !LogWritePanics(g, s)
  }

  /** The number of the first k blocks that fall to operation j when three write in turn. */
  function Share(k: nat, j: nat): nat
    requires j < 3
  {
    (k + 2 - j) / 3
  }

  function Zeroes(): Block {
    seq(WORDS, i => 0)
  }

  function Ones(): Block {
    seq(WORDS, i => 1)
  }

  ghost function FreshBoot(g: Geometry): State {
    State(seq(g.blocks, i => Zeroes()), map[], [], map[], {}, Recovering(0), [], 0, false)
  }

  /** There is room for a full group of blocks behind the log area. */
  ghost predicate Ample(g: Geometry) {
    GeometryOk(g) && g.start + g.size + 1 + LOGSIZE <= g.blocks
  }

  function Mark(g: Geometry, i: nat): nat {
    g.start + g.size + 1 + i
  }

  /** Three operations have logged k blocks of ones between them, k that follow the first behind the log area; the disk
      is as it was. */
  ghost predicate Filled(g: Geometry, k: nat, passed: set<nat>, s: State) {
    && Shape(g, s) && s.stage.Idle? && s.passed == passed && s.durable == 0
    && |s.lh| == k && (forall i :: 0 <= i < k ==> s.lh[i] == Mark(g, i) && s.lh[i] in s.cache && s.cache[s.lh[i]] == Ones())
    && s.ops == map[0 := Share(k, 0), 1 := Share(k, 1), 2 := Share(k, 2)]
    && s.disk == FreshBoot(g).disk
  }

  lemma FreshBoots(g: Geometry)
    requires GeometryOk(g)
    ensures Boots(g, FreshBoot(g).disk, FreshBoot(g))
  {
    assert Head(Zeroes()) == [];
  }

  lemma ClearFresh(g: Geometry, s: State)
    requires GeometryOk(g) && s == FreshBoot(g)
    ensures Enabled(g, s, ClearHeader)
    ensures var t := Do(g, s, ClearHeader);
            && Shape(g, t) && t.stage.Idle? && t.lh == [] && t.ops == map[] && t.passed == {} && t.durable == 0
            && t.disk == s.disk
  {
    assert Head(Zeroes()) == [];
    assert PutHead(Zeroes(), []) == Zeroes();
  }

  lemma BeginOnEmptyLog(g: Geometry, s: State, op: nat)
    requires Shape(g, s) && s.stage.Idle? && s.lh == [] && |s.ops| < 3 && op !in s.ops
    ensures Enabled(g, s, BeginOp(op))
    ensures var t := Do(g, s, BeginOp(op));
            && Shape(g, t) && t.stage.Idle? && t.lh == [] && t.ops == s.ops[op := 0] && |t.ops| == |s.ops| + 1
            && t.passed == s.passed && t.disk == s.disk && t.durable == s.durable
  {
  }

  lemma FillStart(g: Geometry) returns (run: seq<Step>)
    requires GeometryOk(g)
    ensures CanRun(g, FreshBoot(g), run) && Filled(g, 0, {}, After(g, FreshBoot(g), run))
  {
    hide Enabled, Do, Shape, FreshBoot, Home;
    var s := FreshBoot(g);
    ClearFresh(g, s);
    AfterOne(g, s, [], ClearHeader);
    run := [] + [ClearHeader];
    hide CanRun, After;
    BeginOnEmptyLog(g, After(g, s, run), 0);
    AfterOne(g, s, run, BeginOp(0));
    run := run + [BeginOp(0)];
    BeginOnEmptyLog(g, After(g, s, run), 1);
    AfterOne(g, s, run, BeginOp(1));
    run := run + [BeginOp(1)];
    BeginOnEmptyLog(g, After(g, s, run), 2);
    AfterOne(g, s, run, BeginOp(2));
    run := run + [BeginOp(2)];
  }

  lemma TestOne(g: Geometry, k: nat, passed: set<nat>, s: State, op: nat)
    requires Filled(g, k, passed, s) && op < 3 && op !in passed && k < LOGSIZE && k + 1 < g.size
    ensures Enabled(g, s, LogTest(op)) && Filled(g, k, passed + {op}, Do(g, s, LogTest(op)))
  {
    hide HeadOk, LogOk;
  }

  lemma Shares(k: nat)
    requires k < LOGSIZE
    ensures Share(k, k % 3) < MAXOPBLOCKS
    ensures map[0 := Share(k, 0), 1 := Share(k, 1), 2 := Share(k, 2)][k % 3 := Share(k, k % 3) + 1] ==
            map[0 := Share(k + 1, 0), 1 := Share(k + 1, 1), 2 := Share(k + 1, 2)]
  {
  }

  /** Operation k % 3 appends the k-th block; it need not find room in the log area any more. */
  lemma AppendOne(g: Geometry, k: nat, passed: set<nat>, s: State)
    requires Filled(g, k, passed, s) && k % 3 in passed && k < LOGSIZE && Ample(g)
    ensures Enabled(g, s, LogAppend(k % 3, Mark(g, k), Ones()))
    ensures Filled(g, k + 1, passed - {k % 3}, Do(g, s, LogAppend(k % 3, Mark(g, k), Ones())))
  {
    hide HeadOk, Share, Enabled, Do, Ones, FreshBoot;
    var op := k % 3;
    assert op in {0, 1, 2};
    Shares(k);
    assert Mark(g, k) !in s.lh && s.ops[op] == Share(k, op);
    AppendDo(g, s, op, Mark(g, k), Ones());
  }

  /** A run that has filled k blocks goes on with one more test. */
  lemma GoTest(g: Geometry, k: nat, passed: set<nat>, steps: seq<Step>, op: nat) returns (run: seq<Step>)
    requires CanRun(g, FreshBoot(g), steps) && Filled(g, k, passed, After(g, FreshBoot(g), steps))
    requires op < 3 && op !in passed && k < LOGSIZE && k + 1 < g.size
    ensures CanRun(g, FreshBoot(g), run) && Filled(g, k, passed + {op}, After(g, FreshBoot(g), run))
  {
    hide Filled, CanRun, After, Enabled, Do;
    TestOne(g, k, passed, After(g, FreshBoot(g), steps), op);
    AfterOne(g, FreshBoot(g), steps, LogTest(op));
    run := steps + [LogTest(op)];
  }

  lemma GoAppend(g: Geometry, k: nat, passed: set<nat>, steps: seq<Step>) returns (run: seq<Step>)
    requires CanRun(g, FreshBoot(g), steps) && Filled(g, k, passed, After(g, FreshBoot(g), steps))
    requires k % 3 in passed && k < LOGSIZE && Ample(g)
    ensures CanRun(g, FreshBoot(g), run) && Filled(g, k + 1, passed - {k % 3}, After(g, FreshBoot(g), run))
  {
    hide Filled, CanRun, After, Enabled, Do;
    var step := LogAppend(k % 3, Mark(g, k), Ones());
    AppendOne(g, k, passed, After(g, FreshBoot(g), steps));
    AfterOne(g, FreshBoot(g), steps, step);
    run := steps + [step];
  }

  lemma {:induction false} FillRun(g: Geometry, k: nat) returns (run: seq<Step>)
    requires Ample(g) && k <= LOGSIZE && k < g.size
    ensures CanRun(g, FreshBoot(g), run) && Filled(g, k, {}, After(g, FreshBoot(g), run))
  {
    hide Filled, CanRun, After, FreshBoot;
    if k == 0 {
      run := FillStart(g);
    } else {
      run := FillRun(g, k - 1);
      run := GoTest(g, k - 1, {}, run, (k - 1) % 3);
      run := GoAppend(g, k - 1, {} + {(k - 1) % 3}, run);
      assert {} + {(k - 1) % 3} - {(k - 1) % 3} == {};
    }
  }

  lemma ReachedBy(g: Geometry, steps: seq<Step>)
    requires GeometryOk(g) && CanRun(g, FreshBoot(g), steps)
    ensures Reachable(g, FreshBoot(g).disk, After(g, FreshBoot(g), steps))
  {
    FreshBoots(g);
    hide Boots, CanRun, After;
  }

  /** log_write never stops an operation that stays within its allowance, if and only if log.size exceeds
      LOGSIZE.  mkfs makes log.size equal to LOGSIZE, so on its images the panic can be reached. */
  lemma NoPanicIff(g: Geometry)
    requires Ample(g)
    ensures NeverTooBig(g) <==> g.size > LOGSIZE
  {
    if g.size > LOGSIZE {
      forall c0, s, op | Reachable(g, c0, s) && HasAllowance(s, op)
        ensures !LogWritePanics(g, s)
      {
        Reservation(g, c0, s);
      }
    } else {
      hide CanRun, After, Reachable;
      var steps := FillRun(g, g.size - 1);
      ReachedBy(g, steps);
      var t := After(g, FreshBoot(g), steps);
      assert HasAllowance(t, 2) && LogWritePanics(g, t);
    }
  }

  lemma FilledFull(g: Geometry, s: State)
    requires Filled(g, LOGSIZE, {}, s)
    ensures s.stage.Idle? && 2 in s.ops && Mark(g, 0) in s.lh && LogWritePanics(g, s)
  {
    hide HeadOk, LogOk;
    assert s.lh[0] == Mark(g, 0);
  }

  /** Absorption does not help a full log: the size test comes first, so when three operations have used
      their whole allowance, writing an already logged block once more panics, whatever log.size is. */
  lemma FullLogStopsAbsorbedWrite(g: Geometry)
    requires Ample(g) && g.size > LOGSIZE
    ensures exists c0, s :: Reachable(g, c0, s) && s.stage.Idle? && 2 in s.ops &&
                            Mark(g, 0) in s.lh && LogWritePanics(g, s)
  {
    hide CanRun, After, Filled, Reachable;
    var steps := FillRun(g, LOGSIZE);
    ReachedBy(g, steps);
    FilledFull(g, After(g, FreshBoot(g), steps));
  }

  // ---- When the log keeps to its area ----

  /** No interleaving of log_write calls can make the log outgrow its area. */
  predicate Roomy(g: Geometry) {
    g.size > LOGSIZE || g.size == 1
  }

  /** The log never has more entries than its area has slots. */
  ghost predicate EntriesFit(g: Geometry) {
    forall c0, s :: Reachable(g, c0, s) ==> |s.lh| < g.size
  }

  /** write_log never writes behind the log area. */
  ghost predicate CopiesStay(g: Geometry) {
    forall c0, s :: Reachable(g, c0, s) && Enabled(g, s, CopyBlock) ==> Slot(g, s.stage.k) < g.start + g.size
  }

  ghost predicate AlwaysAtomic(g: Geometry) {
    forall c0, s :: Reachable(g, c0, s) ==> Atomic(g, c0, s)
  }

  /** No home block changes on disk while an operation is open or history is not durable. */
  ghost predicate HomesWait(g: Geometry) {
    forall c0, s, step :: Reachable(g, c0, s) && Enabled(g, s, step) && !SameHome(g, s.disk, Do(g, s, step).disk) ==>
      Open(s.hist) == {} && s.durable == |s.hist|
  }

  lemma RoomyFits(g: Geometry)
    requires Roomy(g)
    ensures EntriesFit(g)
  {
    forall c0, s | Reachable(g, c0, s)
      ensures |s.lh| < g.size
    {
      ReachableInv(g, c0, s);
      hide Reachable, Contents;
    }
  }

  lemma CopyInside(g: Geometry, s: State)
    requires Enabled(g, s, CopyBlock) && Safe(g) && (g.size == 1 ==> s.lh == [])
    ensures s.stage.Copying? && Slot(g, s.stage.k) < g.start + g.size
  {
  }

  lemma SafeKeeps(g: Geometry)
    requires Safe(g)
    ensures CopiesStay(g) && AlwaysAtomic(g) && HomesWait(g)
  {
    hide Atomic, SameHome, Reachable;
    forall c0, s | Reachable(g, c0, s)
      ensures Atomic(g, c0, s) && (g.size == 1 ==> s.lh == [])
    {
      ReachableInv(g, c0, s);
      CrashAtomicity(g, c0, s);
    }
    forall c0, s | Reachable(g, c0, s) && Enabled(g, s, CopyBlock)
      ensures Slot(g, s.stage.k) < g.start + g.size
    {
      CopyInside(g, s);
    }
    forall c0, s, step | Reachable(g, c0, s) && Enabled(g, s, step) && !SameHome(g, s.disk, Do(g, s, step).disk)
      ensures Open(s.hist) == {} && s.durable == |s.hist|
    {
      HomeWritesWait(g, c0, s, step);
    }
  }

  /** Two operations pass the test when one more block would fit, and both append. */
  lemma Overfill(g: Geometry) returns (run: seq<Step>)
    requires Ample(g) && 2 <= g.size <= LOGSIZE
    ensures CanRun(g, FreshBoot(g), run) && Filled(g, g.size, {}, After(g, FreshBoot(g), run))
  {
    hide Filled, CanRun, After;
    var k := g.size - 2;
    var a, b := k % 3, (k + 1) % 3;
    assert a != b;
    run := FillRun(g, k);
    run := GoTest(g, k, {}, run, a);
    run := GoTest(g, k, {} + {a}, run, b);
    run := GoAppend(g, k, {} + {a} + {b}, run);
    run := GoAppend(g, k + 1, {} + {a} + {b} - {a}, run);
    assert {} + {a} + {b} - {a} - {b} == {};
  }

  /** The commit of n blocks of ones: the first k are in their slots, nothing is durable. */
  ghost predicate Copied(g: Geometry, n: nat, k: nat, s: State) {
    && Shape(g, s) && s.stage == Copying(k) && s.durable == 0 < |s.hist| && |s.lh| == n
    && (forall i :: 0 <= i < n ==> s.lh[i] == Mark(g, i) && s.lh[i] in s.cache && s.cache[s.lh[i]] == Ones())
    && (forall b :: 0 <= b < g.blocks && !(g.start < b <= g.start + k) ==> s.disk[b] == Zeroes())
  }

  lemma EndOne(g: Geometry, s: State, op: nat)
    requires Shape(g, s) && s.stage.Idle? && op in s.ops && s.passed == {} && s.lh != []
    requires forall i :: 0 <= i < |s.lh| ==> s.lh[i] in s.cache
    ensures Enabled(g, s, EndOp(op))
    ensures var t := Do(g, s, EndOp(op));
            && Shape(g, t) && t.ops == s.ops - {op} && t.stage == (if t.ops == map[] then Copying(0) else Idle)
            && t.(ops := s.ops, stage := s.stage, hist := s.hist) == s && |t.hist| > 0
  {
    hide HeadOk, LogOk;
  }

  lemma EndAll(g: Geometry, n: nat, steps: seq<Step>) returns (run: seq<Step>)
    requires GeometryOk(g) && n >= 1 && CanRun(g, FreshBoot(g), steps)
    requires Filled(g, n, {}, After(g, FreshBoot(g), steps))
    ensures CanRun(g, FreshBoot(g), run) && Copied(g, n, 0, After(g, FreshBoot(g), run))
  {
    hide CanRun, After, HeadOk, LogOk;
    var s := FreshBoot(g);
    var u := After(g, s, steps);
    EndOne(g, u, 0);
    AfterOne(g, s, steps, EndOp(0));
    run := steps + [EndOp(0)];
    var v := After(g, s, run);
    assert 1 in v.ops;
    EndOne(g, v, 1);
    AfterOne(g, s, run, EndOp(1));
    run := run + [EndOp(1)];
    var w := After(g, s, run);
    assert 2 in w.ops;
    EndOne(g, w, 2);
    AfterOne(g, s, run, EndOp(2));
    run := run + [EndOp(2)];
    assert w.ops - {2} == map[];
  }

  /** A run to a group of n blocks about to commit; n may be one more than fit into the log area. */
  lemma GroupReady(g: Geometry, n: nat) returns (run: seq<Step>)
    requires Ample(g) && 2 <= g.size && 1 <= n <= g.size && n <= LOGSIZE
    ensures CanRun(g, FreshBoot(g), run) && Copied(g, n, 0, After(g, FreshBoot(g), run))
  {
    hide Copied, Filled, CanRun, After;
    if n < g.size { run := FillRun(g, n); } else { run := Overfill(g); }
    run := EndAll(g, n, run);
  }

  lemma CopyOne(g: Geometry, n: nat, k: nat, s: State)
    requires Copied(g, n, k, s) && k < n < NBUF
    ensures Enabled(g, s, CopyBlock) && Do(g, s, CopyBlock).disk[Slot(g, k)] == Ones()
    ensures Do(g, s, CopyBlock).spilled == (s.spilled || Slot(g, k) >= g.start + g.size)
    ensures Do(g, s, CopyBlock).stage.Copying? && Do(g, s, CopyBlock).durable == 0
    ensures Copied(g, n, k + 1, Do(g, s, CopyBlock))
  {
    hide HeadOk;
    var t := Do(g, s, CopyBlock);
    assert t.disk[g.start] == s.disk[g.start];
  }

  lemma {:induction false} CopyRun(g: Geometry, k: nat) returns (run: seq<Step>)
    requires Ample(g) && 2 <= g.size < LOGSIZE && k < g.size
    ensures CanRun(g, FreshBoot(g), run) && Copied(g, g.size, k, After(g, FreshBoot(g), run))
  {
    hide Copied, Filled, CanRun, After, Enabled, Do;
    if k == 0 {
      run := GroupReady(g, g.size);
    } else {
      var less := CopyRun(g, k - 1);
      CopyOne(g, g.size, k - 1, After(g, FreshBoot(g), less));
      AfterOne(g, FreshBoot(g), less, CopyBlock);
      run := less + [CopyBlock];
    }
  }

  lemma NotAtomic(g: Geometry, s: State, t: State)
    requires Ample(g) && Copied(g, g.size, g.size - 1, s) && Shape(g, t)
    requires Head(t.disk[g.start]) == [] && t.durable == 0 && t.disk[g.start + g.size] == Ones()
    ensures s.durable < |s.hist| && !SameHome(g, s.disk, t.disk) && !Atomic(g, FreshBoot(g).disk, t)
  {
    assert Home(g, g.start + g.size);
    assert Ones()[0] != Zeroes()[0];
    assert t.hist[..0] == [];
  }

  /** A log smaller than LOGSIZE has one entry too many, and the copy of the last one goes behind the log area, into a
      home block, before the header is written: a crash then shows a block of a transaction that never committed. */
  lemma OverflowRun(g: Geometry) returns (s: State)
    requires Ample(g) && 2 <= g.size < LOGSIZE
    ensures Reachable(g, FreshBoot(g).disk, s) && |s.lh| == g.size && s.durable < |s.hist|
    ensures Enabled(g, s, CopyBlock) && Slot(g, s.stage.k) == g.start + g.size
    ensures !SameHome(g, s.disk, Do(g, s, CopyBlock).disk)
    ensures Reachable(g, FreshBoot(g).disk, Do(g, s, CopyBlock)) && !Atomic(g, FreshBoot(g).disk, Do(g, s, CopyBlock))
  {
    hide CanRun, After, Reachable, Atomic;
    var c0 := FreshBoot(g).disk;
    var run := CopyRun(g, g.size - 1);
    s := After(g, FreshBoot(g), run);
    ReachedBy(g, run);
    CopyOne(g, g.size, g.size - 1, s);
    AfterOne(g, FreshBoot(g), run, CopyBlock);
    var t := Do(g, s, CopyBlock);
    ReachedBy(g, run + [CopyBlock]);
    NotAtomic(g, s, t);
  }

  lemma OutgrownReached(g: Geometry) returns (s: State)
    requires Ample(g) && 2 <= g.size <= LOGSIZE
    ensures Reachable(g, FreshBoot(g).disk, s) && |s.lh| == g.size
  {
    hide CanRun, After, Reachable;
    var run := GroupReady(g, g.size);
    s := After(g, FreshBoot(g), run);
    ReachedBy(g, run);
  }

  /** The log keeps to its area in every run if and only if log.size exceeds LOGSIZE (or is 1, when every log_write
      panics).  write_log stays in the log area, crashes are atomic and home blocks wait for the commit, each in every
      run, if and only if log.size is at least LOGSIZE (or 1): a log that outgrew an area of LOGSIZE pins every buffer,
      and its commit stops before it writes anything.  mkfs makes log.size equal to LOGSIZE. */
  lemma AtomicIff(g: Geometry)
    requires Ample(g)
    ensures EntriesFit(g) <==> Roomy(g)
    ensures CopiesStay(g) <==> Safe(g)
    ensures AlwaysAtomic(g) <==> Safe(g)
    ensures HomesWait(g) <==> Safe(g)
  {
    hide Reachable, Atomic, SameHome, Enabled, Do;
    var c0 := FreshBoot(g).disk;
    if Roomy(g) {
      RoomyFits(g);
    } else {
      var s := OutgrownReached(g);
      assert Reachable(g, c0, s);
    }
    if Safe(g) {
      SafeKeeps(g);
    } else {
      var s := OverflowRun(g);
      assert Reachable(g, c0, s) && Reachable(g, c0, Do(g, s, CopyBlock));
    }
  }

  // ---- When log_write calls do not overlap ----

  ghost predicate Serial(g: Geometry, s: State) {
    !s.spilled && |s.lh| < g.size && |s.passed| <= 1 && (s.passed != {} ==> |s.lh| + 1 < g.size)
  }

  /** A step that begins no log_write while another is between its test and its append. */
  predicate Alone(s: State, step: Step) {
    step.LogTest? ==> s.passed == {}
  }

  lemma OnlyMember(s: set<nat>, x: nat)
    requires |s| <= 1 && x in s
    ensures s == {x} && |s - {x}| == 0
  {
    assert s - {x} == {} by { if s - {x} != {} { var y :| y in s - {x}; assert {x, y} <= s; SubsetSize({x, y}, s); } }
  }

  lemma SerialStep(g: Geometry, s: State, step: Step)
    requires Books(g, s) && Serial(g, s) && Enabled(g, s, step) && Alone(s, step)
    ensures Serial(g, Do(g, s, step))
  {
    hide Reserved, LogOk, HeadOk;
    var t := Do(g, s, step);
    if step.LogAppend? {
      OnlyMember(s.passed, step.op);
    }
  }

  lemma BooksOf(g: Geometry, c0: seq<Block>, s: State)
    requires Inv(g, c0, s)
    ensures Books(g, s)
  {
  }

  lemma {:induction false} SerialSteps(g: Geometry, c0: seq<Block>, boot: State, steps: seq<Step>)
    requires Boots(g, c0, boot) && CanRun(g, boot, steps)
    requires forall n :: 0 <= n < |steps| && CanRun(g, boot, steps[..n]) ==> Alone(After(g, boot, steps[..n]), steps[n])
    ensures Serial(g, After(g, boot, steps))
    decreases |steps|
  {
    hide Alone, Inv, Books, Contents;
    if steps == [] {
    } else {
      var n := |steps| - 1;
      var less := steps[..n];
      forall m | 0 <= m < |less| && CanRun(g, boot, less[..m])
        ensures Alone(After(g, boot, less[..m]), less[m])
      {
        assert less[..m] == steps[..m];
      }
      SerialSteps(g, c0, boot, less);
      BootInv(g, c0, boot);
      RunKeeps(g, c0, boot, less);
      BooksOf(g, c0, After(g, boot, less));
      SerialStep(g, After(g, boot, less), steps[n]);
    }
  }

  /** Runs in which calls of log_write do not overlap keep to the log area, whatever its size, and then crashes are
      atomic. */
  lemma {:induction false} SerialRun(g: Geometry, c0: seq<Block>, boot: State, steps: seq<Step>)
    requires Boots(g, c0, boot) && CanRun(g, boot, steps)
    requires forall n :: 0 <= n < |steps| && CanRun(g, boot, steps[..n]) ==> Alone(After(g, boot, steps[..n]), steps[n])
    ensures Serial(g, After(g, boot, steps)) && Atomic(g, c0, After(g, boot, steps))
    decreases |steps|
  {
    hide Atomic, Boots, Alone;
    SerialSteps(g, c0, boot, steps);
    assert Reachable(g, c0, After(g, boot, steps));
    CrashAtomicity(g, c0, After(g, boot, steps));
  }
}
