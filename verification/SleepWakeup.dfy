/** sleep and wakeup (proc.c) used by sleep locks (sleeplock.c), the log (log.c) and pipes (pipe.c): an
    interleaving of processes at the grain of lock operations. */
module SleepWakeup {
  import opened Common

  // ---- What a spin lock protects, and when one has to wait for it to change ----

  datatype Obj =
    | LockObj(locked: bool)
    | LogObj(committing: bool, n: nat, outstanding: nat)
    | PipeObj(buffered: nat, readopen: bool, writeopen: bool)

  /** `Self` is the sleep lock's or the log's address; a pipe has the channels &nread and &nwrite. */
  datatype Chan = Self | NRead | NWrite

  predicate MustWait(o: Obj, c: Chan) {
    match o
    case LockObj(locked) => c == Self && locked
    case LogObj(committing, n, outstanding) => c == Self && (committing || n + (outstanding + 1) * MAXOPBLOCKS > LOGSIZE)
    case PipeObj(buffered, readopen, writeopen) =>
      (c == NRead && buffered == 0 && writeopen) || (c == NWrite && buffered == PIPESIZE && readopen)
  }

  /** Which function a process runs on the object: it fixes the accesses it makes. */
  datatype Role = User | Writer | Reader

  /** One access under the object's lock. */
  datatype Act = TakeLock | DropLock | BeginOp | EndOp | LogWrite | CommitDone | PutByte | GetByte | CloseRead | CloseWrite

  predicate Allowed(o: Obj, a: Act, role: Role) {
    match a
    case TakeLock => o.LockObj? && role == User && !o.locked
    case DropLock => o.LockObj? && role == User
    case BeginOp => o.LogObj? && role == User && !MustWait(o, Self)
    case EndOp => o.LogObj? && role == User && o.outstanding > 0 && !o.committing
    case LogWrite => o.LogObj? && role == User && o.outstanding > 0
    case CommitDone => o.LogObj? && role == User && o.committing
    case PutByte => o.PipeObj? && role == Writer && o.buffered < PIPESIZE
    case GetByte => o.PipeObj? && role == Reader && o.buffered > 0
    case CloseRead => o.PipeObj? && role == User
    case CloseWrite => o.PipeObj? && role == User
  }

  function Access(o: Obj, a: Act, role: Role): Obj
    requires Allowed(o, a, role)
  {
    match a
    case TakeLock => LockObj(true)
    case DropLock => LockObj(false)
    case BeginOp => o.(outstanding := o.outstanding + 1)
    case EndOp => o.(outstanding := o.outstanding - 1, committing := o.outstanding == 1)
    case LogWrite => o.(n := o.n + 1)
    case CommitDone => o.(committing := false)
    case PutByte => o.(buffered := o.buffered + 1)
    case GetByte => o.(buffered := o.buffered - 1)
    case CloseRead => o.(readopen := false)
    case CloseWrite => o.(writeopen := false)
  }

  /** The wakeup calls the code goes on to make, after this access and before it lets the lock go. */
  function Owes(o: Obj, a: Act): set<Chan> {
    match a
    case DropLock => {Self}
    case EndOp => if o.LogObj? && o.outstanding == 1 then {} else {Self}
    case CommitDone => {Self}
    case PutByte => {NRead}
    case GetByte => {NWrite}
    case CloseRead => {NWrite}
    case CloseWrite => {NRead}
    case _ => {}
  }

  /** No access ends a wait without a wakeup to follow. */
  lemma OwesEnough(o: Obj, a: Act, role: Role, c: Chan)
    requires Allowed(o, a, role) && MustWait(o, c) && !MustWait(Access(o, a, role), c)
    ensures c in Owes(o, a)
  {
  }

  // ---- Processes ----

  datatype Pc =
    | Outside
    | Locked(role: Role, debt: set<Chan>)              // holds the object's lock
    | WakeAcquire(role: Role, debt: set<Chan>, c: Chan)  // wakeup(c): about to acquire ptable.lock
    | WakeScan(role: Role, debt: set<Chan>, c: Chan)     // holds it
    | WakeRelease(role: Role, debt: set<Chan>)
    | SleepAcquire(role: Role, c: Chan)                // sleep(c): about to acquire ptable.lock
    | SleepRelease(role: Role, c: Chan)                // about to release the object's lock
    | SleepMark(role: Role, c: Chan)                   // about to become SLEEPING
    | Switched(role: Role, c: Chan)                    // off its CPU in sched()
    | Resumed(role: Role)                              // back from sched(), holds ptable.lock
    | Reacquire(role: Role)                            // about to acquire the object's lock again

  datatype ProcState = RUNNING | RUNNABLE | SLEEPING

  datatype Proc = Proc(pc: Pc, state: ProcState, chan: Option<Chan>, killed: bool)

  /** Who holds ptable.lock; `Scheduler` is some CPU's scheduler loop. */
  datatype Holder = Free | Scheduler | Process(t: nat)

  datatype State = State(obj: Obj, procs: seq<Proc>, lk: Option<nat>, ptable: Holder)

  datatype Step =
    | Enter(role: Role) | Do(a: Act) | StartWakeup(c: Chan) | GotTableToWake | Scan | WakeupDone | Leave
    | KilledReturn | StartSleep(c: Chan) | GotTableToSleep | LetLockGo | Mark | TidyUp | GotLock
    | SchedulerIn | SchedulerOut | Dispatch | Kill | Truncate

  /** sleep()'s caller found its condition true. */
  predicate WantsSleep(o: Obj, p: Proc, c: Chan)
    requires p.pc.Locked?
  {
    && p.pc.debt == {} && MustWait(o, c)
    && match p.pc.role
       case User => c == Self
       case Writer => c == NWrite && !p.killed
       case Reader => c == NRead && !p.killed
  }

  predicate Reads(pc: Pc) {
    match pc
    case Outside => false
    case _ => pc.role == Reader
  }

  ghost predicate Enabled(s: State, t: nat, step: Step) {
    && t < |s.procs|
    && var p := s.procs[t];
       match step
       case Enter(role) => p.pc.Outside? && s.lk == None
       case Do(a) =>
         && p.pc.Locked? && Allowed(s.obj, a, p.pc.role)
         && (a.CloseRead? ==> forall i: nat :: i < |s.procs| ==> !Reads(s.procs[i].pc))
       case StartWakeup(c) => p.pc.Locked?
       case GotTableToWake => p.pc.WakeAcquire? && s.ptable == Free
       case Scan => p.pc.WakeScan?
       case WakeupDone => p.pc.WakeRelease?
       case Leave => p.pc.Locked? && p.pc.debt == {}
       case KilledReturn =>
         p.pc.Locked? && p.pc.role == Writer && s.obj.PipeObj? && s.obj.buffered == PIPESIZE && (!s.obj.readopen || p.killed)
       case StartSleep(c) => p.pc.Locked? && WantsSleep(s.obj, p, c)
       case GotTableToSleep => p.pc.SleepAcquire? && s.ptable == Free
       case LetLockGo => p.pc.SleepRelease?
       case Mark => p.pc.SleepMark?
       case TidyUp => p.pc.Resumed?
       case GotLock => p.pc.Reacquire? && s.lk == None
       case SchedulerIn => s.ptable == Free
       case SchedulerOut => s.ptable == Scheduler
       case Dispatch => p.pc.Switched? && p.state == RUNNABLE && s.ptable == Scheduler
       case Kill => s.ptable == Free
       case Truncate => p.pc.Outside? && s.obj.LogObj? && s.obj.committing
  }

  /** wakeup1: every process asleep on c becomes RUNNABLE. */
  function Woken(p: Proc, c: Chan): Proc {
    if p.state == SLEEPING && p.chan == Some(c) then p.(state := RUNNABLE) else p
  }

  function WakeAll(procs: seq<Proc>, c: Chan): (r: seq<Proc>)
    ensures |r| == |procs| && forall i: nat :: i < |procs| ==> r[i] == Woken(procs[i], c)
  {
    seq(|procs|, i requires 0 <= i < |procs| => Woken(procs[i], c))
  }

  function At(s: State, t: nat, pc: Pc): State
    requires t < |s.procs|
  {
    s.(procs := s.procs[t := s.procs[t].(pc := pc)])
  }

  ghost function Next(s: State, t: nat, step: Step): State
    requires Enabled(s, t, step)
  {
    var p := s.procs[t];
    match step
    case Enter(role) => At(s, t, Locked(role, {})).(lk := Some(t))
    case Do(a) => At(s, t, Locked(p.pc.role, p.pc.debt + Owes(s.obj, a))).(obj := Access(s.obj, a, p.pc.role))
    case StartWakeup(c) => At(s, t, WakeAcquire(p.pc.role, p.pc.debt, c))
    case GotTableToWake => At(s, t, WakeScan(p.pc.role, p.pc.debt, p.pc.c)).(ptable := Process(t))
    case Scan =>
      s.(procs := WakeAll(s.procs, p.pc.c)[t := p.(pc := WakeRelease(p.pc.role, p.pc.debt - {p.pc.c}))])
    case WakeupDone => At(s, t, Locked(p.pc.role, p.pc.debt)).(ptable := Free)
    case Leave => At(s, t, Outside).(lk := None)
    case KilledReturn => At(s, t, Outside).(lk := None)
    case StartSleep(c) => At(s, t, SleepAcquire(p.pc.role, c))
    case GotTableToSleep => At(s, t, SleepRelease(p.pc.role, p.pc.c)).(ptable := Process(t))
    case LetLockGo => At(s, t, SleepMark(p.pc.role, p.pc.c)).(lk := None)
    case Mark =>
      s.(procs := s.procs[t := Proc(Switched(p.pc.role, p.pc.c), SLEEPING, Some(p.pc.c), p.killed)], ptable := Scheduler)
    case TidyUp => s.(procs := s.procs[t := p.(pc := Reacquire(p.pc.role), chan := None)], ptable := Free)
    case GotLock => At(s, t, Locked(p.pc.role, {})).(lk := Some(t))
    case SchedulerIn => s.(ptable := Scheduler)
    case SchedulerOut => s.(ptable := Free)
    case Dispatch => s.(procs := s.procs[t := p.(pc := Resumed(p.pc.role), state := RUNNING)], ptable := Process(t))
    case Kill => s.(procs := s.procs[t := p.(killed := true, state := if p.state == SLEEPING then RUNNABLE else p.state)])
    case Truncate => s.(obj := s.obj.(n := 0))
  }

  // ---- Who holds what ----

  predicate HoldsLock(pc: Pc) {
    pc.Locked? || pc.WakeAcquire? || pc.WakeScan? || pc.WakeRelease? || pc.SleepAcquire? || pc.SleepRelease?
  }

  predicate HoldsTable(pc: Pc) {
    pc.WakeScan? || pc.WakeRelease? || pc.SleepRelease? || pc.SleepMark? || pc.Resumed?
  }

  function Debt(pc: Pc): set<Chan> {
    if pc.Locked? || pc.WakeAcquire? || pc.WakeScan? || pc.WakeRelease? then pc.debt else {}
  }

  ghost predicate ProcOk(s: State, t: nat)
    requires t < |s.procs|
  {
    var p := s.procs[t];
    && (HoldsLock(p.pc) <==> s.lk == Some(t))
    && (HoldsTable(p.pc) <==> s.ptable == Process(t))
    && (p.state == SLEEPING ==> p.pc.Switched? && p.chan == Some(p.pc.c))
    && (Debt(p.pc) != {} && p.pc.role == Writer ==> Debt(p.pc) <= {NRead})
  }

  ghost predicate Discipline(s: State) {
    forall t: nat :: t < |s.procs| ==> ProcOk(s, t)
  }

  /** Asleep on c, or past the point of no return. */
  predicate Sleeper(p: Proc, c: Chan) {
    match p.pc
    case SleepAcquire(_, d) => c == d
    case SleepRelease(_, d) => c == d
    case SleepMark(_, d) => c == d
    case Switched(_, d) => c == d && p.state == SLEEPING
    case _ => false
  }

  /** The holder of the lock has yet to call wakeup(c). */
  ghost predicate Owed(s: State, c: Chan) {
    s.lk.Some? && s.lk.value < |s.procs| && c in Debt(s.procs[s.lk.value].pc)
  }

  ghost predicate Covered(s: State, c: Chan) {
    forall t: nat :: t < |s.procs| && Sleeper(s.procs[t], c) ==> MustWait(s.obj, c) || Owed(s, c)
  }

  // ---- Every step keeps both ----

  lemma StepDiscipline(s: State, t: nat, step: Step)
    requires Discipline(s) && Enabled(s, t, step)
    ensures Discipline(Next(s, t, step))
  {
    var s' := Next(s, t, step);
    assert ProcOk(s, t);
    forall u: nat | u < |s'.procs|
      ensures ProcOk(s', u)
    {
      assert ProcOk(s, u);
    }
  }

  /** wakeup(c) leaves nobody asleep on c: whoever is past deciding to sleep has already been marked. */
  lemma ScanEmpties(s: State, t: nat)
    requires Discipline(s) && Enabled(s, t, Scan)
    ensures var s' := Next(s, t, Scan); forall u: nat :: u < |s'.procs| ==> !Sleeper(s'.procs[u], s.procs[t].pc.c)
  {
    var s' := Next(s, t, Scan);
    assert ProcOk(s, t);
    forall u: nat | u < |s'.procs|
      ensures !Sleeper(s'.procs[u], s.procs[t].pc.c)
    {
      assert ProcOk(s, u);
    }
  }

  /** The step is not the return of a killed writer that has put a byte in since its last wakeup(&nread). */
  ghost predicate Pays(s: State, t: nat, step: Step) {
    step.KilledReturn? ==> t < |s.procs| && Debt(s.procs[t].pc) == {}
  }

  lemma OthersCovered(s: State, t: nat, step: Step, c: Chan)
    requires Enabled(s, t, step) && ProcOk(s, t) && (MustWait(s.obj, c) || Owed(s, c))
    requires step.Scan? ==> c != s.procs[t].pc.c
    requires c == NRead ==> Pays(s, t, step)
    ensures MustWait(Next(s, t, step).obj, c) || Owed(Next(s, t, step), c)
  {
    if step.Do? && MustWait(s.obj, c) && !MustWait(Next(s, t, step).obj, c) {
      OwesEnough(s.obj, step.a, s.procs[t].pc.role, c);
    }
  }

  /** No step but one can strand a sleeper: a killed writer that returns from a full pipe with a wakeup unpaid. */
  lemma StepCovered(s: State, t: nat, step: Step, c: Chan)
    requires Discipline(s) && Covered(s, c) && Enabled(s, t, step)
    requires c == NRead ==> Pays(s, t, step)
    ensures Covered(Next(s, t, step), c)
  {
    assert ProcOk(s, t);
    hide Discipline;
    var s' := Next(s, t, step);
    if step.Scan? && c == s.procs[t].pc.c {
      ScanEmpties(s, t);
    } else {
      forall u: nat | u < |s'.procs| && Sleeper(s'.procs[u], c)
        ensures MustWait(s'.obj, c) || Owed(s', c)
      {
        if !Sleeper(s.procs[u], c) {
          assert step.StartSleep? && u == t;
        } else {
          assert MustWait(s.obj, c) || Owed(s, c);
          OthersCovered(s, t, step, c);
        }
      }
    }
  }

  // ---- Whole runs ----

  datatype Move = Move(t: nat, step: Step)

  ghost predicate Start(s: State) {
    && s.lk == None && s.ptable == Free
    && forall t: nat :: t < |s.procs| ==> s.procs[t].pc == Outside && s.procs[t].state == RUNNING
  }

  ghost predicate Leads(s: State, moves: seq<Move>, s': State)
    decreases |moves|
  {
    if moves == [] then s == s'
    else Enabled(s, moves[0].t, moves[0].step) && Leads(Next(s, moves[0].t, moves[0].step), moves[1..], s')
  }

  /** No killed writer of the run returned with its wakeup of the readers unpaid. */
  ghost predicate Paid(s: State, moves: seq<Move>)
    decreases |moves|
  {
    moves == [] ||
    (Enabled(s, moves[0].t, moves[0].step)
     && Pays(s, moves[0].t, moves[0].step)
     && Paid(Next(s, moves[0].t, moves[0].step), moves[1..]))
  }

  lemma {:induction false} RunCovered(s: State, moves: seq<Move>, s': State, c: Chan)
    requires Discipline(s) && Covered(s, c) && Leads(s, moves, s') && (c == NRead ==> Paid(s, moves))
    ensures Discipline(s') && Covered(s', c)
    decreases |moves|
  {
    hide Discipline, Covered, Next, Enabled;
    if moves != [] {
      StepDiscipline(s, moves[0].t, moves[0].step);
      StepCovered(s, moves[0].t, moves[0].step, c);
      RunCovered(Next(s, moves[0].t, moves[0].step), moves[1..], s', c);
    }
  }

  /** No lost wakeup: in every run, when the object's lock is free, whoever sleeps has a reason to.  For &nread
      this needs that no killed writer returned with its wakeup unpaid. */
  lemma NoLostWakeup(s0: State, moves: seq<Move>, s: State, t: nat, c: Chan)
    requires Start(s0) && Leads(s0, moves, s) && s.lk == None && (c == NRead ==> Paid(s0, moves))
    requires t < |s.procs| && s.procs[t].state == SLEEPING && s.procs[t].chan == Some(c)
    ensures MustWait(s.obj, c)
  {
    assert Discipline(s0);
    RunCovered(s0, moves, s, c);
    assert ProcOk(s, t) && Sleeper(s.procs[t], c);
  }

  /** The same, read off for each kind of object. */
  lemma SleepersHaveReason(s0: State, moves: seq<Move>, s: State, t: nat)
    requires Start(s0) && Leads(s0, moves, s) && s.lk == None && t < |s.procs| && s.procs[t].state == SLEEPING
    ensures s.obj.LockObj? && s.procs[t].chan == Some(Self) ==> s.obj.locked
    ensures s.obj.LogObj? && s.procs[t].chan == Some(Self) ==>
              s.obj.committing || s.obj.n + (s.obj.outstanding + 1) * MAXOPBLOCKS > LOGSIZE
    ensures s.obj.PipeObj? && s.procs[t].chan == Some(NWrite) ==> s.obj.buffered == PIPESIZE && s.obj.readopen
    ensures s.obj.PipeObj? && s.procs[t].chan == Some(NRead) && Paid(s0, moves) ==> s.obj.buffered == 0 && s.obj.writeopen
  {
    hide Leads, Start, Paid;
    match s.procs[t].chan
    case None =>
    case Some(c) => if c != NRead || Paid(s0, moves) { NoLostWakeup(s0, moves, s, t, c); }
  }

  // ---- The exception ----

  /** A state of a run in which, so far, killed writers have paid. */
  ghost predicate PaidState(s: State) {
    exists s0: State, moves: seq<Move> :: Start(s0) && Leads(s0, moves, s) && Paid(s0, moves)
  }

  /** Wherever in such a run a killed writer that owes the wakeups `debt` returns, no reader is left asleep
      without cause. */
  ghost predicate ReturnIsSafe(debt: set<Chan>) {
    forall s: State, t: nat :: PaidState(s) && Enabled(s, t, KilledReturn) && Debt(s.procs[t].pc) == debt ==>
      Covered(Next(s, t, KilledReturn), NRead)
  }

  lemma StartInv(s: State)
    requires Start(s)
    ensures Discipline(s) && forall c :: Covered(s, c)
  {
  }

  lemma PaidStateCovered(s: State)
    requires PaidState(s)
    ensures Discipline(s) && Covered(s, NRead)
  {
    hide Discipline, Covered, Leads, Paid;
    var s0: State, moves: seq<Move> :| Start(s0) && Leads(s0, moves, s) && Paid(s0, moves);
    StartInv(s0);
    RunCovered(s0, moves, s, NRead);
  }

  lemma {:induction false} LeadsOn(s0: State, moves: seq<Move>, s: State, t: nat, step: Step)
    requires Leads(s0, moves, s) && Paid(s0, moves) && Enabled(s, t, step)
    ensures Leads(s0, moves + [Move(t, step)], Next(s, t, step))
    ensures Pays(s, t, step) ==> Paid(s0, moves + [Move(t, step)])
    decreases |moves|
  {
    hide Enabled, Next, Pays;
    var all := moves + [Move(t, step)];
    if moves == [] {
      assert all[1..] == [];
    } else {
      LeadsOn(Next(s0, moves[0].t, moves[0].step), moves[1..], s, t, step);
      assert all[1..] == moves[1..] + [Move(t, step)];
    }
  }

  lemma Go(s0: State, moves: seq<Move>, s: State, t: nat, step: Step) returns (moves': seq<Move>, s': State)
    requires Leads(s0, moves, s) && Paid(s0, moves) && Enabled(s, t, step) && !step.KilledReturn?
    ensures s' == Next(s, t, step) && Leads(s0, moves', s') && Paid(s0, moves')
  {
    LeadsOn(s0, moves, s, t, step);
    moves', s' := moves + [Move(t, step)], Next(s, t, step);
  }

  const Idle := Proc(Outside, RUNNING, None, false)
  const SleepingReader := Proc(Switched(Reader, NRead), SLEEPING, Some(NRead), false)

  ghost function Reading(pc: Pc, lk: Option<nat>, ptable: Holder): State {
    State(PipeObj(0, true, true), [Idle.(pc := pc), Idle], lk, ptable)
  }

  lemma StayPut(s: State)
    ensures Leads(s, [], s) && Paid(s, [])
  {
  }

  /** A reader finds the new pipe empty and calls sleep. */
  lemma ReaderCallsSleep(s0: State) returns (moves: seq<Move>)
    requires s0 == Reading(Outside, None, Free)
    ensures Leads(s0, moves, Reading(SleepRelease(Reader, NRead), Some(0), Process(0))) && Paid(s0, moves)
  {
    hide Leads, Paid;
    moves := [];
    var s := s0;
    StayPut(s0);
    moves, s := Go(s0, moves, s, 0, Enter(Reader));
    assert s == Reading(Locked(Reader, {}), Some(0), Free);
    moves, s := Go(s0, moves, s, 0, StartSleep(NRead));
    assert s == Reading(SleepAcquire(Reader, NRead), Some(0), Free);
    moves, s := Go(s0, moves, s, 0, GotTableToSleep);
    assert s == Reading(SleepRelease(Reader, NRead), Some(0), Process(0));
  }

  lemma ReaderSleeps() returns (s0: State, moves: seq<Move>)
    ensures Start(s0) && s0 == Reading(Outside, None, Free)
    ensures Leads(s0, moves, State(PipeObj(0, true, true), [SleepingReader, Idle], None, Free)) && Paid(s0, moves)
  {
    s0 := Reading(Outside, None, Free);
    hide Leads, Paid;
    moves := ReaderCallsSleep(s0);
    var s := Reading(SleepRelease(Reader, NRead), Some(0), Process(0));
    moves, s := Go(s0, moves, s, 0, LetLockGo);
    assert s == Reading(SleepMark(Reader, NRead), None, Process(0));
    moves, s := Go(s0, moves, s, 0, Mark);
    assert s == State(PipeObj(0, true, true), [SleepingReader, Idle], None, Scheduler);
    moves, s := Go(s0, moves, s, 0, SchedulerOut);
    assert s == State(PipeObj(0, true, true), [SleepingReader, Idle], None, Free);
  }

  /** The reader sleeps; the writer, killed, has put n bytes in. */
  ghost function Filling(n: nat): State {
    var debt := if n == 0 then {} else {NRead};
    State(PipeObj(n, true, true), [SleepingReader, Proc(Locked(Writer, debt), RUNNING, None, true)], Some(1), Free)
  }

  lemma {:induction false} WriterFills(s0: State, moves: seq<Move>, n: nat) returns (moves': seq<Move>)
    requires n <= PIPESIZE && Leads(s0, moves, Filling(0)) && Paid(s0, moves)
    ensures Leads(s0, moves', Filling(n)) && Paid(s0, moves')
  {
    hide Leads, Paid;
    moves' := moves;
    if n > 0 {
      moves' := WriterFills(s0, moves, n - 1);
      var s;
      moves', s := Go(s0, moves', Filling(n - 1), 1, Do(PutByte));
      var none: set<Chan> := {};
      assert none + {NRead} == {NRead} && {NRead} + {NRead} == {NRead};
      assert s == Filling(n);
    }
  }

  /** A killed writer has filled a new pipe while a reader sleeps. */
  lemma WriterAtFull() returns (s0: State, moves: seq<Move>)
    ensures Start(s0) && s0.obj == PipeObj(0, true, true) && Leads(s0, moves, Filling(PIPESIZE)) && Paid(s0, moves)
  {
    hide Leads, Paid;
    s0, moves := ReaderSleeps();
    var o := PipeObj(0, true, true);
    var s := State(o, [SleepingReader, Idle], None, Free);
    moves, s := Go(s0, moves, s, 1, Kill);
    assert s == State(o, [SleepingReader, Idle.(killed := true)], None, Free);
    moves, s := Go(s0, moves, s, 1, Enter(Writer));
    assert s == Filling(0);
    moves := WriterFills(s0, moves, PIPESIZE);
  }

  /** A run from a new pipe to a reader asleep on a full one: both locks are free and nobody is due to wake it. */
  lemma ReaderStranded() returns (s0: State, moves: seq<Move>, s: State)
    ensures Start(s0) && s0.obj == PipeObj(0, true, true) && Leads(s0, moves, s)
    ensures s.lk == None && s.ptable == Free && s.obj.PipeObj? && s.obj.buffered == PIPESIZE
    ensures |s.procs| == 2 && s.procs[0].state == SLEEPING && s.procs[0].chan == Some(NRead) && s.procs[1].pc == Outside
  {
    hide Leads, Paid;
    s0, moves := WriterAtFull();
    LeadsOn(s0, moves, Filling(PIPESIZE), 1, KilledReturn);
    moves, s := moves + [Move(1, KilledReturn)], Next(Filling(PIPESIZE), 1, KilledReturn);
  }

  /** The return of a killed writer is safe in all runs if and only if the writer owes nothing: if it has put no
      byte in since it last called wakeup(&nread). */
  lemma KilledReturnExactly(debt: set<Chan>)
    requires debt <= {NRead}
    ensures ReturnIsSafe(debt) <==> debt == {}
  {
    if debt == {} {
      hide Leads, Paid, Discipline, Covered;
      forall s: State, t: nat | PaidState(s) && Enabled(s, t, KilledReturn) && Debt(s.procs[t].pc) == debt
        ensures Covered(Next(s, t, KilledReturn), NRead)
      {
        PaidStateCovered(s);
        StepCovered(s, t, KilledReturn, NRead);
      }
    } else {
      hide Leads, Paid;
      assert debt == {NRead};
      var s0, moves := WriterAtFull();
      var s := Filling(PIPESIZE);
      assert PaidState(s) && Enabled(s, 1, KilledReturn) && Debt(s.procs[1].pc) == debt;
      var t := Next(s, 1, KilledReturn);
      assert Sleeper(t.procs[0], NRead) && !MustWait(t.obj, NRead) && !Owed(t, NRead);
    }
  }
}
