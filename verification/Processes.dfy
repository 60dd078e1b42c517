/** The process table of proc.c with the timer branch of trap.c: fork, exit, wait, waitx, kill, yield, sleep, the
    scheduler loop with the DEFAULT policy, and time accounting.  Steps are grouped so that each runs with
    ptable.lock held throughout, unless the code itself works without it. */
module Processes {
  import opened Common

  datatype ProcState = UNUSED | EMBRYO | SLEEPING | RUNNABLE | RUNNING | ZOMBIE

  /** wait sleeps on the address of its own proc; timed sleeps on &ticks. */
  datatype Chan = OfProc(slot: nat) | Ticks | Other(id: nat)

  /** Where a process is in the kernel: in fork with child slot k (0: allocated, 1: times set, 2: parent set),
      in wait's loop, or anywhere else. */
  datatype Pc = Elsewhere | Forking(k: nat, stage: nat) | InWait

  datatype Proc = Proc(state: ProcState, pid: nat, parent: Option<nat>, chan: Option<Chan>, killed: bool,
                       ctime: nat, etime: nat, rtime: nat, iotime: nat, pc: Pc)

  // ---- The table scans ----

  function Woken(p: Proc, ch: Chan): Proc {
    if p.state == SLEEPING && p.chan == Some(ch) then p.(state := RUNNABLE) else p
  }

  /** wakeup1 */
  function Wake(procs: seq<Proc>, ch: Chan): (r: seq<Proc>)
    ensures |r| == |procs| && forall i: nat :: i < |procs| ==> r[i] == Woken(procs[i], ch)
  {
    seq(|procs|, i requires 0 <= i < |procs| => Woken(procs[i], ch))
  }

  predicate ZombieChild(p: Proc, t: nat) {
    p.parent == Some(t) && p.state == ZOMBIE
  }

  ghost predicate HasZombieChild(procs: seq<Proc>, t: nat) {
    exists i: nat :: i < |procs| && ZombieChild(procs[i], t)
  }

  ghost predicate HasChild(procs: seq<Proc>, t: nat) {
    exists i: nat :: i < |procs| && procs[i].parent == Some(t)
  }

  function Adopted(p: Proc, t: nat, init: nat): Proc {
    if p.parent == Some(t) then p.(parent := Some(init)) else p
  }

  /** exit's loop: t's children go to init, which is woken if one of them is a zombie. */
  ghost function Orphan(procs: seq<Proc>, t: nat, init: nat): (r: seq<Proc>)
    ensures |r| == |procs|
    ensures forall i: nat :: i < |procs| ==>
      r[i] == if HasZombieChild(procs, t) then Woken(Adopted(procs[i], t, init), OfProc(init)) else Adopted(procs[i], t, init)
  {
    var a := seq(|procs|, i requires 0 <= i < |procs| => Adopted(procs[i], t, init));
    if HasZombieChild(procs, t) then Wake(a, OfProc(init)) else a
  }

  /** exit under ptable.lock, up to sched(). */
  ghost function Exited(procs: seq<Proc>, t: nat, init: nat, now: nat): (r: seq<Proc>)
    requires t < |procs| && procs[t].parent.Some?
    ensures |r| == |procs|
  {
    var r := Orphan(Wake(procs, OfProc(procs[t].parent.value)), t, init);
    r[t := r[t].(state := ZOMBIE, etime := now)]
  }

  /** The slot after wait has freed it. */
  function Reaped(p: Proc): Proc {
    p.(state := UNUSED, pid := 0, parent := None, killed := false)
  }

  // ---- The machine ----

  /** Who holds ptable.lock: nobody, the scheduler loop of a CPU, or a process. */
  datatype Holder = Free | ByCpu(c: nat) | ByProc(t: nat)

  /** CPU 0's timer interrupt: before it, with ticks advanced, with sleepers on &ticks woken.  `p` is the process
      it interrupted. */
  datatype Irq = Quiet | Counted(p: Option<nat>) | Called(p: Option<nat>)

  datatype State = State(procs: seq<Proc>, cpus: seq<Option<nat>>, table: Holder, init: nat, nextpid: nat,
                         ticks: nat, irq: Irq, charged: nat, reaped: seq<nat>)

  datatype Step =
    | Alloc(k: nat) | ForkFails | SetTimes | SetParent | ForkDone      // fork
    | Exit | Reap(k: nat) | NoWait | WaitSleep                          // exit, wait and waitx
    | Yield | Sleep(ch: Chan) | SwitchOut | Return                      // sched and what follows it
    | SchedIn | SchedOut | Dispatch(k: nat)                             // the scheduler loop
    | Wakeup(ch: Chan) | Kill(k: nat)
    | Tick | TickWakes | Charge                                         // the timer interrupt

  /** CPU c runs process t in the kernel or in user space, outside the timer interrupt. */
  ghost predicate Runs(s: State, c: nat, t: nat) {
    && c < |s.cpus| && s.cpus[c] == Some(t) && t < |s.procs| && s.procs[t].state == RUNNING
    && (c == 0 ==> s.irq.Quiet?)
  }

  ghost predicate OnCpu(s: State, t: nat) {
    exists c: nat :: c < |s.cpus| && s.cpus[c] == Some(t)
  }

  /** The process may start a critical section, or is in wait's loop and already holds the lock. */
  ghost predicate InWaitLoop(s: State, t: nat)
    requires t < |s.procs|
  {
    (s.table == Free && s.procs[t].pc == Elsewhere) || (s.table == ByProc(t) && s.procs[t].pc == InWait)
  }

  ghost predicate Enabled(s: State, c: nat, t: nat, step: Step) {
    match step
    case Alloc(k) =>
      Runs(s, c, t) && s.table == Free && s.procs[t].pc == Elsewhere && k < |s.procs| && s.procs[k].state == UNUSED
    case ForkFails => Runs(s, c, t) && s.table != ByProc(t) && s.procs[t].pc.Forking? && s.procs[t].pc.stage < 2
    case SetTimes => Runs(s, c, t) && s.table == Free && s.procs[t].pc.Forking? && s.procs[t].pc.stage == 0
    case SetParent => Runs(s, c, t) && s.table != ByProc(t) && s.procs[t].pc.Forking? && s.procs[t].pc.stage == 1
    case ForkDone => Runs(s, c, t) && s.table == Free && s.procs[t].pc.Forking? && s.procs[t].pc.stage == 2
    case Exit => Runs(s, c, t) && s.table == Free && s.procs[t].pc == Elsewhere && t != s.init
    case Reap(k) => Runs(s, c, t) && InWaitLoop(s, t) && k < |s.procs| && ZombieChild(s.procs[k], t)
    case NoWait =>
      && Runs(s, c, t) && InWaitLoop(s, t) && !HasZombieChild(s.procs, t)
      && (!HasChild(s.procs, t) || s.procs[t].killed)
    case WaitSleep =>
      && Runs(s, c, t) && InWaitLoop(s, t) && !HasZombieChild(s.procs, t)
      && HasChild(s.procs, t) && !s.procs[t].killed
    case Yield => Runs(s, c, t) && s.table == Free
    case Sleep(ch) => Runs(s, c, t) && s.table == Free && s.procs[t].pc == Elsewhere && !ch.OfProc?
    case SwitchOut =>
      && c < |s.cpus| && s.cpus[c] == Some(t) && t < |s.procs|
      && s.table == ByProc(t) && s.procs[t].state != RUNNING
    case Return => Runs(s, c, t) && s.table == ByProc(t) && s.procs[t].pc != InWait
    case SchedIn => c < |s.cpus| && s.cpus[c] == None && s.table == Free && (c == 0 ==> s.irq.Quiet?)
    case SchedOut => c < |s.cpus| && s.table == ByCpu(c)
    case Dispatch(k) =>
      c < |s.cpus| && s.cpus[c] == None && s.table == ByCpu(c) && k < |s.procs| && s.procs[k].state == RUNNABLE
    case Wakeup(ch) => s.table == Free && !ch.OfProc?
    case Kill(k) => s.table == Free && k < |s.procs|
    case Tick =>
      && |s.cpus| > 0 && s.irq.Quiet?
      && s.table != ByCpu(0) && (s.cpus[0].Some? ==> s.table != ByProc(s.cpus[0].value))
    case TickWakes => s.irq.Counted? && s.table == Free
    case Charge => s.irq.Called? && (s.irq.p.Some? ==> s.irq.p.value < |s.procs|)
  }

  /** trap.c charges the interrupted process by its state. */
  function ChargedTo(p: Proc): Proc {
    if p.state == RUNNING then p.(rtime := p.rtime + 1)
    else if p.state == SLEEPING then p.(iotime := p.iotime + 1)
    else p
  }

  function Charges(p: Proc): nat {
    if p.state == RUNNING || p.state == SLEEPING then 1 else 0
  }

  predicate IsChild(s: State, t: nat, q: nat) {
    t < |s.procs| && s.procs[t].pc.Forking? && s.procs[t].pc.k == q
  }

  /** What a step makes of one slot. */
  ghost function Slot(s: State, t: nat, step: Step, q: nat): Proc
    requires q < |s.procs|
  {
    var p := s.procs[q];
    match step
    case Alloc(k) =>
      if q == k then p.(state := EMBRYO, pid := s.nextpid, pc := Elsewhere) else if q == t then p.(pc := Forking(k, 0)) else p
    case ForkFails => if q == t then p.(pc := Elsewhere) else if IsChild(s, t, q) then p.(state := UNUSED) else p
    case SetTimes =>
      if q == t && p.pc.Forking? then p.(pc := Forking(p.pc.k, 1))
      else if IsChild(s, t, q) then p.(ctime := s.ticks, etime := 0, rtime := 0, iotime := 0) else p
    case SetParent =>
      if q == t && p.pc.Forking? then p.(pc := Forking(p.pc.k, 2))
      else if IsChild(s, t, q) then p.(parent := Some(t)) else p
    case ForkDone => if q == t then p.(pc := Elsewhere) else if IsChild(s, t, q) then p.(state := RUNNABLE) else p
    case Exit =>
      var w := if t < |s.procs| && s.procs[t].parent.Some? then Woken(p, OfProc(s.procs[t].parent.value)) else p;
      var a := Adopted(w, t, s.init);
      var b := if HasZombieChild(s.procs, t) then Woken(a, OfProc(s.init)) else a;
      if q == t then b.(state := ZOMBIE, etime := s.ticks) else b
    case Reap(k) => if q == t then p.(pc := Elsewhere, chan := None) else if q == k then Reaped(p) else p
    case NoWait => if q == t then p.(pc := Elsewhere, chan := None) else p
    case WaitSleep => if q == t then p.(pc := InWait, chan := Some(OfProc(t)), state := SLEEPING) else p
    case Yield => if q == t then p.(state := RUNNABLE) else p
    case Sleep(ch) => if q == t then p.(state := SLEEPING, chan := Some(ch)) else p
    case SwitchOut => p
    case Return => if q == t then p.(chan := None) else p
    case SchedIn => p
    case SchedOut => p
    case Dispatch(k) => if q == k then p.(state := RUNNING) else p
    case Wakeup(ch) => Woken(p, ch)
    case Kill(k) =>
      if q == k then p.(killed := true, state := if p.state == SLEEPING then RUNNABLE else p.state) else p
    case Tick => p
    case TickWakes => Woken(p, Ticks)
    case Charge => if !s.irq.Quiet? && s.irq.p == Some(q) then ChargedTo(p) else p
  }

  ghost function Slots(s: State, t: nat, step: Step): (r: seq<Proc>)
    ensures |r| == |s.procs| && forall q: nat :: q < |s.procs| ==> r[q] == Slot(s, t, step, q)
  {
    seq(|s.procs|, q requires 0 <= q < |s.procs| => Slot(s, t, step, q))
  }

  function TableAfter(s: State, c: nat, t: nat, step: Step): Holder {
    match step
    case Exit => ByProc(t)
    case Reap(_) => Free
    case NoWait => Free
    case WaitSleep => ByProc(t)
    case Yield => ByProc(t)
    case Sleep(_) => ByProc(t)
    case SwitchOut => ByCpu(c)
    case Return => Free
    case SchedIn => ByCpu(c)
    case SchedOut => Free
    case Dispatch(k) => ByProc(k)
    case _ => s.table
  }

  ghost function CpusAfter(s: State, c: nat, step: Step): seq<Option<nat>>
    requires step.SwitchOut? || step.Dispatch? ==> c < |s.cpus|
  {
    match step
    case SwitchOut => s.cpus[c := None]
    case Dispatch(k) => s.cpus[c := Some(k)]
    case _ => s.cpus
  }

  function IrqAfter(s: State, step: Step): Irq
    requires step.Tick? ==> |s.cpus| > 0
    requires step.TickWakes? ==> s.irq.Counted?
  {
    match step
    case Tick => Counted(s.cpus[0])
    case TickWakes => Called(s.irq.p)
    case Charge => Quiet
    case _ => s.irq
  }

  ghost function Next(s: State, c: nat, t: nat, step: Step): State
    requires Enabled(s, c, t, step)
  {
    State(Slots(s, t, step), CpusAfter(s, c, step), TableAfter(s, c, t, step), s.init,
          if step.Alloc? then s.nextpid + 1 else s.nextpid,
          if step.Tick? then s.ticks + 1 else s.ticks,
          IrqAfter(s, step),
          if step.Charge? && s.irq.p.Some? then s.charged + Charges(s.procs[s.irq.p.value]) else s.charged,
          if step.Reap? then s.reaped + [s.procs[step.k].pid] else s.reaped)
  }

  // ---- Invariants ----

  predicate Alive(p: Proc) {
    p.state == RUNNING || p.state == RUNNABLE || p.state == SLEEPING
  }

  predicate Started(p: Proc) {
    Alive(p) || p.state == ZOMBIE
  }

  ghost predicate CpuOk(s: State, c: nat)
    requires c < |s.cpus|
  {
    s.cpus[c].Some? ==>
      var t := s.cpus[c].value;
      t < |s.procs| && (s.procs[t].state == RUNNING || s.table == ByProc(t))
  }

  /** A process on a CPU is RUNNING or holds ptable.lock, and it is on one CPU only. */
  ghost predicate CpusOk(s: State) {
    && (forall c: nat :: c < |s.cpus| ==> CpuOk(s, c))
    && (forall c: nat, d: nat :: c < d < |s.cpus| && s.cpus[c].Some? ==> s.cpus[c] != s.cpus[d])
    && (s.table.ByProc? ==> s.table.t < |s.procs| && Started(s.procs[s.table.t]))
  }

  /** The timer interrupt interrupts a process that stays RUNNING until it is charged. */
  ghost predicate IrqOk(s: State) {
    !s.irq.Quiet? && s.irq.p.Some? ==>
      var t := s.irq.p.value;
      t < |s.procs| && s.procs[t].state == RUNNING && s.table != ByProc(t) && |s.cpus| > 0 && s.cpus[0] == Some(t)
  }

  ghost predicate ForkOk(s: State, q: nat)
    requires q < |s.procs|
  {
    s.procs[q].pc.Forking? ==>
      var k, stage := s.procs[q].pc.k, s.procs[q].pc.stage;
      && (s.procs[q].state == RUNNING || s.procs[q].state == RUNNABLE)
      && k < |s.procs| && k != s.init && s.procs[k].state == EMBRYO && stage <= 2
      && s.procs[k].parent == (if stage == 2 then Some(q) else None)
  }

  /** Each process in fork has an EMBRYO slot of its own. */
  ghost predicate ForksOk(s: State) {
    && (forall q: nat :: q < |s.procs| ==> ForkOk(s, q))
    && (forall q: nat, r: nat :: q < r < |s.procs| && s.procs[q].pc.Forking? && s.procs[r].pc.Forking? ==>
          s.procs[q].pc.k != s.procs[r].pc.k)
  }

  ghost predicate ParentOk(s: State, t: nat)
    requires t < |s.procs|
  {
    match s.procs[t].parent
    case None => Started(s.procs[t]) ==> t == s.init
    case Some(q) =>
      && q < |s.procs| && q != t && t != s.init && s.procs[t].state != UNUSED
      && (if s.procs[t].state == EMBRYO then s.procs[q].pc == Forking(t, 2) else Alive(s.procs[q]))
  }

  ghost predicate ParentsOk(s: State) {
    s.init < |s.procs| && Alive(s.procs[s.init]) && forall t: nat :: t < |s.procs| ==> ParentOk(s, t)
  }

  predicate WaitsFor(p: Proc, t: nat) {
    p.state == SLEEPING && p.chan == Some(OfProc(t))
  }

  /** Who sleeps in wait sleeps on its own proc, and has no zombie child. */
  ghost predicate WaitersOk(s: State) {
    && (forall t: nat, x: nat :: t < |s.procs| && WaitsFor(s.procs[t], x) ==> x == t)
    && (forall t: nat, z: nat :: t < |s.procs| && z < |s.procs| && ZombieChild(s.procs[z], t) ==> !WaitsFor(s.procs[t], t))
  }

  ghost predicate PidsOk(s: State) {
    && (forall t: nat :: t < |s.procs| && s.procs[t].state != UNUSED ==> s.procs[t].pid < s.nextpid && s.procs[t].pid !in s.reaped)
    && (forall t: nat, u: nat :: t < u < |s.procs| && s.procs[t].state != UNUSED && s.procs[u].state != UNUSED ==>
          s.procs[t].pid != s.procs[u].pid)
    && (forall i: nat :: i < |s.reaped| ==> s.reaped[i] < s.nextpid)
    && (forall i: nat, j: nat :: i < j < |s.reaped| ==> s.reaped[i] != s.reaped[j])
  }

  /** Is the interrupt about to charge t? */
  predicate Due(s: State, t: nat) {
    !s.irq.Quiet? && s.irq.p == Some(t)
  }

  ghost predicate TimeOk(s: State, t: nat)
    requires t < |s.procs|
  {
    var p := s.procs[t];
    && p.iotime == 0 && p.rtime + (if Due(s, t) then 1 else 0) + p.ctime <= s.ticks
    && (p.state == ZOMBIE ==> p.rtime + p.ctime <= p.etime <= s.ticks)
  }

  ghost predicate TimesOk(s: State) {
    && (forall t: nat :: t < |s.procs| ==> TimeOk(s, t))
    && s.charged + (if !s.irq.Quiet? && s.irq.p.Some? then 1 else 0) <= s.ticks
  }

  ghost predicate Inv(s: State) {
    CpusOk(s) && IrqOk(s) && ForksOk(s) && ParentsOk(s) && WaitersOk(s) && PidsOk(s) && TimesOk(s)
  }

  // ---- Every step keeps them ----

  lemma KeepsCpus(s: State, c: nat, t: nat, step: Step)
    requires CpusOk(s) && ForksOk(s) && Enabled(s, c, t, step)
    ensures CpusOk(Next(s, c, t, step))
  {
    var s' := Next(s, c, t, step);
    if step.ForkFails? || step.SetTimes? || step.SetParent? || step.ForkDone? { assert ForkOk(s, t); }
    forall d: nat | d < |s'.cpus|
      ensures CpuOk(s', d)
    {
      assert CpuOk(s, d);
    }
    if step.Dispatch? {
      forall d: nat | d < |s.cpus|
        ensures s.cpus[d] != Some(step.k)
      {
        assert CpuOk(s, d);
      }
    }
  }

  /** No step of another process takes a process off CPU 0 in the middle of the timer interrupt. */
  lemma IrqSlot(s: State, c: nat, t: nat, step: Step, u: nat)
    requires Enabled(s, c, t, step) && (t < |s.procs| ==> ForkOk(s, t)) && u < |s.procs| && s.procs[u].state == RUNNING
    requires (!s.irq.Quiet? || step.Tick?) && |s.cpus| > 0 && s.cpus[0] == Some(u) && s.table != ByProc(u)
    requires forall d: nat :: 0 < d < |s.cpus| ==> s.cpus[d] != Some(u)
    ensures Slot(s, t, step, u).state == RUNNING
  {
  }

  lemma IrqHolder(s: State, c: nat, t: nat, step: Step, u: nat)
    requires Enabled(s, c, t, step) && u < |s.procs| && s.procs[u].state == RUNNING
    requires (!s.irq.Quiet? || step.Tick?) && |s.cpus| > 0 && s.cpus[0] == Some(u) && s.table != ByProc(u)
    requires forall d: nat :: 0 < d < |s.cpus| ==> s.cpus[d] != Some(u)
    ensures TableAfter(s, c, t, step) != ByProc(u) && CpusAfter(s, c, step)[0] == Some(u)
  {
  }

  lemma InterruptStarts(s: State, c: nat, t: nat, step: Step)
    requires CpusOk(s) && IrqOk(s) && ForksOk(s) && Enabled(s, c, t, step)
    requires !IrqAfter(s, step).Quiet? && IrqAfter(s, step).p.Some?
    ensures t < |s.procs| ==> ForkOk(s, t)
    ensures var u := IrqAfter(s, step).p.value;
            && (!s.irq.Quiet? || step.Tick?) && u < |s.procs| && s.procs[u].state == RUNNING
            && |s.cpus| > 0 && s.cpus[0] == Some(u) && s.table != ByProc(u)
            && forall d: nat :: 0 < d < |s.cpus| ==> s.cpus[d] != Some(u)
  {
    if |s.cpus| > 0 { assert CpuOk(s, 0); }
  }

  lemma KeepsIrq(s: State, c: nat, t: nat, step: Step)
    requires CpusOk(s) && IrqOk(s) && ForksOk(s) && Enabled(s, c, t, step)
    ensures IrqOk(Next(s, c, t, step))
  {
    var s' := Next(s, c, t, step);
    if !s'.irq.Quiet? && s'.irq.p.Some? {
      var u := s'.irq.p.value;
      InterruptStarts(s, c, t, step);
      hide ForksOk, CpusOk, IrqOk, Enabled, Slot, Slots;
      IrqSlot(s, c, t, step, u);
      IrqHolder(s, c, t, step, u);
    }
  }

  predicate ForkStep(step: Step) {
    step.Alloc? || step.ForkFails? || step.SetTimes? || step.SetParent? || step.ForkDone?
  }

  /** Outside fork a step leaves pc and EMBRYO slots of others alone. */
  lemma OtherSlots(s: State, c: nat, t: nat, step: Step, q: nat)
    requires Enabled(s, c, t, step) && !ForkStep(step) && q < |s.procs|
    ensures
      var p, p' := s.procs[q], Slot(s, t, step, q);
      && (p'.pc.Forking? ==> p'.pc == p.pc)
      && (p.pc.Forking? && (p.state == RUNNING || p.state == RUNNABLE) ==> p'.pc == p.pc && (p'.state == RUNNING || p'.state == RUNNABLE))
      && (p.state == EMBRYO ==> p'.state == EMBRYO && (p'.parent == p.parent || (step.Exit? && p.parent == Some(t))))
  {
  }

  lemma ForkersDiffer(s: State, q: nat, r: nat)
    requires ForksOk(s)
    ensures q < |s.procs| && r < |s.procs| && q != r && s.procs[q].pc.Forking? && s.procs[r].pc.Forking? ==>
              s.procs[q].pc.k != s.procs[r].pc.k
  {
  }

  lemma KeepsForkers(s: State, c: nat, t: nat, step: Step, q: nat, r: nat)
    requires ForksOk(s) && Enabled(s, c, t, step) && q < r < |s.procs|
    requires var s' := Next(s, c, t, step); s'.procs[q].pc.Forking? && s'.procs[r].pc.Forking?
    ensures var s' := Next(s, c, t, step); s'.procs[q].pc.k != s'.procs[r].pc.k
  {
    assert ForkOk(s, q) && ForkOk(s, r);
    ForkersDiffer(s, q, r);
    hide ForksOk;
    if !ForkStep(step) {
      OtherSlots(s, c, t, step, q);
      OtherSlots(s, c, t, step, r);
    }
  }

  lemma InitAlive(s: State)
    requires ParentsOk(s)
    ensures s.init < |s.procs| && Alive(s.procs[s.init])
  {
  }

  lemma UnusedNoParent(s: State, k: nat)
    requires ParentsOk(s) && k < |s.procs| && s.procs[k].state == UNUSED
    ensures s.procs[k].parent == None
  {
    assert ParentOk(s, k);
  }

  lemma KeepsForkOk(s: State, c: nat, t: nat, step: Step, q: nat)
    requires ForksOk(s) && ParentsOk(s) && Enabled(s, c, t, step) && q < |s.procs|
    ensures ForkOk(Next(s, c, t, step), q)
  {
    assert ForkOk(s, q) && (t < |s.procs| ==> ForkOk(s, t));
    ForkersDiffer(s, q, t);
    InitAlive(s);
    if step.Alloc? { UnusedNoParent(s, step.k); }
    hide ForksOk, ParentsOk;
    if ForkStep(step) {
    } else if s.procs[q].pc.Forking? {
      OtherSlots(s, c, t, step, q);
      OtherSlots(s, c, t, step, s.procs[q].pc.k);
    } else {
      OtherSlots(s, c, t, step, q);
    }
  }

  lemma KeepsForks(s: State, c: nat, t: nat, step: Step)
    requires ForksOk(s) && ParentsOk(s) && Enabled(s, c, t, step)
    ensures ForksOk(Next(s, c, t, step))
  {
    var s' := Next(s, c, t, step);
    assert |s'.procs| == |s.procs|;
    forall q: nat | q < |s'.procs|
      ensures ForkOk(s', q)
    {
      KeepsForkOk(s, c, t, step, q);
    }
    forall q: nat, r: nat | q < r < |s'.procs| && s'.procs[q].pc.Forking? && s'.procs[r].pc.Forking?
      ensures s'.procs[q].pc.k != s'.procs[r].pc.k
    {
      KeepsForkers(s, c, t, step, q, r);
    }
  }

  lemma AliveKept(s: State, c: nat, t: nat, step: Step, q: nat)
    requires ForksOk(s) && Enabled(s, c, t, step) && q < |s.procs| && Alive(s.procs[q])
    ensures Alive(Slot(s, t, step, q)) || (step.Exit? && q == t)
  {
    if t < |s.procs| { assert ForkOk(s, t); }
    hide ForksOk;
  }

  /** What a step can do to a parent pointer. */
  lemma ParentSlot(s: State, c: nat, t: nat, step: Step, u: nat)
    requires ForksOk(s) && Enabled(s, c, t, step) && u < |s.procs|
    ensures
      var p, p' := s.procs[u], Slot(s, t, step, u);
      if step.Exit? && p.parent == Some(t) then p'.parent == Some(s.init)
      else if step.Reap? && u == step.k then p'.parent == None && p'.state == UNUSED
      else if step.SetParent? && IsChild(s, t, u) then p'.parent == Some(t) && p'.state == EMBRYO
      else p'.parent == p.parent
    ensures
      var p, p' := s.procs[u], Slot(s, t, step, u);
      && (Started(p') ==> Started(p) || (step.ForkDone? && IsChild(s, t, u)))
      && (p'.state == UNUSED ==> p.state == UNUSED || (step.Reap? && u == step.k) || (step.ForkFails? && IsChild(s, t, u)))
      && (p'.state == EMBRYO ==> p.state == EMBRYO || step.Alloc?)
  {
    if t < |s.procs| { assert ForkOk(s, t); }
    hide ForksOk;
  }

  lemma ParentSet(s: State, c: nat, t: nat)
    requires ForksOk(s) && Enabled(s, c, t, SetParent)
    ensures Slot(s, t, SetParent, t).pc == Forking(s.procs[t].pc.k, 2)
  {
  }

  /** While fork is under way the child's parent stays in it, until fork ends. */
  lemma EmbryoParent(s: State, c: nat, t: nat, step: Step, u: nat, q: nat)
    requires ForksOk(s) && Enabled(s, c, t, step) && u < |s.procs| && q < |s.procs|
    requires s.procs[q].pc == Forking(u, 2) && s.procs[u].state == EMBRYO
    ensures Slot(s, t, step, q).pc == Forking(u, 2) || (step.ForkDone? && q == t)
    ensures step.ForkDone? && q == t ==> Slot(s, t, step, u).state == RUNNABLE
  {
    assert ForkOk(s, q) && (t < |s.procs| ==> ForkOk(s, t));
    ForkersDiffer(s, q, t);
    hide ForksOk;
    if !ForkStep(step) { OtherSlots(s, c, t, step, q); }
  }

  /** Nobody's parent pointer leads to a slot that a step ends: exit hands its children on first, and a zombie
      has none. */
  lemma KeepsOrphanOk(s: State, c: nat, t: nat, step: Step, u: nat)
    requires ForksOk(s) && ParentsOk(s) && Enabled(s, c, t, step) && u < |s.procs| && s.procs[u].parent == None
    ensures ParentOk(Next(s, c, t, step), u)
  {
    ParentSlot(s, c, t, step, u);
    assert ParentOk(s, u) && (t < |s.procs| ==> ForkOk(s, t));
    hide ForksOk, ParentsOk, Slot;
    if step.SetParent? && IsChild(s, t, u) {
      assert Next(s, c, t, step).procs[t].pc == Forking(u, 2) by { ParentSet(s, c, t); }
    }
  }

  lemma KeepsChildOk(s: State, c: nat, t: nat, step: Step, u: nat, q: nat)
    requires ForksOk(s) && ParentsOk(s) && Enabled(s, c, t, step) && u < |s.procs| && s.procs[u].parent == Some(q)
    ensures ParentOk(Next(s, c, t, step), u)
  {
    ParentSlot(s, c, t, step, u);
    assert ParentOk(s, u) && (t < |s.procs| ==> ForkOk(s, t));
    InitAlive(s);
    AliveKept(s, c, t, step, s.init);
    assert ForkOk(s, q);
    if Alive(s.procs[q]) { AliveKept(s, c, t, step, q); }
    ForkersDiffer(s, q, t);
    if s.procs[u].state == EMBRYO { EmbryoParent(s, c, t, step, u, q); }
    hide ForksOk, ParentsOk, Slot;
  }

  lemma KeepsParentOk(s: State, c: nat, t: nat, step: Step, u: nat)
    requires ForksOk(s) && ParentsOk(s) && Enabled(s, c, t, step) && u < |s.procs|
    ensures ParentOk(Next(s, c, t, step), u)
  {
    hide ForksOk, ParentsOk, Slot, Enabled, ParentOk;
    match s.procs[u].parent
    case None => KeepsOrphanOk(s, c, t, step, u);
    case Some(q) => KeepsChildOk(s, c, t, step, u, q);
  }

  lemma KeepsParents(s: State, c: nat, t: nat, step: Step)
    requires ForksOk(s) && ParentsOk(s) && Enabled(s, c, t, step)
    ensures ParentsOk(Next(s, c, t, step))
  {
    var s' := Next(s, c, t, step);
    InitAlive(s);
    AliveKept(s, c, t, step, s.init);
    forall u: nat | u < |s'.procs|
      ensures ParentOk(s', u)
    {
      KeepsParentOk(s, c, t, step, u);
    }
  }

  /** Who sleeps in wait did so before, and was not woken, or goes to sleep now. */
  lemma WaiterSlot(s: State, c: nat, t: nat, step: Step, u: nat)
    requires ForksOk(s) && Enabled(s, c, t, step) && u < |s.procs| && WaitsFor(Slot(s, t, step, u), u)
    ensures WaitsFor(s.procs[u], u) || (step.WaitSleep? && u == t && !HasZombieChild(s.procs, t))
    ensures step.Exit? ==> s.procs[t].parent != Some(u) && !(u == s.init && HasZombieChild(s.procs, t))
  {
    if t < |s.procs| { assert ForkOk(s, t); }
    hide ForksOk;
  }

  /** Where a zombie child comes from: it was one, its parent has just exited, or it has exited itself. */
  lemma ZombieChildSlot(s: State, c: nat, t: nat, step: Step, u: nat, z: nat)
    requires ForksOk(s) && Enabled(s, c, t, step) && u < |s.procs| && z < |s.procs| && ZombieChild(Slot(s, t, step, z), u)
    ensures || ZombieChild(s.procs[z], u)
            || (step.Exit? && u == s.init && ZombieChild(s.procs[z], t))
            || (step.Exit? && z == t && (s.procs[t].parent == Some(u) || s.procs[t].parent == Some(t)))
  {
    if t < |s.procs| { assert ForkOk(s, t); }
    hide ForksOk;
  }

  lemma KeepsWaiter(s: State, c: nat, t: nat, step: Step, u: nat, z: nat)
    requires ForksOk(s) && ParentsOk(s) && WaitersOk(s) && Enabled(s, c, t, step) && u < |s.procs| && z < |s.procs|
    requires ZombieChild(Slot(s, t, step, z), u)
    ensures !WaitsFor(Slot(s, t, step, u), u)
  {
    assert t < |s.procs| ==> ParentOk(s, t);
    hide ForksOk, ParentsOk, Slot, Enabled;
    ZombieChildSlot(s, c, t, step, u, z);
    assert ZombieChild(s.procs[z], t) ==> HasZombieChild(s.procs, t);
    if WaitsFor(Slot(s, t, step, u), u) { WaiterSlot(s, c, t, step, u); }
  }

  lemma KeepsWaiters(s: State, c: nat, t: nat, step: Step)
    requires ForksOk(s) && ParentsOk(s) && WaitersOk(s) && Enabled(s, c, t, step)
    ensures WaitersOk(Next(s, c, t, step))
  {
    var s' := Next(s, c, t, step);
    forall u: nat, x: nat | u < |s'.procs| && WaitsFor(s'.procs[u], x)
      ensures x == u
    {
      assert WaitsFor(s.procs[u], x) || (step.WaitSleep? && u == t);
    }
    forall u: nat, z: nat | u < |s'.procs| && z < |s'.procs| && ZombieChild(s'.procs[z], u)
      ensures !WaitsFor(s'.procs[u], u)
    {
      KeepsWaiter(s, c, t, step, u, z);
    }
  }

  lemma PidSlot(s: State, c: nat, t: nat, step: Step, q: nat)
    requires ForksOk(s) && Enabled(s, c, t, step) && q < |s.procs| && Slot(s, t, step, q).state != UNUSED
    ensures var p' := Slot(s, t, step, q);
            || (p'.pid == s.procs[q].pid && s.procs[q].state != UNUSED && step != Reap(q))
            || (step.Alloc? && q == step.k && p'.pid == s.nextpid)
  {
    if t < |s.procs| { assert ForkOk(s, t); }
    hide ForksOk;
  }

  lemma ReapEnabled(s: State, c: nat, t: nat, step: Step)
    requires Enabled(s, c, t, step) && step.Reap?
    ensures step.k < |s.procs| && s.procs[step.k].state == ZOMBIE
  {
  }

  lemma KeepsPids(s: State, c: nat, t: nat, step: Step)
    requires ForksOk(s) && PidsOk(s) && Enabled(s, c, t, step)
    ensures PidsOk(Next(s, c, t, step))
  {
    hide ForksOk, Enabled, Slot, Slots;
    var s' := Next(s, c, t, step);
    if step.Reap? { ReapEnabled(s, c, t, step); }
    forall q: nat | q < |s'.procs| && s'.procs[q].state != UNUSED
      ensures || (s'.procs[q].pid == s.procs[q].pid && s.procs[q].state != UNUSED && step != Reap(q))
              || (step.Alloc? && q == step.k && s'.procs[q].pid == s.nextpid)
    {
      PidSlot(s, c, t, step, q);
    }
  }

  lemma TimeSlot(s: State, c: nat, t: nat, step: Step, u: nat)
    requires ForksOk(s) && IrqOk(s) && Enabled(s, c, t, step) && u < |s.procs|
    ensures
      var p, p' := s.procs[u], Slot(s, t, step, u);
      if step.SetTimes? && IsChild(s, t, u) then p'.rtime == 0 && p'.iotime == 0 && p'.ctime == s.ticks && p'.state == EMBRYO
      else if step.Charge? && Due(s, u) then p' == p.(rtime := p.rtime + 1) && p.state == RUNNING
      else p'.rtime == p.rtime && p'.iotime == p.iotime && p'.ctime == p.ctime
    ensures
      var p, p' := s.procs[u], Slot(s, t, step, u);
      p'.state == ZOMBIE ==> (p.state == ZOMBIE && p'.etime == p.etime) || (step.Exit? && p'.etime == s.ticks)
  {
    if t < |s.procs| { assert ForkOk(s, t); }
    hide ForksOk;
  }

  lemma KeepsTime(s: State, c: nat, t: nat, step: Step, u: nat)
    requires ForksOk(s) && IrqOk(s) && TimesOk(s) && Enabled(s, c, t, step) && u < |s.procs|
    ensures TimeOk(Next(s, c, t, step), u)
  {
    assert TimeOk(s, u);
    TimeSlot(s, c, t, step, u);
    if t < |s.procs| { assert ForkOk(s, t); }
    hide ForksOk, TimesOk, Slot;
  }

  lemma KeepsTimes(s: State, c: nat, t: nat, step: Step)
    requires ForksOk(s) && IrqOk(s) && TimesOk(s) && Enabled(s, c, t, step)
    ensures TimesOk(Next(s, c, t, step))
  {
    var s' := Next(s, c, t, step);
    forall u: nat | u < |s'.procs|
      ensures TimeOk(s', u)
    {
      KeepsTime(s, c, t, step, u);
    }
  }

  lemma StepKeeps(s: State, c: nat, t: nat, step: Step)
    requires Inv(s) && Enabled(s, c, t, step)
    ensures Inv(Next(s, c, t, step))
  {
    hide CpusOk, IrqOk, ForksOk, ParentsOk, WaitersOk, PidsOk, TimesOk, Next, Enabled;
    KeepsCpus(s, c, t, step);
    KeepsIrq(s, c, t, step);
    KeepsForks(s, c, t, step);
    KeepsParents(s, c, t, step);
    KeepsWaiters(s, c, t, step);
    KeepsPids(s, c, t, step);
    KeepsTimes(s, c, t, step);
  }

  // ---- Whole runs ----

  datatype Move = Move(c: nat, t: nat, step: Step)

  ghost predicate Leads(s: State, moves: seq<Move>, s': State)
    decreases |moves|
  {
    if moves == [] then s == s'
    else
      var m := moves[0];
      Enabled(s, m.c, m.t, m.step) && Leads(Next(s, m.c, m.t, m.step), moves[1..], s')
  }

  const Empty := Proc(UNUSED, 0, None, None, false, 0, 0, 0, 0, Elsewhere)

  /** userinit has made the first process; no CPU runs anything yet. */
  ghost predicate Start(s: State) {
    && s.init < |s.procs| && s.procs[s.init] == Empty.(state := RUNNABLE, pid := 1)
    && (forall t: nat :: t < |s.procs| && t != s.init ==> s.procs[t] == Empty)
    && (forall c: nat :: c < |s.cpus| ==> s.cpus[c] == None)
    && s.table == Free && s.nextpid == 2 && s.ticks == 0 && s.irq == Quiet && s.charged == 0 && s.reaped == []
  }

  ghost predicate Reachable(s: State) {
    exists s0: State, moves: seq<Move> :: Start(s0) && Leads(s0, moves, s)
  }

  lemma StartInv(s: State)
    requires Start(s)
    ensures Inv(s)
  {
  }

  lemma {:induction false} RunInv(s: State, moves: seq<Move>, s': State)
    requires Inv(s) && Leads(s, moves, s')
    ensures Inv(s')
    decreases |moves|
  {
    hide Inv, Enabled, Next;
    if moves != [] {
      var m := moves[0];
      StepKeeps(s, m.c, m.t, m.step);
      RunInv(Next(s, m.c, m.t, m.step), moves[1..], s');
    }
  }

  lemma ReachableInv(s: State)
    requires Reachable(s)
    ensures Inv(s)
  {
    hide Inv, Leads, Start;
    var s0: State, moves: seq<Move> :| Start(s0) && Leads(s0, moves, s);
    StartInv(s0);
    RunInv(s0, moves, s);
  }

  /** Every started process but init has a parent that is neither ZOMBIE, UNUSED nor still being made; init lives. */
  lemma ParentsLive(s: State, t: nat)
    requires Reachable(s) && t < |s.procs| && Started(s.procs[t])
    ensures s.init < |s.procs| && Alive(s.procs[s.init])
    ensures t != s.init ==>
      s.procs[t].parent.Some? && s.procs[t].parent.value < |s.procs| && Alive(s.procs[s.procs[t].parent.value])
  {
    ReachableInv(s);
    assert ParentOk(s, t);
  }

  /** Nobody sleeps in wait or waitx while it has a zombie child. */
  lemma NoZombieMissed(s: State, t: nat)
    requires Reachable(s) && t < |s.procs| && s.procs[t].state == SLEEPING && s.procs[t].chan == Some(OfProc(t))
    ensures !HasZombieChild(s.procs, t)
  {
    ReachableInv(s);
    assert WaitsFor(s.procs[t], t);
    assert forall z: nat :: z < |s.procs| ==> !ZombieChild(s.procs[z], t);
  }

  /** A zombie is reaped once: its pid has not been reaped before, it is on no CPU, and pids reaped never repeat.
      What waitx reports adds up, and its waiting time is not negative. */
  lemma ReapedOnce(s: State, c: nat, t: nat, k: nat)
    requires Reachable(s) && Enabled(s, c, t, Reap(k))
    ensures !OnCpu(s, k) && s.procs[k].pid !in s.reaped
    ensures forall i: nat, j: nat :: i < j < |s.reaped| ==> s.reaped[i] != s.reaped[j]
    ensures var p := s.procs[k]; p.etime - p.ctime - p.rtime - p.iotime >= 0 && p.iotime == 0
  {
    ReachableInv(s);
    assert TimeOk(s, k);
    forall d: nat | d < |s.cpus|
      ensures s.cpus[d] != Some(k)
    {
      assert CpuOk(s, d);
    }
  }

  lemma ZombieSlot(s: State, c: nat, t: nat, step: Step, z: nat)
    requires ForksOk(s) && IrqOk(s) && Enabled(s, c, t, step) && z < |s.procs| && s.procs[z].state == ZOMBIE
    ensures Slot(s, t, step, z).state == ZOMBIE || (step == Reap(z) && s.procs[z].parent == Some(t))
  {
    if t < |s.procs| { assert ForkOk(s, t); }
    hide ForksOk;
  }

  lemma ReachableForks(s: State)
    requires Reachable(s)
    ensures ForksOk(s) && IrqOk(s)
  {
    ReachableInv(s);
  }

  /** A zombie stays one until its parent reaps it; it never runs again. */
  lemma ZombieStays(s: State, c: nat, t: nat, step: Step, z: nat)
    requires Reachable(s) && Enabled(s, c, t, step) && z < |s.procs| && s.procs[z].state == ZOMBIE
    ensures Next(s, c, t, step).procs[z].state == ZOMBIE || (step == Reap(z) && s.procs[z].parent == Some(t))
  {
    hide Inv, Slot, Slots, Enabled;
    ReachableForks(s);
    ZombieSlot(s, c, t, step, z);
  }

  /** Run and I/O time never exceed the time since creation, all charges together never exceed the ticks counted,
      and nothing is ever charged to I/O: the interrupted process is RUNNING. */
  lemma TimeAccounting(s: State, t: nat)
    requires Reachable(s) && t < |s.procs|
    ensures s.procs[t].rtime + s.procs[t].iotime <= s.ticks - s.procs[t].ctime
    ensures s.procs[t].iotime == 0 && s.charged <= s.ticks
  {
    ReachableInv(s);
    assert TimeOk(s, t);
  }

  // ---- The scans as loops over the table ----

  lemma WakeKeepsZombies(procs: seq<Proc>, ch: Chan, t: nat)
    ensures HasZombieChild(Wake(procs, ch), t) <==> HasZombieChild(procs, t)
  {
    if HasZombieChild(procs, t) {
      var i: nat :| i < |procs| && ZombieChild(procs[i], t);
      assert ZombieChild(Wake(procs, ch)[i], t);
    }
    if HasZombieChild(Wake(procs, ch), t) {
      var i: nat :| i < |procs| && ZombieChild(Wake(procs, ch)[i], t);
      assert ZombieChild(procs[i], t);
    }
  }

  /** exit as one change of the table, slot by slot. */
  lemma ExitSlots(s: State, c: nat, t: nat)
    requires Enabled(s, c, t, Exit) && s.procs[t].parent.Some?
    ensures Next(s, c, t, Exit).procs == Exited(s.procs, t, s.init, s.ticks)
  {
    WakeKeepsZombies(s.procs, OfProc(s.procs[t].parent.value), t);
  }

  datatype Answer = Child(k: nat, pid: nat, wtime: int, rtime: nat) | Nothing | MustSleep

  class Table {
    const procs: array<Proc>

    constructor (n: nat)
      ensures procs.Length == n && fresh(procs) && forall i: nat :: i < n ==> procs[i] == Empty
    {
      procs := new Proc[n](_ => Empty);
    }

    method Wakeup1(ch: Chan)
      modifies procs
      ensures procs[..] == Wake(old(procs[..]), ch)
    {
      for i := 0 to procs.Length
        invariant forall j: nat :: j < procs.Length ==> procs[j] == if j < i then Woken(old(procs[j]), ch) else old(procs[j])
      {
        if procs[i].state == SLEEPING && procs[i].chan == Some(ch) {
          procs[i] := procs[i].(state := RUNNABLE);
        }
      }
    }

    /** exit from the first wakeup1 to the change of state. */
    method ExitScan(t: nat, init: nat, now: nat)
      requires t < procs.Length && procs[t].parent.Some?
      modifies procs
      ensures procs[..] == Exited(old(procs[..]), t, init, now)
    {
      Wakeup1(OfProc(procs[t].parent.value));
      AdoptAll(t, init);
      procs[t] := procs[t].(state := ZOMBIE);
      procs[t] := procs[t].(etime := now);
    }

    ghost predicate AdoptedUpTo(was: seq<Proc>, t: nat, init: nat, n: nat, woken: bool)
      requires |was| == procs.Length
      reads this, procs
    {
      forall j: nat :: j < procs.Length ==>
        var a := if j < n then Adopted(was[j], t, init) else was[j];
        procs[j] == if woken then Woken(a, OfProc(init)) else a
    }

    /** exit's loop.  The wakeup calls it makes on the way come to one for the whole table. */
    method AdoptAll(t: nat, init: nat)
      modifies procs
      ensures procs[..] == Orphan(old(procs[..]), t, init)
    {
      ghost var was := procs[..];
      ghost var woken := false;
      for i := 0 to procs.Length
        invariant AdoptedUpTo(was, t, init, i, woken)
        invariant woken <==> exists j: nat :: j < i && ZombieChild(was[j], t)
      {
        if procs[i].parent == Some(t) {
          procs[i] := procs[i].(parent := Some(init));
          if procs[i].state == ZOMBIE {
            assert ZombieChild(was[i], t);
            Wakeup1(OfProc(init));
            woken := true;
          }
        }
      }
    }

    /** One pass of wait's or waitx's loop, up to its return or its sleep. */
    method WaitScan(t: nat) returns (r: Answer)
      requires t < procs.Length
      modifies procs
      ensures r.Child? ==>
        && r.k < procs.Length && ZombieChild(old(procs[r.k]), t) && r.pid == old(procs[r.k].pid)
        && (forall i: nat :: i < r.k ==> !ZombieChild(old(procs[i]), t))
        && r.rtime == old(procs[r.k].rtime)
        && r.wtime == old(procs[r.k].etime) - old(procs[r.k].ctime) - r.rtime - old(procs[r.k].iotime)
        && procs[..] == old(procs[..])[r.k := Reaped(old(procs[r.k]))]
      ensures !r.Child? ==> procs[..] == old(procs[..]) && !HasZombieChild(procs[..], t)
      ensures r.Nothing? ==> !HasChild(procs[..], t) || procs[t].killed
      ensures r.MustSleep? ==> HasChild(procs[..], t) && !procs[t].killed
    {
      var havekids := false;
      for i := 0 to procs.Length
        invariant procs[..] == old(procs[..])
        invariant forall j: nat :: j < i ==> !ZombieChild(procs[j], t)
        invariant havekids <==> exists j: nat :: j < i && procs[j].parent == Some(t)
      {
        if procs[i].parent == Some(t) {
          havekids := true;
          if procs[i].state == ZOMBIE {
            var p := procs[i];
            r := Child(i, p.pid, p.etime - p.ctime - p.rtime - p.iotime, p.rtime);
            procs[i] := p.(state := UNUSED, pid := 0, parent := None, killed := false);
            return;
          }
        }
      }
      assert havekids <==> HasChild(procs[..], t);
      r := if !havekids || procs[t].killed then Nothing else MustSleep;
    }

    method KillPid(pid: nat) returns (found: bool, ghost k: nat)
      modifies procs
      ensures found ==>
        && k < procs.Length && old(procs[k].pid) == pid && (forall i: nat :: i < k ==> old(procs[i].pid) != pid)
        && procs[..] == old(procs[..])[k := procs[k]] && procs[k].killed && procs[k].state != SLEEPING
        && procs[k] == old(procs[k]).(killed := true, state := procs[k].state)
        && (old(procs[k].state) != SLEEPING ==> procs[k].state == old(procs[k].state))
        && (old(procs[k].state) == SLEEPING ==> procs[k].state == RUNNABLE)
      ensures !found ==> procs[..] == old(procs[..]) && forall i: nat :: i < procs.Length ==> procs[i].pid != pid
    {
      k := 0;
      for i := 0 to procs.Length
        invariant procs[..] == old(procs[..]) && forall j: nat :: j < i ==> procs[j].pid != pid
      {
        if procs[i].pid == pid {
          procs[i] := procs[i].(killed := true);
          if procs[i].state == SLEEPING {
            procs[i] := procs[i].(state := RUNNABLE);
          }
          return true, i;
        }
      }
      found := false;
    }
  }
}
