/** The life of processes on several CPUs: scheduling, fork, exit and wait (proc.c).
    ptable.lock travels with control: a process that gives up its CPU hands the lock to that CPU's
    scheduler through swtch, and the scheduler hands it to the next process.  The work between taking
    the lock and the next swtch or release is one step, since nothing else reads or writes the table
    meanwhile except a forking process that fills in its own embryo. */
module ProcLife {
  import opened ProcTable

  datatype Stack = SchedStack | Kstack(page: nat)

  datatype Phase =
    | Idle               // scheduler loop, lock not held
    | Scan(i: nat)       // scheduler loop, lock held, looking at slot i
    | Chosen             // slot marked RUNNING, not yet switched to
    | Entered            // on the process's stack, lock still held
    | Waiting            // on the process's stack, lock held, at the top of wait's loop
    | Run                // on the process's stack, lock released
    | Leaving            // on the process's stack, lock held, state already changed
    | Left               // back on the scheduler's stack, proc not yet reset

  /** cur is the CPU's `proc`, -1 for none. */
  datatype Cpu = Cpu(cur: int, sp: Stack, ph: Phase)

  /** lock is the CPU that holds ptable.lock, -1 for none; free is the set of free pages. */
  datatype State = State(procs: seq<Proc>, cpus: seq<Cpu>, lock: int, free: set<nat>, nextpid: int, init: nat)

  datatype Step =
    | Acquire(c: nat) | Skip(c: nat) | Choose(c: nat) | SwtchIn(c: nat) | Resume(c: nat) | Release(c: nat)
    | SwtchOut(c: nat) | Continue(c: nat)
    | Yield(c: nat) | Sleep(c: nat, k: nat) | Wakeup(c: nat, k: nat) | Kill(c: nat, pid: int)
    | Exit(c: nat) | Wait(c: nat) | WaitPass(c: nat)
    | ForkAlloc(c: nat) | ForkStack(c: nat, page: nat) | ForkNoStack(c: nat) | ForkNoCopy(c: nat)
    | ForkParent(c: nat) | ForkRun(c: nat)

  // ---- The steps ----

  predicate Shaped(s: State) {
    && s.init < |s.procs|
    && (forall c :: 0 <= c < |s.cpus| ==> CurOk(s.cpus[c], |s.procs|))
    && (forall p :: 0 <= p < |s.procs| ==> (s.procs[p].act.Forking? ==> s.procs[p].act.child < |s.procs|))
  }

  predicate CurOk(c: Cpu, n: nat) {
    if c.ph.Idle? || c.ph.Scan? then c.cur == -1 && (c.ph.Scan? ==> c.ph.i <= n) else 0 <= c.cur < n
  }

  function Cur(s: State, c: nat): Proc
    requires Shaped(s) && c < |s.cpus| && s.cpus[c].cur >= 0
  {
    s.procs[s.cpus[c].cur]
  }

  predicate Forks(s: State, c: nat, stage: nat)
    requires Shaped(s)
  {
    c < |s.cpus| && s.cpus[c].ph == Run && Cur(s, c).act.Forking? && Cur(s, c).act.stage == stage
  }

  predicate PlainRun(s: State, c: nat)
    requires Shaped(s)
  {
    c < |s.cpus| && s.cpus[c].ph == Run && Cur(s, c).act == Plain
  }

  predicate Enabled(s: State, st: Step)
    requires Shaped(s)
  {
    match st
    case Acquire(c) => c < |s.cpus| && s.cpus[c].ph == Idle && s.lock == -1
    case Skip(c) => c < |s.cpus| && s.cpus[c].ph.Scan? && s.cpus[c].ph.i < |s.procs| &&
          s.procs[s.cpus[c].ph.i].state != RUNNABLE
    case Choose(c) => c < |s.cpus| && s.cpus[c].ph.Scan? && s.cpus[c].ph.i < |s.procs| &&
          s.procs[s.cpus[c].ph.i].state == RUNNABLE
    case SwtchIn(c) => c < |s.cpus| && s.cpus[c].ph == Chosen
    case Resume(c) => c < |s.cpus| && s.cpus[c].ph == Entered
    case Release(c) => c < |s.cpus| && s.cpus[c].ph == Scan(|s.procs|)
    case SwtchOut(c) => c < |s.cpus| && s.cpus[c].ph == Leaving
    case Continue(c) => c < |s.cpus| && s.cpus[c].ph == Left
    case Yield(c) => c < |s.cpus| && s.cpus[c].ph == Run && s.lock == -1
    case Sleep(c, k) => PlainRun(s, c) && s.lock == -1
    case Wakeup(c, k) => c < |s.cpus| && (s.cpus[c].ph == Run || s.cpus[c].ph == Idle) && s.lock == -1
    case Kill(c, pid) => c < |s.cpus| && s.cpus[c].ph == Run && s.lock == -1
    case Exit(c) => PlainRun(s, c) && s.cpus[c].cur != s.init && s.lock == -1
    case Wait(c) => PlainRun(s, c) && s.lock == -1
    case WaitPass(c) => c < |s.cpus| && s.cpus[c].ph == Waiting
    case ForkAlloc(c) => PlainRun(s, c) && s.lock == -1 && Find(s.procs, 0, Unused()) < |s.procs|
    case ForkStack(c, page) => Forks(s, c, 0) && page in s.free
    case ForkNoStack(c) => Forks(s, c, 0)
    case ForkNoCopy(c) => Forks(s, c, 1)
    case ForkParent(c) => Forks(s, c, 1)
    case ForkRun(c) => Forks(s, c, 2) && s.lock == -1
  }

  predicate Forkish(st: Step) {
    st.ForkAlloc? || st.ForkStack? || st.ForkNoStack? || st.ForkNoCopy? || st.ForkParent? || st.ForkRun?
  }

  function SetCpu(s: State, c: nat, x: Cpu): State
    requires c < |s.cpus|
  {
    s.(cpus := s.cpus[c := x])
  }

  function SetPhase(s: State, c: nat, ph: Phase): State
    requires c < |s.cpus|
  {
    SetCpu(s, c, s.cpus[c].(ph := ph))
  }

  function SetProc(s: State, p: nat, x: Proc): State
    requires p < |s.procs|
  {
    s.(procs := s.procs[p := x])
  }

  /** The current process of c has become x and is about to call sched with the lock held. */
  function Leave(s: State, c: nat, x: Proc): State
    requires Shaped(s) && c < |s.cpus| && s.cpus[c].cur >= 0
  {
    SetPhase(SetProc(s, s.cpus[c].cur, x), c, Leaving).(lock := c)
  }

  /** One pass of wait over the table: reap a zombie child, give up, or go to sleep. */
  function WaitPassed(s: State, c: nat): State
    requires Shaped(s) && c < |s.cpus| && s.cpus[c].cur >= 0
  {
    var p := s.cpus[c].cur;
    match WaitScan(s.procs, p)
    case Found(z) =>
      SetPhase(SetProc(s, z, Reaped(s.procs[z])), c, Run).(lock := -1, free := s.free + {s.procs[z].kstack})
    case NoChildren => SetPhase(s, c, Run).(lock := -1)
    case MustSleep => Leave(s, c, s.procs[p].(chan := Slot(p), state := SLEEPING, pc := InWait))
  }

  /** The process switched to on c goes on from where it left off: in wait it keeps the lock. */
  function Resumed(s: State, c: nat): State
    requires Shaped(s) && c < |s.cpus| && s.cpus[c].cur >= 0
  {
    var p := s.cpus[c].cur;
    var x := s.procs[p];
    var y := x.(pc := Normal, chan := if x.pc == InSleep || x.pc == InWait then NoChan else x.chan);
    if x.pc == InWait then SetPhase(SetProc(s, p, y), c, Waiting)
    else SetPhase(SetProc(s, p, y), c, Run).(lock := -1)
  }

  function Apply(s: State, st: Step): State
    requires Shaped(s) && Enabled(s, st)
  {
    match st
    case Acquire(c) => SetPhase(s, c, Scan(0)).(lock := c)
    case Skip(c) => SetPhase(s, c, Scan(s.cpus[c].ph.i + 1))
    case Choose(c) =>
      var i := s.cpus[c].ph.i;
      SetCpu(SetProc(s, i, s.procs[i].(state := RUNNING)), c, s.cpus[c].(cur := i, ph := Chosen))
    case SwtchIn(c) => SetCpu(s, c, s.cpus[c].(sp := Kstack(Cur(s, c).kstack), ph := Entered))
    case Resume(c) => Resumed(s, c)
    case Release(c) => SetPhase(s, c, Idle).(lock := -1)
    case SwtchOut(c) => SetCpu(s, c, s.cpus[c].(sp := SchedStack, ph := Left))
    case Continue(c) => SetCpu(s, c, s.cpus[c].(cur := -1, ph := Scan(s.cpus[c].cur + 1)))
    case Yield(c) => Leave(s, c, Cur(s, c).(state := RUNNABLE, pc := InYield))
    case Sleep(c, k) => Leave(s, c, Cur(s, c).(chan := Other(k), state := SLEEPING, pc := InSleep))
    case Wakeup(c, k) => s.(procs := WakeAll(s.procs, Other(k)))
    case Kill(c, pid) =>
      var q := Find(s.procs, 0, WithPid(pid));
      if q < |s.procs| then SetProc(s, q, Killed(s.procs[q])) else s
    case Exit(c) =>
      var t := ExitTable(s.procs, s.cpus[c].cur, s.init);
      Leave(s.(procs := t), c, t[s.cpus[c].cur].(pc := Dying))
    case Wait(c) => SetPhase(s, c, Waiting).(lock := c)
    case WaitPass(c) => WaitPassed(s, c)
    case _ => ForkApply(s, st)
  }

  function ForkApply(s: State, st: Step): State
    requires Shaped(s) && Enabled(s, st) && Forkish(st)
  {
    match st
    case ForkAlloc(c) =>
      var q := Find(s.procs, 0, Unused());
      ForkTo(s, c, q, s.procs[q].(state := EMBRYO, pid := s.nextpid), Forking(q, 0), s.free).(nextpid := s.nextpid + 1)
    case ForkStack(c, page) =>
      ForkTo(s, c, Child(s, c), s.procs[Child(s, c)].(kstack := page), Forking(Child(s, c), 1), s.free - {page})
    case ForkNoStack(c) =>
      ForkTo(s, c, Child(s, c), s.procs[Child(s, c)].(kstack := 0, state := UNUSED), Plain, s.free)
    case ForkNoCopy(c) =>
      ForkTo(s, c, Child(s, c), s.procs[Child(s, c)].(kstack := 0, state := UNUSED), Plain,
          s.free + {s.procs[Child(s, c)].kstack})
    case ForkParent(c) =>
      ForkTo(s, c, Child(s, c), s.procs[Child(s, c)].(parent := s.cpus[c].cur), Forking(Child(s, c), 2), s.free)
    case ForkRun(c) =>
      ForkTo(s, c, Child(s, c), s.procs[Child(s, c)].(state := RUNNABLE, pc := Forkret), Plain, s.free)
  }

  function Child(s: State, c: nat): nat
    requires Shaped(s) && c < |s.cpus| && s.cpus[c].cur >= 0 && Cur(s, c).act.Forking?
  {
    Cur(s, c).act.child
  }

  /** fork on c has changed its embryo q to x and reached the stage in act. */
  function ForkTo(s: State, c: nat, q: nat, x: Proc, act: Act, free: set<nat>): State
    requires Shaped(s) && c < |s.cpus| && s.cpus[c].cur >= 0 && q < |s.procs|
  {
    var t := s.procs[q := x];
    s.(procs := t[s.cpus[c].cur := t[s.cpus[c].cur].(act := act)], free := free)
  }

  // ---- The invariant ----

  predicate Locked(ph: Phase) {
    !ph.Idle? && !ph.Run?
  }

  predicate Started(p: Proc) {
    p.state != UNUSED && p.state != EMBRYO
  }

  predicate Live(p: Proc) {
    Started(p) && p.state != ZOMBIE
  }

  /** ptable.lock is held by exactly the CPU whose control is inside a critical section. */
  ghost predicate LockOk(s: State) {
    && -1 <= s.lock < |s.cpus|
    && (forall c :: 0 <= c < |s.cpus| ==> (s.lock == c <==> Locked(s.cpus[c].ph)))
  }

  /** A CPU on a kernel stack is on the stack of its current process, which is RUNNING unless it is
      on its way out. */
  predicate CpuOk(s: State, c: Cpu)
    requires CurOk(c, |s.procs|)
  {
    && (c.ph.Idle? || c.ph.Scan? || c.ph.Chosen? || c.ph.Left? ==> c.sp == SchedStack)
    && (c.ph.Entered? || c.ph.Waiting? || c.ph.Run? || c.ph.Leaving? ==> c.sp == Kstack(s.procs[c.cur].kstack))
    && (c.ph.Chosen? || c.ph.Entered? || c.ph.Waiting? || c.ph.Run? ==> s.procs[c.cur].state == RUNNING)
    && (c.ph.Waiting? ==> s.procs[c.cur].act == Plain)
    && (c.ph.Leaving? || c.ph.Left? ==> Started(s.procs[c.cur]) && s.procs[c.cur].state != RUNNING)
    && (c.ph.Run? || c.ph.Waiting? ==> s.procs[c.cur].pc == Normal)
  }

  ghost predicate CpusOk(s: State)
    requires Shaped(s)
  {
    forall c :: 0 <= c < |s.cpus| ==> CpuOk(s, s.cpus[c])
  }

  /** Each RUNNING process is current on exactly one CPU, and no process on two. */
  ghost predicate RunningOk(s: State)
    requires Shaped(s)
  {
    && (forall c, d :: 0 <= c < d < |s.cpus| ==> s.cpus[c].cur == -1 || s.cpus[c].cur != s.cpus[d].cur)
    && (forall p :: 0 <= p < |s.procs| && s.procs[p].state == RUNNING ==>
          exists c :: 0 <= c < |s.cpus| && s.cpus[c].cur == p)
  }

  /** Kernel stacks: one each, none of them free. */
  ghost predicate StacksOk(s: State) {
    && 0 !in s.free
    && (forall p :: 0 <= p < |s.procs| ==> s.procs[p].kstack !in s.free)
    && (forall p :: 0 <= p < |s.procs| && Started(s.procs[p]) ==> s.procs[p].kstack != 0)
    && (forall p :: 0 <= p < |s.procs| && s.procs[p].state == UNUSED ==> s.procs[p].kstack == 0)
    && (forall p, q :: 0 <= p < q < |s.procs| ==> s.procs[p].kstack == 0 || s.procs[p].kstack != s.procs[q].kstack)
  }

  /** An unfinished fork and its embryo. */
  predicate ForkOk(procs: seq<Proc>, p: nat)
    requires p < |procs| && (procs[p].act.Forking? ==> procs[p].act.child < |procs|)
  {
    procs[p].act.Forking? ==>
      var e := procs[procs[p].act.child];
      && (procs[p].state == RUNNING || procs[p].state == RUNNABLE) && procs[p].pc != InWait
      && procs[p].act.stage <= 2 && procs[p].act.child != p
      && e.state == EMBRYO
      && (e.kstack != 0 <==> procs[p].act.stage > 0)
      && e.parent == if procs[p].act.stage == 2 then p else -1
  }

  /** An embryo, or an unused slot. */
  predicate EmbryoOk(procs: seq<Proc>, p: nat)
    requires p < |procs|
  {
    && (!Started(procs[p]) ==> procs[p].act == Plain)
    && (procs[p].state == UNUSED ==> procs[p].parent == -1)
    && (procs[p].state == EMBRYO && procs[p].parent != -1 ==>
          0 <= procs[p].parent < |procs| && procs[procs[p].parent].act == Forking(p, 2))
  }

  ghost predicate ForksOk(s: State)
    requires Shaped(s)
  {
    && (forall p {:trigger ForkOk(s.procs, p)} :: 0 <= p < |s.procs| ==> ForkOk(s.procs, p))
    && (forall p {:trigger EmbryoOk(s.procs, p)} :: 0 <= p < |s.procs| ==> EmbryoOk(s.procs, p))
    && (forall p, q :: 0 <= p < q < |s.procs| && s.procs[p].act.Forking? && s.procs[q].act.Forking? ==>
          s.procs[p].act.child != s.procs[q].act.child)
  }

  /** Every started process but init has a live parent. */
  predicate ParentOk(procs: seq<Proc>, init: nat, p: nat)
    requires p < |procs|
  {
    if p == init then Live(procs[p]) && procs[p].parent == -1
    else Started(procs[p]) ==> 0 <= procs[p].parent < |procs| && procs[p].parent != p && Live(procs[procs[p].parent])
  }

  ghost predicate ParentsOk(s: State)
    requires Shaped(s)
  {
    forall p {:trigger ParentOk(s.procs, s.init, p)} :: 0 <= p < |s.procs| ==> ParentOk(s.procs, s.init, p)
  }

  predicate SleepOk(p: Proc, i: nat) {
    && (p.state == SLEEPING && p.pc == InWait ==> p.chan == Slot(i))
    && (p.state == SLEEPING ==> p.pc == InWait || (p.pc == InSleep && p.chan.Other?))
  }

  ghost predicate SleepsOk(s: State) {
    forall p :: 0 <= p < |s.procs| ==> SleepOk(s.procs[p], p)
  }

  predicate InWaitSleep(p: Proc) {
    p.state == SLEEPING && p.pc == InWait
  }

  ghost predicate WaitOk(t: seq<Proc>, p: nat) {
    !HasZombieChild(t, p) && exists q :: 0 <= q < |t| && t[q].parent == p && Live(t[q])
  }

  /** A process that sleeps in wait has no zombie child, and has a live child to wait for. */
  ghost predicate WaitsOk(s: State) {
    forall p {:trigger WaitOk(s.procs, p)} :: 0 <= p < |s.procs| && InWaitSleep(s.procs[p]) ==> WaitOk(s.procs, p)
  }

  ghost predicate Inv(s: State) {
    && Shaped(s)
    && LockOk(s) && CpusOk(s) && RunningOk(s) && StacksOk(s) && ForksOk(s) && ParentsOk(s) && SleepsOk(s) && WaitsOk(s)
  }

  /** Boot: init is runnable, every other slot is unused, every CPU is in its scheduler. */
  ghost predicate Init(s: State) {
    && s.init < |s.procs| && s.lock == -1 && 0 !in s.free && s.nextpid == 2
    && (forall c :: 0 <= c < |s.cpus| ==> s.cpus[c] == Cpu(-1, SchedStack, Idle))
    && (forall p :: 0 <= p < |s.procs| && p != s.init ==>
          s.procs[p] == Proc(UNUSED, 0, -1, 0, NoChan, false, Plain, Normal))
    && s.procs[s.init] == Proc(RUNNABLE, 1, -1, s.procs[s.init].kstack, NoChan, false, Plain, Forkret)
    && s.procs[s.init].kstack != 0 && s.procs[s.init].kstack !in s.free
  }

  lemma InitInv(s: State)
    requires Init(s)
    ensures Inv(s)
  {
  }

  // ---- Every step keeps it: the CPUs ----

  predicate SameRun(x: Proc, y: Proc) {
    x.state == y.state && x.kstack == y.kstack && x.pc == y.pc && x.act == y.act
  }

  /** A step of CPU c that leaves the other CPUs and their current processes alone. */
  ghost predicate OneCpu(s: State, s': State, c: nat)
    requires Shaped(s) && Shaped(s')
  {
    && |s'.procs| == |s.procs| && |s'.cpus| == |s.cpus| && c < |s.cpus|
    && (forall d :: 0 <= d < |s.cpus| && d != c ==>
          s'.cpus[d] == s.cpus[d] && (s.cpus[d].cur >= 0 ==> SameRun(s.procs[s.cpus[d].cur], s'.procs[s.cpus[d].cur])))
    && CpuOk(s', s'.cpus[c])
    && ((s'.lock == s.lock && s'.cpus[c].ph == s.cpus[c].ph) ||
          ((s.lock == -1 || s.lock == c) && s'.lock == if Locked(s'.cpus[c].ph) then c else -1))
    && (s'.cpus[c].cur == s.cpus[c].cur || s'.cpus[c].cur == -1 ||
          (forall d :: 0 <= d < |s.cpus| ==> s.cpus[d].cur != s'.cpus[c].cur))
    && (forall p :: 0 <= p < |s.procs| && s'.procs[p].state == RUNNING ==>
          (s.procs[p].state == RUNNING && p != s.cpus[c].cur) || p == s'.cpus[c].cur)
  }

  lemma OneCpuOk(s: State, s': State, c: nat)
    requires Inv(s) && Shaped(s') && OneCpu(s, s', c)
    ensures LockOk(s') && CpusOk(s') && RunningOk(s')
  {
    forall d | 0 <= d < |s'.cpus| ensures CpuOk(s', s'.cpus[d]) {
      assert CpuOk(s, s.cpus[d]);
    }
    forall p | 0 <= p < |s'.procs| && s'.procs[p].state == RUNNING
      ensures exists d :: 0 <= d < |s'.cpus| && s'.cpus[d].cur == p
    {
      if p != s'.cpus[c].cur {
        var d :| 0 <= d < |s.cpus| && s.cpus[d].cur == p;
        assert s'.cpus[d].cur == p;
      } else {
        assert s'.cpus[c].cur == p;
      }
    }
  }

  /** While c may take the lock, the other CPUs are outside it: idle or running a RUNNING process. */
  lemma OthersOutside(s: State, c: nat, d: nat)
    requires Inv(s) && c < |s.cpus| && d < |s.cpus| && d != c && (s.lock == -1 || s.lock == c)
    ensures s.cpus[d].ph.Idle? || (s.cpus[d].ph.Run? && Cur(s, d).state == RUNNING && s.cpus[d].cur != s.cpus[c].cur)
  {
    assert CpuOk(s, s.cpus[d]);
    if s.cpus[d].cur >= 0 && c < d {
      assert s.cpus[c].cur == -1 || s.cpus[c].cur != s.cpus[d].cur;
    }
  }

  // ---- The process table ----

  predicate SameKind(x: PState, y: PState) {
    x == y || (x in {SLEEPING, RUNNABLE, RUNNING} && y in {SLEEPING, RUNNABLE, RUNNING})
  }

  /** Slot p after a step that only moves live processes between SLEEPING, RUNNABLE and RUNNING. */
  ghost predicate MildSlot(t: seq<Proc>, p: nat, x: Proc)
    requires p < |t|
  {
    && SameKind(t[p].state, x.state)
    && x.parent == t[p].parent && x.kstack == t[p].kstack && x.act == t[p].act
    && SleepOk(x, p)
    && (t[p].act.Forking? ==> x.state != SLEEPING && x.pc != InWait)
    && (InWaitSleep(x) ==> WaitOk(t, p))
  }

  ghost predicate Mild(t: seq<Proc>, t': seq<Proc>) {
    |t'| == |t| && forall p :: 0 <= p < |t| ==> MildSlot(t, p, t'[p])
  }

  lemma MildWaits(t: seq<Proc>, t': seq<Proc>, p: nat)
    requires Mild(t, t') && WaitOk(t, p)
    ensures WaitOk(t', p)
  {
    var q :| 0 <= q < |t| && t[q].parent == p && Live(t[q]);
    assert MildSlot(t, q, t'[q]);
    assert t'[q].parent == p && Live(t'[q]);
    forall z | 0 <= z < |t'| && t'[z].parent == p ensures t'[z].state != ZOMBIE {
      assert MildSlot(t, z, t'[z]);
    }
  }

  lemma MildStacks(s: State, s': State)
    requires StacksOk(s) && Mild(s.procs, s'.procs) && s'.free == s.free
    ensures StacksOk(s')
  {
    forall p | 0 <= p < |s.procs| ensures MildSlot(s.procs, p, s'.procs[p]) {
    }
  }

  lemma MildForks(s: State, s': State)
    requires Shaped(s) && Shaped(s') && ForksOk(s) && Mild(s.procs, s'.procs)
    ensures ForksOk(s')
  {
    forall p | 0 <= p < |s'.procs| ensures ForkOk(s'.procs, p) {
      assert ForkOk(s.procs, p) && MildSlot(s.procs, p, s'.procs[p]);
      if s.procs[p].act.Forking? {
        assert MildSlot(s.procs, s.procs[p].act.child, s'.procs[s.procs[p].act.child]);
      }
    }
    forall p | 0 <= p < |s'.procs| ensures EmbryoOk(s'.procs, p) {
      assert EmbryoOk(s.procs, p) && MildSlot(s.procs, p, s'.procs[p]);
      if s.procs[p].state == EMBRYO && s.procs[p].parent != -1 {
        assert MildSlot(s.procs, s.procs[p].parent, s'.procs[s.procs[p].parent]);
      }
    }
    forall p | 0 <= p < |s.procs| ensures MildSlot(s.procs, p, s'.procs[p]) {
    }
  }

  lemma MildParents(s: State, s': State)
    requires Shaped(s) && Shaped(s') && ParentsOk(s) && Mild(s.procs, s'.procs) && s'.init == s.init
    ensures ParentsOk(s')
  {
    forall p | 0 <= p < |s'.procs| ensures ParentOk(s'.procs, s'.init, p) {
      assert ParentOk(s.procs, s.init, p) && MildSlot(s.procs, p, s'.procs[p]);
      if p != s.init && Started(s.procs[p]) {
        assert MildSlot(s.procs, s.procs[p].parent, s'.procs[s.procs[p].parent]);
      }
    }
  }

  lemma MildOk(s: State, s': State)
    requires Inv(s) && Shaped(s') && Mild(s.procs, s'.procs) && s'.free == s.free && s'.init == s.init
    ensures StacksOk(s') && ForksOk(s') && ParentsOk(s') && SleepsOk(s') && WaitsOk(s')
  {
    MildStacks(s, s');
    MildForks(s, s');
    MildParents(s, s');
    forall p | 0 <= p < |s'.procs|
      ensures SleepOk(s'.procs[p], p) && (InWaitSleep(s'.procs[p]) ==> WaitOk(s'.procs, p))
    {
      assert MildSlot(s.procs, p, s'.procs[p]);
      if InWaitSleep(s'.procs[p]) {
        MildWaits(s.procs, s'.procs, p);
      }
    }
  }

  // ---- Step by step ----

  predicate Mildly(st: Step) {
    !st.Exit? && !st.WaitPass? && !st.ForkAlloc? && !st.ForkStack? && !st.ForkNoStack? && !st.ForkNoCopy? &&
        !st.ForkParent? && !st.ForkRun?
  }

  lemma SlotSame(s: State, p: nat)
    requires Inv(s) && p < |s.procs|
    ensures MildSlot(s.procs, p, s.procs[p])
    ensures s.procs[p].state == SLEEPING ==>
          s.procs[p].act == Plain && MildSlot(s.procs, p, s.procs[p].(state := RUNNABLE))
    ensures s.procs[p].state == SLEEPING ==> MildSlot(s.procs, p, s.procs[p].(state := RUNNABLE, killed := true))
    ensures s.procs[p].state != SLEEPING ==> MildSlot(s.procs, p, s.procs[p].(killed := true))
  {
    assert SleepOk(s.procs[p], p) && ForkOk(s.procs, p);
    if InWaitSleep(s.procs[p]) {
      assert WaitOk(s.procs, p);
    }
  }

  lemma OneSlotMild(s: State, p: nat, x: Proc)
    requires Inv(s) && p < |s.procs| && MildSlot(s.procs, p, x)
    ensures Mild(s.procs, s.procs[p := x])
  {
    hide Inv;
    var t := s.procs[p := x];
    forall q | 0 <= q < |t| ensures MildSlot(s.procs, q, t[q]) {
      if q != p {
        SlotSame(s, q);
      }
    }
  }

  /** What the step does to the table, when it is mild. */
  lemma MildTable(s: State, st: Step)
    requires Inv(s) && Enabled(s, st) && Mildly(st)
    ensures Mild(s.procs, Apply(s, st).procs)
  {
    hide LockOk, RunningOk, StacksOk, ParentsOk, WaitsOk, WaitOk, SleepsOk, ForksOk, Mild;
    var cpu := s.cpus[st.c];
    assert CpuOk(s, cpu);
    match st
    case Choose(_) => RunMild(s, cpu.ph.i); OneSlotMild(s, cpu.ph.i, s.procs[cpu.ph.i].(state := RUNNING));
    case Resume(_) => ResumeMild(s, st.c);
    case Yield(_) => YieldMild(s, cpu.cur); OneSlotMild(s, cpu.cur, Cur(s, st.c).(state := RUNNABLE, pc := InYield));
    case Sleep(_, k) => OneSlotMild(s, cpu.cur, Cur(s, st.c).(chan := Other(k), state := SLEEPING, pc := InSleep));
    case Wakeup(_, k) => WakeMild(s, Other(k));
    case Kill(_, pid) =>
      var q := Find(s.procs, 0, WithPid(pid));
      if q < |s.procs| {
        SlotSame(s, q);
        OneSlotMild(s, q, Killed(s.procs[q]));
      } else {
        NothingMild(s);
      }
    case _ => NothingMild(s);
  }

  lemma NothingMild(s: State)
    requires Inv(s)
    ensures Mild(s.procs, s.procs)
  {
    hide Inv;
    forall q | 0 <= q < |s.procs| ensures MildSlot(s.procs, q, s.procs[q]) {
      SlotSame(s, q);
    }
  }

  lemma WakeMild(s: State, chan: Chan)
    requires Inv(s)
    ensures Mild(s.procs, WakeAll(s.procs, chan))
  {
    hide Inv;
    forall q | 0 <= q < |s.procs| ensures MildSlot(s.procs, q, WakeAll(s.procs, chan)[q]) {
      SlotSame(s, q);
    }
  }

  lemma RunMild(s: State, p: nat)
    requires Inv(s) && p < |s.procs| && s.procs[p].state == RUNNABLE
    ensures MildSlot(s.procs, p, s.procs[p].(state := RUNNING))
  {
    SlotSame(s, p);
  }

  lemma YieldMild(s: State, p: nat)
    requires Inv(s) && p < |s.procs| && s.procs[p].state == RUNNING
    ensures MildSlot(s.procs, p, s.procs[p].(state := RUNNABLE, pc := InYield))
  {
    SlotSame(s, p);
  }

  lemma ResumeMild(s: State, c: nat)
    requires Inv(s) && Enabled(s, Resume(c))
    ensures Mild(s.procs, Resumed(s, c).procs)
  {
    assert CpuOk(s, s.cpus[c]);
    var x := Resumed(s, c).procs[s.cpus[c].cur];
    SlotSame(s, s.cpus[c].cur);
    OneSlotMild(s, s.cpus[c].cur, x);
  }

  lemma MildShaped(s: State, st: Step)
    requires Inv(s) && Enabled(s, st) && Mildly(st)
    ensures Shaped(Apply(s, st)) && Apply(s, st).free == s.free && Apply(s, st).init == s.init
  {
    MildTable(s, st);
    hide LockOk, RunningOk, StacksOk, ParentsOk, WaitsOk, WaitOk, SleepsOk, ForksOk;
    assert CpuOk(s, s.cpus[st.c]);
    forall p | 0 <= p < |s.procs| ensures MildSlot(s.procs, p, Apply(s, st).procs[p]) {
    }
  }

  /** CPU c holds the lock or takes it, and the other CPUs are outside. */
  ghost predicate Alone(s: State, c: nat)
    requires Shaped(s) && c < |s.cpus|
  {
    forall d :: 0 <= d < |s.cpus| && d != c ==>
      s.cpus[d].ph.Idle? || (s.cpus[d].ph.Run? && s.procs[s.cpus[d].cur].state == RUNNING &&
          s.cpus[d].cur != s.cpus[c].cur)
  }

  lemma IsAlone(s: State, c: nat)
    requires Inv(s) && c < |s.cpus| && (s.lock == -1 || Locked(s.cpus[c].ph))
    ensures Alone(s, c) && CpuOk(s, s.cpus[c]) && (s.lock == -1 || s.lock == c)
    ensures (s.lock == c <==> Locked(s.cpus[c].ph))
    ensures s.cpus[c].cur >= 0 ==> ForkOk(s.procs, s.cpus[c].cur)
  {
    assert s.lock == c || !Locked(s.cpus[c].ph);
    hide CpusOk, RunningOk, StacksOk, ForksOk, ParentsOk, SleepsOk, WaitsOk;
    forall d | 0 <= d < |s.cpus| && d != c
      ensures s.cpus[d].ph.Idle? ||
            (s.cpus[d].ph.Run? && s.procs[s.cpus[d].cur].state == RUNNING && s.cpus[d].cur != s.cpus[c].cur)
    {
      OthersOutside(s, c, d);
    }
  }

  /** Steps of the scheduler that leave the table alone, and the way into wait. */
  lemma SchedCpus(s: State, st: Step)
    requires Shaped(s) && Enabled(s, st) && Shaped(Apply(s, st)) && Alone(s, st.c) && CpuOk(s, s.cpus[st.c])
    requires (s.lock == -1 || s.lock == st.c) && (s.lock == st.c <==> Locked(s.cpus[st.c].ph))
    requires st.Acquire? || st.Skip? || st.SwtchIn? || st.Release? || st.SwtchOut? || st.Continue? || st.Wait?
    ensures OneCpu(s, Apply(s, st), st.c)
  {
  }

  lemma ChooseCpus(s: State, st: Step)
    requires Shaped(s) && Enabled(s, st) && Shaped(Apply(s, st)) && Alone(s, st.c) && CpuOk(s, s.cpus[st.c])
    requires s.lock == st.c && st.Choose?
    ensures OneCpu(s, Apply(s, st), st.c)
  {
  }

  lemma ResumeCpus(s: State, st: Step)
    requires Shaped(s) && Enabled(s, st) && Shaped(Apply(s, st)) && Alone(s, st.c) && CpuOk(s, s.cpus[st.c])
    requires s.lock == st.c && st.Resume? && ForkOk(s.procs, s.cpus[st.c].cur)
    ensures OneCpu(s, Apply(s, st), st.c)
  {
  }

  /** The current process becomes x and leaves, while other processes may be woken. */
  lemma LeaveCpus(s: State, s': State, c: nat)
    requires Shaped(s) && Shaped(s') && c < |s.cpus| && s.cpus[c].cur >= 0 && Alone(s, c)
    requires (s.lock == -1 || s.lock == c)
    requires |s'.procs| == |s.procs| && s'.cpus == s.cpus[c := s.cpus[c].(ph := Leaving)] && s'.lock == c
    requires s.cpus[c].sp == Kstack(s.procs[s.cpus[c].cur].kstack)
    requires forall p :: 0 <= p < |s.procs| && p != s.cpus[c].cur ==>
               SameRun(s.procs[p], s'.procs[p]) || (s.procs[p].state != RUNNING && s'.procs[p].state != RUNNING)
    requires s'.procs[s.cpus[c].cur].state in {SLEEPING, RUNNABLE, ZOMBIE}
    requires s'.procs[s.cpus[c].cur].kstack == s.procs[s.cpus[c].cur].kstack
    ensures OneCpu(s, s', c)
  {
  }

  /** Sleepers are woken; no CPU is affected. */
  lemma WakeCpus(s: State, s': State, c: nat)
    requires Inv(s) && Shaped(s') && c < |s.cpus| && Alone(s, c) && s.lock == -1
    requires |s'.procs| == |s.procs| && s'.cpus == s.cpus && s'.lock == s.lock
    requires forall p :: 0 <= p < |s.procs| ==>
               SameRun(s.procs[p], s'.procs[p]) || (s.procs[p].state == SLEEPING && s'.procs[p].state == RUNNABLE)
    ensures OneCpu(s, s', c)
  {
    assert CpuOk(s, s.cpus[c]);
    assert s.lock == c <==> Locked(s.cpus[c].ph);
    hide LockOk, CpusOk, RunningOk, StacksOk, ForksOk, ParentsOk, SleepsOk, WaitsOk;
  }

  lemma MildCpus(s: State, st: Step)
    requires Inv(s) && Enabled(s, st) && Mildly(st) && Shaped(Apply(s, st))
    ensures OneCpu(s, Apply(s, st), st.c)
  {
    IsAlone(s, st.c);
    hide LockOk, CpusOk, RunningOk, StacksOk, ForksOk, ParentsOk, SleepsOk, WaitsOk, OneCpu, Alone;
    if st.Choose? {
      ChooseCpus(s, st);
    } else if st.Resume? {
      ResumeCpus(s, st);
    } else if st.Yield? || st.Sleep? {
      LeaveCpus(s, Apply(s, st), st.c);
    } else if st.Wakeup? || st.Kill? {
      WakeCpus(s, Apply(s, st), st.c);
    } else {
      SchedCpus(s, st);
    }
  }

  lemma MildInv(s: State, st: Step)
    requires Inv(s) && Enabled(s, st) && Mildly(st)
    ensures Inv(Apply(s, st))
  {
    MildTable(s, st);
    MildShaped(s, st);
    MildOk(s, Apply(s, st));
    MildCpus(s, st);
    OneCpuOk(s, Apply(s, st), st.c);
  }

  // ---- exit ----

  /** What exit does to the table, as far as everything but the sleepers in wait is concerned. */
  ghost predicate ExitEffect(t: seq<Proc>, t': seq<Proc>, p: nat, init: nat) {
    && |t'| == |t|
    && (forall i {:trigger t'[i]} :: 0 <= i < |t| ==>
          && t'[i].kstack == t[i].kstack && t'[i].act == t[i].act && t'[i].pid == t[i].pid
          && t'[i].parent == (if t[i].parent == p then init else t[i].parent)
          && (if i == p then t'[i].state == ZOMBIE
              else || (t'[i].state == t[i].state && t'[i].pc == t[i].pc)
                   || (t[i].state == SLEEPING && t'[i].state == RUNNABLE)))
  }

  lemma ExitEffects(s: State, c: nat)
    requires Shaped(s) && Enabled(s, Exit(c))
    ensures ExitEffect(s.procs, Apply(s, Exit(c)).procs, s.cpus[c].cur, s.init)
  {
    var p := s.cpus[c].cur;
    var t := ExitTable(s.procs, p, s.init);
    assert Apply(s, Exit(c)).procs == t[p := t[p].(pc := Dying)];
    forall i | 0 <= i < |t| ensures t[i] == ExitSlot(s.procs, p, s.init, i) {
    }
  }

  lemma ExitStacks(s: State, s': State, p: nat)
    requires StacksOk(s) && p < |s.procs| && Started(s.procs[p]) && ExitEffect(s.procs, s'.procs, p, s.init)
    requires s'.free == s.free
    ensures StacksOk(s')
  {
  }

  lemma ExitForks(s: State, s': State, p: nat)
    requires Shaped(s) && Shaped(s') && ForksOk(s) && p < |s.procs| && s.procs[p].state == RUNNING
    requires s.procs[p].act == Plain
    requires ExitEffect(s.procs, s'.procs, p, s.init)
    ensures ForksOk(s')
  {
    forall q | 0 <= q < |s'.procs| ensures ForkOk(s'.procs, q) && EmbryoOk(s'.procs, q) {
      assert ForkOk(s.procs, q) && EmbryoOk(s.procs, q);
    }
  }

  lemma ExitParents(s: State, s': State, p: nat)
    requires Shaped(s) && Shaped(s') && ParentsOk(s) && p < |s.procs| && s.procs[p].state == RUNNING && p != s.init
    requires ExitEffect(s.procs, s'.procs, p, s.init) && s'.init == s.init
    ensures ParentsOk(s')
  {
    assert ParentOk(s.procs, s.init, s.init);
    forall q | 0 <= q < |s'.procs| ensures ParentOk(s'.procs, s'.init, q) {
      assert ParentOk(s.procs, s.init, q);
    }
  }

  /** Whoever still sleeps in wait afterwards gains no zombie child: the parent of the exiting process
      and, if it inherits a zombie, init have been woken. */
  lemma ExitWaits(s: State, c: nat, r: nat)
    requires Inv(s) && Enabled(s, Exit(c)) && r < |s.procs| && InWaitSleep(Apply(s, Exit(c)).procs[r])
    ensures WaitOk(Apply(s, Exit(c)).procs, r)
  {
    hide LockOk, RunningOk, StacksOk, ForksOk;
    assert CpuOk(s, s.cpus[c]);
    var t, t' := s.procs, Apply(s, Exit(c)).procs;
    assert SleepOk(t[r], r) && InWaitSleep(t[r]) && WaitOk(t, r);
    assert r != s.cpus[c].cur && ParentOk(t, s.init, s.cpus[c].cur);
    forall z | 0 <= z < |t'| && t'[z].parent == r ensures t'[z].state != ZOMBIE {
    }
    var q :| 0 <= q < |t| && t[q].parent == r && Live(t[q]);
    assert t'[q].parent == r && Live(t'[q]);
  }

  lemma ExitCpus(s: State, c: nat)
    requires Inv(s) && Enabled(s, Exit(c))
    ensures Shaped(Apply(s, Exit(c))) && OneCpu(s, Apply(s, Exit(c)), c)
  {
    IsAlone(s, c);
    hide LockOk, CpusOk, RunningOk, StacksOk, ForksOk, ParentsOk, SleepsOk, WaitsOk, OneCpu, Alone;
    LeaveCpus(s, Apply(s, Exit(c)), c);
  }

  lemma ExitSleeps(s: State, c: nat, p: nat)
    requires Inv(s) && Enabled(s, Exit(c)) && p < |s.procs|
    ensures SleepOk(Apply(s, Exit(c)).procs[p], p)
  {
    assert SleepOk(s.procs[p], p);
    hide LockOk, CpusOk, RunningOk, StacksOk, ForksOk, ParentsOk, SleepsOk, WaitsOk;
  }

  lemma ExitInv(s: State, c: nat)
    requires Inv(s) && Enabled(s, Exit(c))
    ensures Inv(Apply(s, Exit(c)))
  {
    var s' := Apply(s, Exit(c));
    assert CpuOk(s, s.cpus[c]);
    hide LockOk, CpusOk, RunningOk, StacksOk, ForksOk, ParentsOk, OneCpu, ExitEffect, SleepOk, WaitOk;
    ExitCpus(s, c);
    OneCpuOk(s, s', c);
    ExitEffects(s, c);
    ExitStacks(s, s', s.cpus[c].cur);
    ExitForks(s, s', s.cpus[c].cur);
    ExitParents(s, s', s.cpus[c].cur);
    forall p | 0 <= p < |s'.procs|
      ensures SleepOk(s'.procs[p], p) && (InWaitSleep(s'.procs[p]) ==> WaitOk(s'.procs, p))
    {
      ExitSleeps(s, c, p);
      if InWaitSleep(s'.procs[p]) {
        ExitWaits(s, c, p);
      }
    }
  }

  // ---- wait ----

  lemma ReapTable(s: State, s': State, z: nat)
    requires Inv(s) && z < |s.procs| && s.procs[z].state == ZOMBIE
    requires s'.procs == s.procs[z := Reaped(s.procs[z])] && s'.free == s.free + {s.procs[z].kstack}
    requires s'.init == s.init
    requires Shaped(s')
    ensures StacksOk(s') && ForksOk(s') && ParentsOk(s')
  {
    hide LockOk, RunningOk, CpusOk, WaitsOk, SleepsOk;
    assert ForkOk(s.procs, z);
    forall p | 0 <= p < |s'.procs|
      ensures ForkOk(s'.procs, p) && EmbryoOk(s'.procs, p) && ParentOk(s'.procs, s'.init, p)
    {
      assert ForkOk(s.procs, p) && EmbryoOk(s.procs, p) && ParentOk(s.procs, s.init, p);
    }
  }

  lemma ReapWaits(s: State, s': State, z: nat, r: nat)
    requires Inv(s) && z < |s.procs| && s.procs[z].state == ZOMBIE && r < |s.procs|
    requires s'.procs == s.procs[z := Reaped(s.procs[z])]
    ensures SleepOk(s'.procs[r], r) && (InWaitSleep(s'.procs[r]) ==> WaitOk(s'.procs, r))
  {
    hide LockOk, RunningOk, CpusOk, StacksOk, ForksOk, ParentsOk;
    assert SleepOk(s.procs[r], r);
    if InWaitSleep(s'.procs[r]) {
      assert WaitOk(s.procs, r);
      var q :| 0 <= q < |s.procs| && s.procs[q].parent == r && Live(s.procs[q]);
      assert s'.procs[q] == s.procs[q];
    }
  }

  lemma PassCpus(s: State, c: nat)
    requires Inv(s) && Enabled(s, WaitPass(c))
    ensures Shaped(Apply(s, WaitPass(c))) && OneCpu(s, Apply(s, WaitPass(c)), c)
  {
    IsAlone(s, c);
    hide LockOk, CpusOk, RunningOk, StacksOk, ForksOk, ParentsOk, SleepsOk, WaitsOk;
    match WaitScan(s.procs, s.cpus[c].cur)
    case Found(z) =>
      assert ZombieChildOf(s.cpus[c].cur)(s.procs[z]);
      ReturnCpus(s, Apply(s, WaitPass(c)), c, z);
    case NoChildren => ReturnCpus(s, Apply(s, WaitPass(c)), c, s.cpus[c].cur);
    case MustSleep => LeaveCpus(s, Apply(s, WaitPass(c)), c);
  }

  /** wait returns on c, having changed at most a zombie's slot z. */
  lemma ReturnCpus(s: State, s': State, c: nat, z: nat)
    requires Shaped(s) && Shaped(s') && c < |s.cpus| && s.cpus[c].ph == Waiting && Alone(s, c) && s.lock == c
    requires CpuOk(s, s.cpus[c])
    requires |s'.procs| == |s.procs| && s'.cpus == s.cpus[c := s.cpus[c].(ph := Run)] && s'.lock == -1
    requires z < |s.procs| && forall p :: 0 <= p < |s.procs| && p != z ==> s'.procs[p] == s.procs[p]
    requires s'.procs[z] == s.procs[z] || (s.procs[z].state == ZOMBIE && s'.procs[z].state == UNUSED)
    ensures OneCpu(s, s', c)
  {
  }

  /** A process that goes to sleep in wait has a live child and no zombie child. */
  lemma MayWait(s: State, p: nat)
    requires Inv(s) && p < |s.procs| && s.procs[p].act == Plain && WaitScan(s.procs, p) == MustSleep
    ensures WaitOk(s.procs, p)
  {
    hide LockOk, RunningOk, CpusOk, StacksOk, WaitsOk, SleepsOk;
    var z, q := Find(s.procs, 0, ZombieChildOf(p)), Find(s.procs, 0, ChildOf(p));
    forall j | 0 <= j < |s.procs| && s.procs[j].parent == p ensures s.procs[j].state != ZOMBIE {
      assert !ZombieChildOf(p)(s.procs[j]);
    }
    assert ChildOf(p)(s.procs[q]);
    assert EmbryoOk(s.procs, q) && Live(s.procs[q]);
  }

  lemma PassInv(s: State, c: nat)
    requires Inv(s) && Enabled(s, WaitPass(c))
    ensures Inv(Apply(s, WaitPass(c)))
  {
    var s', p := Apply(s, WaitPass(c)), s.cpus[c].cur;
    PassCpus(s, c);
    OneCpuOk(s, s', c);
    assert CpuOk(s, s.cpus[c]);
    match WaitScan(s.procs, p)
    case Found(z) =>
      assert ZombieChildOf(p)(s.procs[z]);
      ReapTable(s, s', z);
      forall r | 0 <= r < |s'.procs|
        ensures SleepOk(s'.procs[r], r) && (InWaitSleep(s'.procs[r]) ==> WaitOk(s'.procs, r))
      {
        ReapWaits(s, s', z, r);
      }
    case NoChildren =>
      NothingMild(s);
      MildOk(s, s');
    case MustSleep =>
      MayWait(s, p);
      OneSlotMild(s, p, s'.procs[p]);
      MildOk(s, s');
  }

  // ---- fork ----

  /** What a fork step may do to its embryo q, as far as the invariant is concerned. */
  ghost predicate ForkChange(s: State, p: nat, q: nat, x: Proc, act: Act, free: set<nat>)
    requires Shaped(s) && p < |s.procs| && q < |s.procs|
  {
    var e := s.procs[q];
    && p != q && s.procs[p].state == RUNNING && s.procs[p].pc == Normal
    && (if s.procs[p].act == Plain then e.state == UNUSED else e.state == EMBRYO && s.procs[p].act.child == q)
    && e.act == Plain && x.act == Plain
    // the embryo's stack
    && (x.kstack == e.kstack || x.kstack == 0 || (e.kstack == 0 && x.kstack in s.free))
    && free == (if x.kstack == e.kstack then s.free else if x.kstack == 0 then s.free + {e.kstack}
          else s.free - {x.kstack})
    // its new state
    && (act == Plain ==> || (x.state == UNUSED && x.kstack == 0 && x.parent == -1)
                         || (x.state == RUNNABLE && x.kstack != 0 && x.parent == p))
    && (act.Forking? ==> act.child == q && act.stage <= 2 && x.state == EMBRYO && (x.kstack != 0 <==> act.stage > 0))
    && (act.Forking? ==> x.parent == if act.stage == 2 then p else -1)
  }

  lemma ForkTable(s: State, s': State, p: nat, q: nat, x: Proc, act: Act, free: set<nat>)
    requires Inv(s) && Shaped(s') && p < |s.procs| && q < |s.procs| && ForkChange(s, p, q, x, act, free)
    requires s'.procs == s.procs[q := x][p := s.procs[p].(act := act)] && s'.free == free && s'.init == s.init
    ensures StacksOk(s') && ForksOk(s') && ParentsOk(s')
  {
    hide LockOk, RunningOk, CpusOk, WaitsOk, SleepsOk;
    ForkStacks(s, s', p, q, x, act, free);
    ForkForks(s, s', p, q, x, act, free);
    forall r | 0 <= r < |s'.procs| ensures ParentOk(s'.procs, s'.init, r) {
      assert ParentOk(s.procs, s.init, r);
    }
  }

  lemma ForkStacks(s: State, s': State, p: nat, q: nat, x: Proc, act: Act, free: set<nat>)
    requires Shaped(s) && StacksOk(s) && p < |s.procs| && q < |s.procs| && ForkChange(s, p, q, x, act, free)
    requires s'.procs == s.procs[q := x][p := s.procs[p].(act := act)] && s'.free == free
    ensures StacksOk(s')
  {
  }

  lemma ForkOther(s: State, p: nat, q: nat, x: Proc, act: Act, free: set<nat>, r: nat)
    requires Shaped(s) && ForksOk(s) && p < |s.procs| && q < |s.procs| && ForkChange(s, p, q, x, act, free)
    requires r < |s.procs| && r != p && s.procs[r].act.Forking?
    ensures r != q && s.procs[r].act.child != q && s.procs[r].act.child != p
  {
    assert ForkOk(s.procs, r);
    if s.procs[p].act.Forking? {
      assert s.procs[r].act.child != s.procs[p].act.child;
    }
  }

  lemma ForkForks(s: State, s': State, p: nat, q: nat, x: Proc, act: Act, free: set<nat>)
    requires Shaped(s) && ForksOk(s) && Shaped(s') && p < |s.procs| && q < |s.procs|
    requires ForkChange(s, p, q, x, act, free)
    requires s'.procs == s.procs[q := x][p := s.procs[p].(act := act)]
    ensures ForksOk(s')
  {
    forall r | 0 <= r < |s'.procs| ensures EmbryoOk(s'.procs, r) {
      assert EmbryoOk(s.procs, r);
    }
    forall r | 0 <= r < |s'.procs|
      ensures ForkOk(s'.procs, r) && (r != p && s'.procs[r].act.Forking? ==> s'.procs[r].act.child != q)
    {
      assert ForkOk(s.procs, r);
      if r != p && s.procs[r].act.Forking? {
        ForkOther(s, p, q, x, act, free, r);
      }
    }
  }

  lemma ForkWaits(s: State, s': State, p: nat, q: nat, x: Proc, act: Act, free: set<nat>, r: nat)
    requires Inv(s) && p < |s.procs| && q < |s.procs| && r < |s.procs| && ForkChange(s, p, q, x, act, free)
    requires s'.procs == s.procs[q := x][p := s.procs[p].(act := act)]
    ensures SleepOk(s'.procs[r], r) && (InWaitSleep(s'.procs[r]) ==> WaitOk(s'.procs, r))
  {
    hide LockOk, RunningOk, CpusOk, StacksOk, ForksOk, ParentsOk;
    assert SleepOk(s.procs[r], r);
    if InWaitSleep(s'.procs[r]) {
      assert WaitOk(s.procs, r);
      var k :| 0 <= k < |s.procs| && s.procs[k].parent == r && Live(s.procs[k]);
      assert s'.procs[k].parent == r && Live(s'.procs[k]);
    }
  }

  lemma ForkCpus(s: State, s': State, c: nat, q: nat, x: Proc, act: Act, free: set<nat>)
    requires Inv(s) && Shaped(s') && c < |s.cpus| && s.cpus[c].ph == Run && q < |s.procs|
    requires ForkChange(s, s.cpus[c].cur, q, x, act, free)
    requires s'.procs == s.procs[q := x][s.cpus[c].cur := Cur(s, c).(act := act)] && s'.cpus == s.cpus
    requires s'.lock == s.lock
    ensures OneCpu(s, s', c)
  {
    assert CpuOk(s, s.cpus[c]);
    hide LockOk, StacksOk, ForksOk, ParentsOk, SleepsOk, WaitsOk;
    forall d | 0 <= d < |s.cpus| && d != c && s.cpus[d].cur >= 0
      ensures SameRun(s.procs[s.cpus[d].cur], s'.procs[s.cpus[d].cur])
    {
      assert CpuOk(s, s.cpus[d]);
      DifferentCurrent(s, d, c);
    }
  }

  lemma ForkToInv(s: State, c: nat, q: nat, x: Proc, act: Act, free: set<nat>, s': State)
    requires Inv(s) && c < |s.cpus| && s.cpus[c].ph == Run && q < |s.procs|
    requires ForkChange(s, s.cpus[c].cur, q, x, act, free)
    requires s' == ForkTo(s, c, q, x, act, free).(nextpid := s'.nextpid)
    ensures Inv(s')
  {
    var p := s.cpus[c].cur;
    assert Shaped(s') by {
      hide LockOk, CpusOk, RunningOk, StacksOk, ForksOk, ParentsOk, SleepsOk, WaitsOk;
    }
    hide LockOk, CpusOk, RunningOk, StacksOk, ForksOk, ParentsOk, SleepOk, WaitOk;
    ForkTable(s, s', p, q, x, act, free);
    forall r | 0 <= r < |s'.procs|
      ensures SleepOk(s'.procs[r], r) && (InWaitSleep(s'.procs[r]) ==> WaitOk(s'.procs, r))
    {
      ForkWaits(s, s', p, q, x, act, free, r);
    }
    ForkCpus(s, s', c, q, x, act, free);
    OneCpuOk(s, s', c);
  }

  lemma ForkInv(s: State, st: Step)
    requires Inv(s) && Enabled(s, st) && Forkish(st)
    ensures Inv(Apply(s, st)) && Apply(s, st).init == s.init
  {
    var c, p := st.c, s.cpus[st.c].cur;
    assert CpuOk(s, s.cpus[c]) && ForkOk(s.procs, p);
    hide LockOk, CpusOk, RunningOk, ParentsOk, SleepsOk, WaitsOk;
    var q := if st.ForkAlloc? then Find(s.procs, 0, Unused()) else Child(s, c);
    assert st.ForkAlloc? ==> Unused()(s.procs[q]);
    assert EmbryoOk(s.procs, q);
    var s' := Apply(s, st);
    ForkToInv(s, c, q, s'.procs[q], s'.procs[p].act, s'.free, s');
  }

  // ---- Whole runs ----

  lemma StepInv(s: State, st: Step)
    requires Inv(s) && Enabled(s, st)
    ensures Inv(Apply(s, st)) && Apply(s, st).init == s.init
  {
    if Forkish(st) {
      ForkInv(s, st);
    } else if st.Exit? {
      ExitInv(s, st.c);
    } else if st.WaitPass? {
      PassInv(s, st.c);
    } else {
      MildShaped(s, st);
      MildInv(s, st);
    }
  }

  ghost predicate Execution(ss: seq<State>, sts: seq<Step>) {
    && |ss| == |sts| + 1
    && (forall i :: 0 <= i < |sts| ==> Shaped(ss[i]) && Enabled(ss[i], sts[i]) && ss[i + 1] == Apply(ss[i], sts[i]))
  }

  lemma {:induction false} RunInv(ss: seq<State>, sts: seq<Step>, i: nat)
    requires Execution(ss, sts) && Init(ss[0]) && i < |ss|
    ensures Inv(ss[i])
  {
    if i == 0 {
      InitInv(ss[0]);
    } else {
      RunInv(ss, sts, i - 1);
      StepInv(ss[i - 1], sts[i - 1]);
    }
  }

  /** In every reachable state a started process other than init has a live parent, so its exit will
      be collected; a zombie's parent is not asleep in wait. */
  lemma ZombiesCollectable(ss: seq<State>, sts: seq<Step>, i: nat, p: nat)
    requires Execution(ss, sts) && Init(ss[0]) && i < |ss| && p < |ss[i].procs| && Started(ss[i].procs[p])
    requires p != ss[i].init
    ensures var t := ss[i].procs;
            0 <= t[p].parent < |t| && Live(t[t[p].parent]) && (t[p].state == ZOMBIE ==> !InWaitSleep(t[t[p].parent]))
  {
    RunInv(ss, sts, i);
    assert ParentOk(ss[i].procs, ss[i].init, p);
    if InWaitSleep(ss[i].procs[ss[i].procs[p].parent]) {
      assert WaitOk(ss[i].procs, ss[i].procs[p].parent);
    }
  }

  /** In every reachable state a RUNNING process is current on one CPU, and on no other. */
  lemma RunningOnOneCpu(ss: seq<State>, sts: seq<Step>, i: nat, p: nat)
    requires Execution(ss, sts) && Init(ss[0]) && i < |ss| && p < |ss[i].procs| && ss[i].procs[p].state == RUNNING
    ensures exists c :: 0 <= c < |ss[i].cpus| && ss[i].cpus[c].cur == p &&
              forall d :: 0 <= d < |ss[i].cpus| && d != c ==> ss[i].cpus[d].cur != p
  {
    RunInv(ss, sts, i);
    var s := ss[i];
    var c :| 0 <= c < |s.cpus| && s.cpus[c].cur == p;
    forall d | 0 <= d < |s.cpus| && d != c ensures s.cpus[d].cur != p {
      if d < c {
        assert s.cpus[d].cur == -1 || s.cpus[d].cur != s.cpus[c].cur;
      } else {
        assert s.cpus[c].cur == -1 || s.cpus[c].cur != s.cpus[d].cur;
      }
    }
  }

  /** In every reachable state no CPU is on a freed kernel stack, and no two CPUs are on one stack. */
  lemma StacksInUse(ss: seq<State>, sts: seq<Step>, i: nat, c: nat)
    requires Execution(ss, sts) && Init(ss[0]) && i < |ss| && c < |ss[i].cpus| && ss[i].cpus[c].sp.Kstack?
    ensures ss[i].cpus[c].sp.page !in ss[i].free
    ensures forall d :: 0 <= d < |ss[i].cpus| && d != c ==> ss[i].cpus[d].sp != ss[i].cpus[c].sp
  {
    RunInv(ss, sts, i);
    var s := ss[i];
    assert CpuOk(s, s.cpus[c]);
    forall d | 0 <= d < |s.cpus| && d != c ensures s.cpus[d].sp != s.cpus[c].sp {
      assert CpuOk(s, s.cpus[d]);
      DifferentCurrent(s, c, d);
    }
  }

  lemma DifferentCurrent(s: State, c: nat, d: nat)
    requires Inv(s) && c < |s.cpus| && d < |s.cpus| && c != d && s.cpus[c].cur >= 0
    ensures s.cpus[c].cur != s.cpus[d].cur
    ensures s.cpus[d].cur >= 0 ==> Cur(s, c).kstack == 0 || Cur(s, c).kstack != Cur(s, d).kstack
  {
    if c < d {
      assert s.cpus[c].cur == -1 || s.cpus[c].cur != s.cpus[d].cur;
    } else {
      assert s.cpus[d].cur == -1 || s.cpus[d].cur != s.cpus[c].cur;
    }
  }
}
