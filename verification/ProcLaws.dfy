/** What each step does to a process, and what follows over whole executions: a sleeper sleeps until it is
    woken or killed, wait returns exactly when it should, pids name one process, and a scheduler looks at
    every slot. */
module ProcLaws {
  import opened ProcTable
  import opened ProcLife

  // ---- What a step means for slot p ----

  /** p is the current process of the CPU that takes the step. */
  predicate Acts(s: State, st: Step, p: nat)
    requires Shaped(s) && Enabled(s, st)
  {
    s.cpus[st.c].cur == p
  }

  /** p gives up its CPU in sleep, or in wait with a child, no zombie child and no kill. */
  predicate GoesToSleep(s: State, st: Step, p: nat)
    requires Shaped(s) && Enabled(s, st) && p < |s.procs|
  {
    Acts(s, st, p)
    && (st.Sleep? || (st.WaitPass? && !HasZombieChild(s.procs, p) && HasChild(s.procs, p) && !s.procs[p].killed))
  }

  /** The step is a wakeup of p's channel: by wakeup, by a child's exit, or by an exit that leaves init a
      zombie. */
  predicate Rouses(s: State, st: Step, p: nat)
    requires Shaped(s) && Enabled(s, st) && p < |s.procs|
  {
    || (st.Wakeup? && s.procs[p].chan == Other(st.k))
    || (st.Exit? && s.procs[p].chan == Slot(s.procs[s.cpus[st.c].cur].parent))
    || (st.Exit? && s.procs[p].chan == Slot(s.init) && HasZombieChild(s.procs, s.cpus[st.c].cur))
  }

  predicate KillsSlot(s: State, st: Step, p: nat)
    requires Shaped(s) && Enabled(s, st) && p < |s.procs|
  {
    st.Kill? && FirstWithPid(s.procs, st.pid, p)
  }

  /** p is the zombie that a pass of wait collects. */
  predicate Reaps(s: State, st: Step, p: nat)
    requires Shaped(s) && Enabled(s, st) && p < |s.procs|
  {
    st.WaitPass? && FirstZombieChild(s.procs, s.cpus[st.c].cur, p)
  }

  /** p is the embryo of the fork that takes the step. */
  predicate Embryo(s: State, st: Step, p: nat)
    requires Shaped(s) && Enabled(s, st) && p < |s.procs|
  {
    if st.ForkAlloc? then s.procs[p].state == UNUSED && forall j :: 0 <= j < p ==> s.procs[j].state != UNUSED
    else Forkish(st) && Cur(s, st.c).act.child == p
  }

  // ---- The laws of one step ----

  lemma FirstUnused(s: State, st: Step, p: nat)
    requires Inv(s) && Enabled(s, st) && st.ForkAlloc? && p < |s.procs|
    ensures Embryo(s, st, p) <==> p == Find(s.procs, 0, Unused())
  {
    var q := Find(s.procs, 0, Unused());
    assert forall j :: 0 <= j < q ==> !Unused()(s.procs[j]);
    assert Unused()(s.procs[q]);
  }

  lemma FirstPid(s: State, pid: int, p: nat)
    requires p < |s.procs|
    ensures FirstWithPid(s.procs, pid, p) <==> p == Find(s.procs, 0, WithPid(pid))
  {
    var q := Find(s.procs, 0, WithPid(pid));
    assert forall j :: 0 <= j < q ==> !WithPid(pid)(s.procs[j]);
    assert q < |s.procs| ==> WithPid(pid)(s.procs[q]);
  }

  lemma FirstChild(s: State, p: nat, z: nat)
    requires p < |s.procs| && z < |s.procs|
    ensures FirstZombieChild(s.procs, p, z) <==> WaitScan(s.procs, p) == Found(z)
  {
    WaitDecides(s.procs, p);
    if FirstZombieChild(s.procs, p, z) {
      assert HasZombieChild(s.procs, p);
      var r := WaitScan(s.procs, p);
      assert r.slot == z;
    }
  }

  /** The lookups of a step are the ones named here. */
  lemma Lookups(s: State, st: Step, p: nat)
    requires Inv(s) && Enabled(s, st) && p < |s.procs|
    ensures st.ForkAlloc? ==> (Embryo(s, st, p) <==> p == Find(s.procs, 0, Unused()))
    ensures st.Kill? ==> (KillsSlot(s, st, p) <==> p == Find(s.procs, 0, WithPid(st.pid)))
    ensures st.WaitPass? ==> 0 <= s.cpus[st.c].cur < |s.procs|
    ensures st.WaitPass? ==> (Reaps(s, st, p) <==> WaitScan(s.procs, s.cpus[st.c].cur) == Found(p))
    ensures st.WaitPass? && Acts(s, st, p) ==> (GoesToSleep(s, st, p) <==> WaitScan(s.procs, p) == MustSleep)
  {
    hide LockOk, CpusOk, RunningOk, StacksOk, ForksOk, ParentsOk, SleepsOk, WaitsOk;
    if st.ForkAlloc? {
      FirstUnused(s, st, p);
    } else if st.Kill? {
      FirstPid(s, st.pid, p);
    } else if st.WaitPass? {
      FirstChild(s, s.cpus[st.c].cur, p);
      WaitDecides(s.procs, s.cpus[st.c].cur);
    }
  }

  /** A process is asleep after a step exactly if it goes to sleep in it, or was asleep and is neither
      woken nor killed; one that is woken or killed is runnable. */
  ghost predicate SleepsAsItShould(s: State, st: Step, p: nat, y: Proc)
    requires Shaped(s) && Enabled(s, st) && p < |s.procs|
  {
    var x := s.procs[p];
    && (y.state == SLEEPING <==>
          GoesToSleep(s, st, p) || (x.state == SLEEPING && !Rouses(s, st, p) && !KillsSlot(s, st, p)))
    && (x.state == SLEEPING && y.state != SLEEPING ==> y.state == RUNNABLE)
    && (st.Sleep? && Acts(s, st, p) ==> y.chan == Other(st.k))
    && (x.state == SLEEPING ==> y.chan == x.chan)
  }

  lemma SleepLaw(s: State, st: Step, p: nat)
    requires Inv(s) && Enabled(s, st) && p < |s.procs|
    ensures p < |Apply(s, st).procs| && SleepsAsItShould(s, st, p, Apply(s, st).procs[p])
  {
    Lookups(s, st, p);
    Roles(s, st, p);
    if Forkish(st) {
      SleepFork(s, st, p);
    } else if st.Exit? || st.Wakeup? || st.Kill? {
      SleepWake(s, st, p);
    } else if st.WaitPass? {
      SleepPass(s, st, p);
    } else {
      SleepCpu(s, st, p);
    }
  }

  lemma SleepFork(s: State, st: Step, p: nat)
    requires Shaped(s) && Enabled(s, st) && p < |s.procs| && Forkish(st)
    requires st.ForkAlloc? ==> (Embryo(s, st, p) <==> p == Find(s.procs, 0, Unused()))
    requires s.procs[s.cpus[st.c].cur].state == RUNNING
    requires Embryo(s, st, p) ==> s.procs[p].state in {UNUSED, EMBRYO} && p != s.cpus[st.c].cur
    ensures p < |Apply(s, st).procs| && SleepsAsItShould(s, st, p, Apply(s, st).procs[p])
  {
  }

  lemma SleepWake(s: State, st: Step, p: nat)
    requires Shaped(s) && Enabled(s, st) && p < |s.procs| && (st.Exit? || st.Wakeup? || st.Kill?)
    requires st.Kill? ==> (KillsSlot(s, st, p) <==> p == Find(s.procs, 0, WithPid(st.pid)))
    requires st.Exit? && Acts(s, st, p) ==> s.procs[p].state == RUNNING
    ensures p < |Apply(s, st).procs| && SleepsAsItShould(s, st, p, Apply(s, st).procs[p])
  {
    hide HasZombieChild, HasChild, FirstWithPid;
  }

  lemma SleepPass(s: State, st: Step, p: nat)
    requires Shaped(s) && Enabled(s, st) && p < |s.procs| && st.WaitPass?
    requires s.cpus[st.c].cur >= 0 && s.procs[s.cpus[st.c].cur].state == RUNNING
    requires Reaps(s, st, p) <==> WaitScan(s.procs, s.cpus[st.c].cur) == Found(p)
    requires Acts(s, st, p) ==> (GoesToSleep(s, st, p) <==> WaitScan(s.procs, p) == MustSleep)
    ensures p < |Apply(s, st).procs| && SleepsAsItShould(s, st, p, Apply(s, st).procs[p])
  {
    WaitDecides(s.procs, s.cpus[st.c].cur);
    hide HasZombieChild, HasChild, WaitScan;
  }

  lemma SleepCpu(s: State, st: Step, p: nat)
    requires Shaped(s) && Enabled(s, st) && p < |s.procs|
    requires !Forkish(st) && !st.Exit? && !st.Wakeup? && !st.Kill? && !st.WaitPass?
    requires st.Resume? || st.Yield? || st.Sleep? ==> s.procs[s.cpus[st.c].cur].state == RUNNING
    ensures p < |Apply(s, st).procs| && SleepsAsItShould(s, st, p, Apply(s, st).procs[p])
  {
  }

  /** The other states: a process becomes a zombie by its own exit and stays one until it is collected; it
      runs from when a scheduler chooses it to when it gives up its CPU; a slot is in use from allocation to
      collection or to a failed fork.  It is killed by kill until collected.  Its parent changes when the
      parent exits, its pid never while it is in use. */
  ghost predicate LivesAsItShould(s: State, st: Step, p: nat, y: Proc)
    requires Shaped(s) && Enabled(s, st) && p < |s.procs|
  {
    var x := s.procs[p];
    && (y.state == ZOMBIE <==> (st.Exit? && Acts(s, st, p)) || (x.state == ZOMBIE && !Reaps(s, st, p)))
    && (y.state == RUNNING <==>
          || (st.Choose? && s.cpus[st.c].ph == Scan(p))
          || (x.state == RUNNING && !((st.Yield? || st.Exit?) && Acts(s, st, p)) && !GoesToSleep(s, st, p)))
    && (y.state == UNUSED <==>
          || Reaps(s, st, p) || ((st.ForkNoStack? || st.ForkNoCopy?) && Embryo(s, st, p))
          || (x.state == UNUSED && !(st.ForkAlloc? && Embryo(s, st, p))))
    && (y.state == EMBRYO <==>
          || (st.ForkAlloc? && Embryo(s, st, p))
          || (x.state == EMBRYO && !((st.ForkNoStack? || st.ForkNoCopy? || st.ForkRun?) && Embryo(s, st, p))))
    && (y.killed <==> KillsSlot(s, st, p) || (x.killed && !Reaps(s, st, p)))
    && (y.pid == if Reaps(s, st, p) then 0 else if st.ForkAlloc? && Embryo(s, st, p) then s.nextpid else x.pid)
    && (y.parent == if Reaps(s, st, p) then -1
                    else if st.Exit? && x.parent == s.cpus[st.c].cur then s.init
                    else if st.ForkParent? && Embryo(s, st, p) then s.cpus[st.c].cur
                    else x.parent)
  }

  lemma LifeLaw(s: State, st: Step, p: nat)
    requires Inv(s) && Enabled(s, st) && p < |s.procs|
    ensures p < |Apply(s, st).procs| && LivesAsItShould(s, st, p, Apply(s, st).procs[p])
    ensures Apply(s, st).nextpid == s.nextpid + if st.ForkAlloc? then 1 else 0
  {
    Lookups(s, st, p);
    Roles(s, st, p);
    if Forkish(st) {
      LifeFork(s, st, p);
    } else if st.Exit? || st.Wakeup? || st.Kill? {
      LifeWake(s, st, p);
    } else if st.WaitPass? {
      LifePass(s, st, p);
    } else {
      LifeCpu(s, st, p);
    }
  }

  lemma LifeFork(s: State, st: Step, p: nat)
    requires Shaped(s) && Enabled(s, st) && p < |s.procs| && Forkish(st)
    requires st.ForkAlloc? ==> (Embryo(s, st, p) <==> p == Find(s.procs, 0, Unused()))
    requires s.procs[s.cpus[st.c].cur].state == RUNNING
    requires Embryo(s, st, p) ==> s.procs[p].state in {UNUSED, EMBRYO} && p != s.cpus[st.c].cur
    requires Embryo(s, st, p) && !st.ForkAlloc? ==> s.procs[p].state == EMBRYO
    ensures p < |Apply(s, st).procs| && LivesAsItShould(s, st, p, Apply(s, st).procs[p])
    ensures Apply(s, st).nextpid == s.nextpid + if st.ForkAlloc? then 1 else 0
  {
  }

  lemma LifeWake(s: State, st: Step, p: nat)
    requires Shaped(s) && Enabled(s, st) && p < |s.procs| && (st.Exit? || st.Wakeup? || st.Kill?)
    requires st.Kill? ==> (KillsSlot(s, st, p) <==> p == Find(s.procs, 0, WithPid(st.pid)))
    requires st.Exit? && Acts(s, st, p) ==> s.procs[p].state == RUNNING
    ensures p < |Apply(s, st).procs| && LivesAsItShould(s, st, p, Apply(s, st).procs[p])
    ensures Apply(s, st).nextpid == s.nextpid
  {
    hide HasZombieChild, HasChild, FirstWithPid;
  }

  lemma LifePass(s: State, st: Step, p: nat)
    requires Shaped(s) && Enabled(s, st) && p < |s.procs| && st.WaitPass?
    requires s.cpus[st.c].cur >= 0 && s.procs[s.cpus[st.c].cur].state == RUNNING
    requires Reaps(s, st, p) <==> WaitScan(s.procs, s.cpus[st.c].cur) == Found(p)
    requires Acts(s, st, p) ==> (GoesToSleep(s, st, p) <==> WaitScan(s.procs, p) == MustSleep)
    ensures p < |Apply(s, st).procs| && LivesAsItShould(s, st, p, Apply(s, st).procs[p])
    ensures Apply(s, st).nextpid == s.nextpid
  {
    WaitDecides(s.procs, s.cpus[st.c].cur);
    hide HasZombieChild, HasChild, WaitScan;
  }

  lemma LifeCpu(s: State, st: Step, p: nat)
    requires Shaped(s) && Enabled(s, st) && p < |s.procs|
    requires !Forkish(st) && !st.Exit? && !st.Wakeup? && !st.Kill? && !st.WaitPass?
    requires st.Resume? || st.Yield? || st.Sleep? ==> s.procs[s.cpus[st.c].cur].state == RUNNING
    ensures p < |Apply(s, st).procs| && LivesAsItShould(s, st, p, Apply(s, st).procs[p])
    ensures Apply(s, st).nextpid == s.nextpid
  {
  }

  /** Who takes part in a step, by the invariant: the acting process is running, an embryo is unused or an
      embryo and not the acting process, and a reaped child is a zombie. */
  lemma Roles(s: State, st: Step, p: nat)
    requires Inv(s) && Enabled(s, st) && p < |s.procs|
    ensures 0 <= s.cpus[st.c].cur && Acts(s, st, p) && s.cpus[st.c].ph in {Run, Waiting} ==> s.procs[p].state == RUNNING
    ensures Forkish(st) ==> s.procs[s.cpus[st.c].cur].state == RUNNING
    ensures Forkish(st) && Embryo(s, st, p) ==> s.procs[p].state in {UNUSED, EMBRYO} && p != s.cpus[st.c].cur
    ensures Forkish(st) && Embryo(s, st, p) && !st.ForkAlloc? ==> s.procs[p].state == EMBRYO
    ensures st.Resume? || st.Yield? || st.Sleep? || st.WaitPass? || st.Exit? ==>
              s.cpus[st.c].cur >= 0 && s.procs[s.cpus[st.c].cur].state == RUNNING
  {
    assert CpuOk(s, s.cpus[st.c]);
    if Forkish(st) {
      assert ForkOk(s.procs, s.cpus[st.c].cur);
    }
    hide LockOk, CpusOk, RunningOk, StacksOk, ForksOk, ParentsOk, SleepsOk, WaitsOk;
  }

  /** A process that is switched in goes on where it left off: one that slept in wait scans again, with the
      lock; the others run, and the lock is free. */
  lemma ResumeLaw(s: State, c: nat)
    requires Inv(s) && Enabled(s, Resume(c))
    ensures var s', p := Apply(s, Resume(c)), s.cpus[c].cur;
            && 0 <= p < |s.procs| && s'.cpus[c].cur == p && s'.cpus[c].sp == s.cpus[c].sp
            && s'.cpus[c].ph == (if s.procs[p].pc == InWait then Waiting else Run)
            && s'.lock == (if s.procs[p].pc == InWait then c else -1)
  {
    assert Locked(s.cpus[c].ph);
  }

  // ---- Whole executions ----

  /** Step k wakes p's channel or kills p. */
  ghost predicate WokenIn(ss: seq<State>, sts: seq<Step>, k: nat, p: nat) {
    && k < |ss| && k < |sts| && Shaped(ss[k]) && Enabled(ss[k], sts[k]) && p < |ss[k].procs|
    && (Rouses(ss[k], sts[k], p) || KillsSlot(ss[k], sts[k], p))
  }

  /** A process that has gone to sleep is still asleep, on the same channel, unless a step since has woken
      its channel or killed it. */
  lemma {:induction false} AsleepUntilWoken(ss: seq<State>, sts: seq<Step>, i: nat, j: nat, p: nat)
    requires Execution(ss, sts) && Init(ss[0]) && i < j < |ss| && p < |ss[i].procs| && GoesToSleep(ss[i], sts[i], p)
    requires forall k :: i < k < j ==> !WokenIn(ss, sts, k, p)
    ensures p < |ss[j].procs| && ss[j].procs[p].state == SLEEPING && ss[j].procs[p].chan == ss[i + 1].procs[p].chan
    decreases j
  {
    hide Inv, Init, Apply, Enabled, Rouses, KillsSlot, GoesToSleep, Shaped;
    RunInv(ss, sts, j - 1);
    if j > i + 1 {
      AsleepUntilWoken(ss, sts, i, j - 1, p);
      assert !WokenIn(ss, sts, j - 1, p);
    }
    SleepLaw(ss[j - 1], sts[j - 1], p);
  }

  /** Hence a process that a scheduler chooses after it went to sleep was woken or killed in between. */
  lemma ChosenWasWoken(ss: seq<State>, sts: seq<Step>, i: nat, j: nat, p: nat)
    requires Execution(ss, sts) && Init(ss[0]) && i < j < |sts| && p < |ss[i].procs| && GoesToSleep(ss[i], sts[i], p)
    requires sts[j].Choose? && ss[j].cpus[sts[j].c].ph == Scan(p)
    ensures exists k :: i < k < j && WokenIn(ss, sts, k, p)
  {
    if forall k :: i < k < j ==> !WokenIn(ss, sts, k, p) {
      AsleepUntilWoken(ss, sts, i, j, p);
      assert false;
    }
  }

  /** One pass of wait: it collects the first zombie child; it returns without collecting exactly if there
      is none and the process has no child or has been killed; otherwise the process goes to sleep. */
  lemma WaitReturns(s: State, c: nat)
    requires Inv(s) && Enabled(s, WaitPass(c))
    ensures var p, s' := s.cpus[c].cur, Apply(s, WaitPass(c));
            && 0 <= p < |s.procs|
            && (HasZombieChild(s.procs, p) ==> exists z ::
                  && 0 <= z < |s.procs| && FirstZombieChild(s.procs, p, z)
                  && s'.procs == s.procs[z := s'.procs[z]] && s'.procs[z].state == UNUSED
                  && s'.free == s.free + {s.procs[z].kstack} && s'.cpus[c].ph == Run && s'.lock == -1)
            && (s'.procs == s.procs && s'.cpus[c].ph == Run && s'.lock == -1 <==>
                  !HasZombieChild(s.procs, p) && (s.procs[p].killed || !HasChild(s.procs, p)))
            && (s'.procs[p].state == SLEEPING <==>
                  !HasZombieChild(s.procs, p) && !s.procs[p].killed && HasChild(s.procs, p))
  {
    var p, s' := s.cpus[c].cur, Apply(s, WaitPass(c));
    WaitDecides(s.procs, p);
    Roles(s, WaitPass(c), p);
    hide LockOk, CpusOk, RunningOk, StacksOk, ForksOk, ParentsOk, SleepsOk, WaitsOk, HasZombieChild, HasChild, WaitScan;
    if HasZombieChild(s.procs, p) {
      var z := WaitScan(s.procs, p).slot;
      assert FirstZombieChild(s.procs, p, z) && s'.procs == s.procs[z := s'.procs[z]];
      assert s'.procs[z] != s.procs[z];
    }
  }

  // ---- Pids ----

  /** A slot in use has a pid, below the next one; no two slots have the same, save 0. */
  ghost predicate PidsOk(s: State) {
    && s.nextpid > 0
    && (forall p :: 0 <= p < |s.procs| ==> 0 <= s.procs[p].pid < s.nextpid)
    && (forall p :: 0 <= p < |s.procs| && s.procs[p].state != UNUSED ==> s.procs[p].pid > 0)
    && (forall p, q :: 0 <= p < q < |s.procs| && s.procs[p].pid > 0 ==> s.procs[p].pid != s.procs[q].pid)
  }

  lemma PidStep(s: State, st: Step)
    requires Inv(s) && Enabled(s, st) && PidsOk(s)
    ensures PidsOk(Apply(s, st)) && |Apply(s, st).procs| == |s.procs|
  {
    var s' := Apply(s, st);
    StepInv(s, st);
    SameSlots(s, st);
    hide LockOk, CpusOk, RunningOk, StacksOk, ForksOk, ParentsOk, SleepsOk, WaitsOk, Apply, Enabled;
    forall p | 0 <= p < |s.procs|
      ensures 0 <= s'.procs[p].pid < s'.nextpid && (s'.procs[p].state != UNUSED ==> s'.procs[p].pid > 0)
      ensures s'.procs[p].pid == s.procs[p].pid || s'.procs[p].pid == 0
              || (s'.procs[p].pid == s.nextpid && st.ForkAlloc? && Embryo(s, st, p))
    {
      LifeLaw(s, st, p);
    }
  }

  lemma SameSlots(s: State, st: Step)
    requires Shaped(s) && Enabled(s, st)
    ensures |Apply(s, st).procs| == |s.procs|
  {
  }

  lemma PidInit(s: State)
    requires Init(s)
    ensures PidsOk(s)
  {
  }

  /** In every reachable state a pid names one process. */
  lemma {:induction false} PidsDistinct(ss: seq<State>, sts: seq<Step>, i: nat)
    requires Execution(ss, sts) && Init(ss[0]) && i < |ss|
    ensures PidsOk(ss[i])
  {
    hide Inv, Apply, Init, PidsOk, Enabled, Shaped;
    if i == 0 {
      PidInit(ss[0]);
    } else {
      PidsDistinct(ss, sts, i - 1);
      RunInv(ss, sts, i - 1);
      PidStep(ss[i - 1], sts[i - 1]);
    }
  }

  // ---- Kernel stacks ----

  /** The page is free or some slot's kernel stack. */
  ghost predicate Accounted(s: State, page: nat) {
    page in s.free || exists p :: 0 <= p < |s.procs| && s.procs[p].kstack == page
  }

  /** A slot's stack after a step: fork gives the embryo one, and it is taken back when the slot is freed. */
  ghost predicate StackAsItShould(s: State, st: Step, p: nat, y: Proc)
    requires Shaped(s) && Enabled(s, st) && p < |s.procs|
  {
    y.kstack == if Reaps(s, st, p) || ((st.ForkNoStack? || st.ForkNoCopy?) && Embryo(s, st, p)) then 0
                else if st.ForkStack? && Embryo(s, st, p) then st.page
                else s.procs[p].kstack
  }

  lemma StackLaw(s: State, st: Step, p: nat)
    requires Inv(s) && Enabled(s, st) && p < |s.procs|
    ensures p < |Apply(s, st).procs| && StackAsItShould(s, st, p, Apply(s, st).procs[p])
  {
    Lookups(s, st, p);
    Roles(s, st, p);
    if Forkish(st) {
      StackFork(s, st, p);
    } else if st.WaitPass? {
      StackPass(s, st, p);
    } else {
      StackCpu(s, st, p);
    }
  }

  lemma StackFork(s: State, st: Step, p: nat)
    requires Shaped(s) && Enabled(s, st) && p < |s.procs| && Forkish(st)
    requires Embryo(s, st, p) ==> p != s.cpus[st.c].cur
    ensures p < |Apply(s, st).procs| && StackAsItShould(s, st, p, Apply(s, st).procs[p])
  {
  }

  lemma StackPass(s: State, st: Step, p: nat)
    requires Shaped(s) && Enabled(s, st) && p < |s.procs| && st.WaitPass? && s.cpus[st.c].cur >= 0
    requires Reaps(s, st, p) <==> WaitScan(s.procs, s.cpus[st.c].cur) == Found(p)
    ensures p < |Apply(s, st).procs| && StackAsItShould(s, st, p, Apply(s, st).procs[p])
  {
    WaitDecides(s.procs, s.cpus[st.c].cur);
    hide HasZombieChild, HasChild, WaitScan;
  }

  lemma StackCpu(s: State, st: Step, p: nat)
    requires Shaped(s) && Enabled(s, st) && p < |s.procs| && !Forkish(st) && !st.WaitPass?
    ensures p < |Apply(s, st).procs| && StackAsItShould(s, st, p, Apply(s, st).procs[p])
  {
    hide HasZombieChild, HasChild, FirstWithPid;
  }

  /** What a step takes from the free pages and gives back. */
  lemma FreeLaw(s: State, st: Step)
    requires Inv(s) && Enabled(s, st)
    ensures st.ForkStack? ==> Apply(s, st).free == s.free - {st.page}
    ensures st.ForkNoCopy? ==> Apply(s, st).free == s.free + {s.procs[Cur(s, st.c).act.child].kstack}
    ensures !st.ForkStack? && !st.ForkNoCopy? && !st.WaitPass? ==> Apply(s, st).free == s.free
    ensures st.WaitPass? ==> s.cpus[st.c].cur >= 0
    ensures st.WaitPass? ==> var r := WaitScan(s.procs, s.cpus[st.c].cur);
              Apply(s, st).free == s.free + if r.Found? then {s.procs[r.slot].kstack} else {}
  {
    hide LockOk, CpusOk, RunningOk, StacksOk, ForksOk, ParentsOk, SleepsOk, WaitsOk, WaitScan;
  }

  /** At most the stack of slot e changes: it gets a free page, or its page is freed. */
  ghost predicate OneStack(s: State, s': State, e: nat) {
    && e < |s.procs| == |s'.procs|
    && (forall p :: 0 <= p < |s.procs| && p != e ==> s'.procs[p].kstack == s.procs[p].kstack)
    && var x, y := s.procs[e].kstack, s'.procs[e].kstack;
       || (y == x && s'.free == s.free)
       || (x == 0 && y in s.free && s'.free == s.free - {y})
       || (y == 0 && s'.free == s.free + {x})
  }

  lemma ForkShifts(s: State, st: Step)
    requires Inv(s) && Enabled(s, st) && Forkish(st) && !st.ForkAlloc?
    ensures OneStack(s, Apply(s, st), Cur(s, st.c).act.child)
  {
    var s', e := Apply(s, st), Cur(s, st.c).act.child;
    SameSlots(s, st);
    FreeLaw(s, st);
    assert ForkOk(s.procs, s.cpus[st.c].cur);
    forall p | 0 <= p < |s.procs| ensures StackAsItShould(s, st, p, s'.procs[p]) {
      StackLaw(s, st, p);
    }
    hide LockOk, CpusOk, RunningOk, StacksOk, ForksOk, ParentsOk, SleepsOk, WaitsOk, Apply;
  }

  lemma PassShifts(s: State, st: Step)
    requires Inv(s) && Enabled(s, st) && st.WaitPass?
    ensures exists e :: OneStack(s, Apply(s, st), e)
  {
    var s' := Apply(s, st);
    SameSlots(s, st);
    FreeLaw(s, st);
    WaitDecides(s.procs, s.cpus[st.c].cur);
    forall p | 0 <= p < |s.procs|
      ensures s'.procs[p].kstack == if WaitScan(s.procs, s.cpus[st.c].cur) == Found(p) then 0 else s.procs[p].kstack
    {
      StackLaw(s, st, p);
      Lookups(s, st, p);
    }
    hide LockOk, CpusOk, RunningOk, StacksOk, ForksOk, ParentsOk, SleepsOk, WaitsOk, Apply, WaitScan;
    var r := WaitScan(s.procs, s.cpus[st.c].cur);
    assert OneStack(s, s', if r.Found? then r.slot else s.init);
  }

  lemma OthersShiftNone(s: State, st: Step)
    requires Inv(s) && Enabled(s, st) && !st.WaitPass? && (Forkish(st) ==> st.ForkAlloc?)
    ensures OneStack(s, Apply(s, st), s.init)
  {
    var s' := Apply(s, st);
    SameSlots(s, st);
    FreeLaw(s, st);
    forall p | 0 <= p < |s.procs| ensures s'.procs[p].kstack == s.procs[p].kstack {
      StackLaw(s, st, p);
    }
    hide LockOk, CpusOk, RunningOk, StacksOk, ForksOk, ParentsOk, SleepsOk, WaitsOk, Apply;
  }

  lemma ShiftKeeps(s: State, s': State, e: nat, page: nat)
    requires OneStack(s, s', e) && page != 0
    ensures Accounted(s, page) <==> Accounted(s', page)
  {
    if p :| 0 <= p < |s.procs| && s.procs[p].kstack == page {
      assert page in s'.free || s'.procs[p].kstack == page;
    }
    if p :| 0 <= p < |s'.procs| && s'.procs[p].kstack == page {
      assert page in s.free || s.procs[p].kstack == page;
    }
    assert page in s.free && page !in s'.free ==> s'.procs[e].kstack == page;
    assert page in s'.free && page !in s.free ==> s.procs[e].kstack == page;
  }

  /** No step loses a stack page or makes one up. */
  lemma StackStep(s: State, st: Step, page: nat)
    requires Inv(s) && Enabled(s, st) && page != 0
    ensures Accounted(s, page) <==> Accounted(Apply(s, st), page)
  {
    hide LockOk, CpusOk, RunningOk, StacksOk, ForksOk, ParentsOk, SleepsOk, WaitsOk, Apply, Accounted, OneStack;
    var s' := Apply(s, st);
    if st.WaitPass? {
      PassShifts(s, st);
      var e :| OneStack(s, s', e);
      ShiftKeeps(s, s', e, page);
    } else if Forkish(st) && !st.ForkAlloc? {
      ForkShifts(s, st);
      ShiftKeeps(s, s', Cur(s, st.c).act.child, page);
    } else {
      OthersShiftNone(s, st);
      ShiftKeeps(s, s', s.init, page);
    }
  }

  /** Conservation: in every reachable state the pages that are free or a kernel stack are those that were
      at boot, and each is only one of the two. */
  lemma {:induction false} StacksConserved(ss: seq<State>, sts: seq<Step>, i: nat, page: nat)
    requires Execution(ss, sts) && Init(ss[0]) && i < |ss| && page != 0
    ensures Accounted(ss[i], page) <==> Accounted(ss[0], page)
    ensures StacksOk(ss[i])
  {
    RunInv(ss, sts, i);
    hide Apply, Init, Accounted, Enabled, Shaped;
    hide LockOk, CpusOk, RunningOk, StacksOk, ForksOk, ParentsOk, SleepsOk, WaitsOk;
    if i > 0 {
      StacksConserved(ss, sts, i - 1, page);
      RunInv(ss, sts, i - 1);
      StackStep(ss[i - 1], sts[i - 1], page);
    }
  }

  // ---- The scheduler's scan ----

  /** CPU c looks at slot q in step k. */
  ghost predicate LooksAt(ss: seq<State>, sts: seq<Step>, k: nat, c: nat, q: nat) {
    && k < |sts| && k < |ss| && c < |ss[k].cpus|
    && (sts[k] == Skip(c) || sts[k] == Choose(c)) && ss[k].cpus[c].ph == Scan(q)
  }

  /** How many slots c has looked at since it took the lock, or since the process it runs left off. */
  function Seen(x: Cpu): int {
    if x.ph.Scan? then x.ph.i else x.cur + 1
  }

  lemma SeenStep(s: State, st: Step, c: nat)
    requires Shaped(s) && Enabled(s, st) && c < |s.cpus|
    ensures c < |Apply(s, st).cpus|
    ensures st != Acquire(c) && st != Release(c) ==>
              var n := Seen(s.cpus[c]);
              Seen(Apply(s, st).cpus[c]) == if (st == Skip(c) || st == Choose(c)) then n + 1 else n
    ensures (st == Skip(c) || st == Choose(c)) ==> Seen(s.cpus[c]) >= 0 && s.cpus[c].ph == Scan(Seen(s.cpus[c]))
  {
    hide WaitScan;
  }

  /** Between taking the lock for a scan and releasing it at its end, a scheduler looks at every slot, also
      at those behind the processes it has run. */
  lemma {:induction false} ScanSeesAll(ss: seq<State>, sts: seq<Step>, i: nat, j: nat, c: nat, q: nat)
    requires Execution(ss, sts) && Init(ss[0]) && i < j < |ss| && sts[i] == Acquire(c) && c < |ss[j].cpus|
    requires forall k :: i < k < j ==> sts[k] != Release(c) && sts[k] != Acquire(c)
    requires q < Seen(ss[j].cpus[c])
    ensures exists k :: i < k < j && LooksAt(ss, sts, k, c, q)
    decreases j
  {
    hide Init, Apply, Enabled, Shaped, LockOk, CpusOk, RunningOk, StacksOk, ForksOk, ParentsOk, SleepsOk, WaitsOk;
    RunInv(ss, sts, j - 1);
    if j == i + 1 {
      TakesLock(ss[i], c);
    } else {
      CpuCount(ss[j - 1], sts[j - 1]);
      SeenStep(ss[j - 1], sts[j - 1], c);
      if q < Seen(ss[j - 1].cpus[c]) {
        ScanSeesAll(ss, sts, i, j - 1, c, q);
      } else {
        assert LooksAt(ss, sts, j - 1, c, q);
      }
    }
  }

  lemma TakesLock(s: State, c: nat)
    requires Shaped(s) && Enabled(s, Acquire(c))
    ensures c < |Apply(s, Acquire(c)).cpus| && Seen(Apply(s, Acquire(c)).cpus[c]) == 0
  {
  }

  lemma CpuCount(s: State, st: Step)
    requires Shaped(s) && Enabled(s, st)
    ensures |Apply(s, st).cpus| == |s.cpus|
  {
  }

  /** At the release it has seen them all. */
  lemma ScanComplete(ss: seq<State>, sts: seq<Step>, i: nat, j: nat, c: nat, q: nat)
    requires Execution(ss, sts) && Init(ss[0]) && i < j < |sts| && sts[i] == Acquire(c) && sts[j] == Release(c)
    requires forall k :: i < k < j ==> sts[k] != Release(c) && sts[k] != Acquire(c)
    requires q < |ss[j].procs|
    ensures exists k :: i < k < j && LooksAt(ss, sts, k, c, q)
  {
    ScanSeesAll(ss, sts, i, j, c, q);
  }
}
