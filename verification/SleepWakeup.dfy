/** sleep and wakeup (proc.c) as an interleaving of any number of processes, any number of condition
    locks and any number of channels.  Each step is one lock operation, one slot of the wakeup scan
    or one change of a condition; the model sleep1.p checks the same protocol for two producers and
    two consumers. */
module SleepWakeup {

  /** Lock 0 is ptable.lock.  `Sched` is a scheduler that holds ptable.lock between two switches. */
  datatype Owner = Free | Held(p: nat) | Sched

  datatype Mode = Running | Runnable | Sleeping

  /** Where a process is.  `c` is the channel (and condition) it deals with. */
  datatype Pc =
    | Out                                     // holds no lock
    | In(c: nat)                              // holds the lock of c
    | Calling(c: nat)                         // saw c false and has called sleep
    | Both(c: nat)                            // in sleep, holds the lock of c and ptable.lock
    | Off(c: nat)                             // in sleep, holds ptable.lock, about to go to sleep
    | Asleep(c: nat)                          // switched out in sleep
    | Back(c: nat)                            // switched in again, holding ptable.lock
    | Relock(c: nat)                          // about to reacquire the lock of c
    | Due(c: nat, inside: bool)               // has made c true, owes wakeup(c); inside: still holds its lock
    | Scan(c: nat, i: nat, inside: bool)      // in wakeup1(c), slots below i done

  datatype Proc = Proc(pc: Pc, mode: Mode, chan: nat)

  /** guard[c] is the lock that protects cond[c]; it may be ptable.lock itself, as in wait. */
  datatype State = State(procs: seq<Proc>, locks: seq<Owner>, cond: seq<bool>, guard: seq<nat>)

  datatype Step =
    | Enter(p: nat, c: nat) | Leave(p: nat) | Clear(p: nat) | Raise(p: nat) | Announce(p: nat, c: nat)
    | Early(p: nat) | Decide(p: nat) | LockTable(p: nat) | DropLock(p: nat) | GoToSleep(p: nat)
    | SchedTake | SchedDrop | Dispatch(p: nat) | Tidy(p: nat) | Regain(p: nat)
    | ScanOne(p: nat) | ScanEnd(p: nat) | Kill(p: nat)
    | Switch(p: nat, c: nat)                  // goes on to another condition under the same lock

  // ---- The steps ----

  predicate WellFormed(s: State) {
    && |s.locks| > 0
    && |s.guard| == |s.cond|
    && (forall c :: 0 <= c < |s.guard| ==> s.guard[c] < |s.locks|)
    && (forall p :: 0 <= p < |s.procs| ==> s.procs[p].pc.Out? || s.procs[p].pc.c < |s.cond|)
  }

  predicate Enabled(s: State, st: Step)
    requires WellFormed(s)
  {
    match st
    case Enter(p, c) => p < |s.procs| && s.procs[p].pc == Out && c < |s.cond| && s.locks[s.guard[c]] == Free
    case Leave(p) => p < |s.procs| && s.procs[p].pc.In?
    case Clear(p) => p < |s.procs| && s.procs[p].pc.In?
    case Raise(p) => p < |s.procs| && s.procs[p].pc.In?
    case Announce(p, c) => p < |s.procs| && s.procs[p].pc == Out && c < |s.cond|
    case Early(p) => p < |s.procs| && s.procs[p].pc.Due? && s.procs[p].pc.inside
    case Decide(p) => p < |s.procs| && s.procs[p].pc.In? && !s.cond[s.procs[p].pc.c]
    case LockTable(p) =>
      p < |s.procs| && (s.procs[p].pc.Calling? || s.procs[p].pc.Due?) && (HasTable(s, p) || s.locks[0] == Free)
    case DropLock(p) => p < |s.procs| && s.procs[p].pc.Both?
    case GoToSleep(p) => p < |s.procs| && s.procs[p].pc.Off?
    case SchedTake => s.locks[0] == Free
    case SchedDrop => s.locks[0] == Sched
    case Dispatch(p) => p < |s.procs| && s.locks[0] == Sched && s.procs[p].mode == Runnable && s.procs[p].pc.Asleep?
    case Tidy(p) => p < |s.procs| && s.procs[p].pc.Back?
    case Regain(p) => p < |s.procs| && s.procs[p].pc.Relock? && s.locks[s.guard[s.procs[p].pc.c]] == Free
    case ScanOne(p) => p < |s.procs| && s.procs[p].pc.Scan? && s.procs[p].pc.i < |s.procs|
    case ScanEnd(p) => p < |s.procs| && s.procs[p].pc.Scan? && s.procs[p].pc.i >= |s.procs|
    case Kill(p) => p < |s.procs| && s.locks[0] == Free
    case Switch(p, c) =>
      p < |s.procs| && s.procs[p].pc.In? && c < |s.cond| && s.guard[c] == s.guard[s.procs[p].pc.c]
  }

  /** The process already holds ptable.lock, because that is the lock of its condition. */
  predicate HasTable(s: State, p: nat)
    requires WellFormed(s) && p < |s.procs|
  {
    match s.procs[p].pc
    case Calling(c) => s.guard[c] == 0
    case Due(c, inside) => inside && s.guard[c] == 0
    case _ => false
  }

  function To(s: State, p: nat, pc: Pc): State
    requires p < |s.procs|
  {
    s.(procs := s.procs[p := s.procs[p].(pc := pc)])
  }

  function SetLock(s: State, l: nat, o: Owner): State
    requires l < |s.locks|
  {
    s.(locks := s.locks[l := o])
  }

  /** wakeup1's body for one slot. */
  function Wake(p: Proc, c: nat): Proc {
    if p.mode == Sleeping && p.chan == c then p.(mode := Runnable) else p
  }

  function Apply(s: State, st: Step): State
    requires WellFormed(s) && Enabled(s, st)
  {
    match st
    case Enter(p, c) => SetLock(To(s, p, In(c)), s.guard[c], Held(p))
    case Leave(p) => SetLock(To(s, p, Out), s.guard[s.procs[p].pc.c], Free)
    case Clear(p) => s.(cond := s.cond[s.procs[p].pc.c := false])
    case Raise(p) => To(s, p, Due(s.procs[p].pc.c, true)).(cond := s.cond[s.procs[p].pc.c := true])
    case Announce(p, c) => To(s, p, Due(c, false))
    case Early(p) => SetLock(To(s, p, Due(s.procs[p].pc.c, false)), s.guard[s.procs[p].pc.c], Free)
    case Decide(p) => To(s, p, Calling(s.procs[p].pc.c))
    case LockTable(p) => Locked(s, p)
    case DropLock(p) => SetLock(To(s, p, Off(s.procs[p].pc.c)), s.guard[s.procs[p].pc.c], Free)
    case GoToSleep(p) =>
      SetLock(s.(procs := s.procs[p := Proc(Asleep(s.procs[p].pc.c), Sleeping, s.procs[p].pc.c)]), 0, Sched)
    case SchedTake => SetLock(s, 0, Sched)
    case SchedDrop => SetLock(s, 0, Free)
    case Dispatch(p) =>
      SetLock(s.(procs := s.procs[p := s.procs[p].(pc := Back(s.procs[p].pc.c), mode := Running)]), 0, Held(p))
    case Tidy(p) => Tidied(s, p)
    case Regain(p) => SetLock(To(s, p, In(s.procs[p].pc.c)), s.guard[s.procs[p].pc.c], Held(p))
    case ScanOne(p) => Scanned(s, p)
    case ScanEnd(p) => Finished(s, p)
    case Kill(p) =>
      s.(procs := s.procs[p := if s.procs[p].mode == Sleeping then s.procs[p].(mode := Runnable) else s.procs[p]])
    case Switch(p, c) => To(s, p, In(c))
  }

  function Locked(s: State, p: nat): State
    requires WellFormed(s) && Enabled(s, LockTable(p))
  {
    var pc := s.procs[p].pc;
    if HasTable(s, p) then
      To(s, p, if pc.Calling? then Off(pc.c) else Scan(pc.c, 0, true))
    else
      SetLock(To(s, p, if pc.Calling? then Both(pc.c) else Scan(pc.c, 0, pc.inside)), 0, Held(p))
  }

  function Tidied(s: State, p: nat): State
    requires WellFormed(s) && Enabled(s, Tidy(p))
  {
    var c := s.procs[p].pc.c;
    var s' := s.(procs := s.procs[p := s.procs[p].(chan := 0)]);
    if s.guard[c] == 0 then To(s', p, In(c)) else SetLock(To(s', p, Relock(c)), 0, Free)
  }

  function Scanned(s: State, p: nat): State
    requires WellFormed(s) && Enabled(s, ScanOne(p))
  {
    var pc := s.procs[p].pc;
    var woken := s.procs[pc.i := Wake(s.procs[pc.i], pc.c)];
    s.(procs := woken[p := woken[p].(pc := Scan(pc.c, pc.i + 1, pc.inside))])
  }

  function Finished(s: State, p: nat): State
    requires WellFormed(s) && Enabled(s, ScanEnd(p))
  {
    var pc := s.procs[p].pc;
    if pc.inside && s.guard[pc.c] == 0 then To(s, p, In(pc.c))
    else SetLock(To(s, p, if pc.inside then In(pc.c) else Out), 0, Free)
  }

  // ---- The invariant ----

  /** Process p, at pc, holds lock l. */
  predicate Holds(pc: Pc, guard: seq<nat>, l: nat)
    requires pc.Out? || pc.c < |guard|
  {
    match pc
    case In(c) => l == guard[c]
    case Calling(c) => l == guard[c]
    case Both(c) => l == guard[c] || l == 0
    case Off(c) => l == 0
    case Back(c) => l == 0
    case Due(c, inside) => inside && l == guard[c]
    case Scan(c, i, inside) => l == 0 || (inside && l == guard[c])
    case _ => false
  }

  ghost predicate LocksOk(s: State)
    requires WellFormed(s)
  {
    && (forall l :: 0 < l < |s.locks| ==> s.locks[l] != Sched)
    && (forall l, p :: 0 <= l < |s.locks| && 0 <= p < |s.procs| ==>
         (s.locks[l] == Held(p) <==> Holds(s.procs[p].pc, s.guard, l)))
    && (forall l :: 0 <= l < |s.locks| && s.locks[l].Held? ==> s.locks[l].p < |s.procs|)
  }

  predicate ProcOk(s: State, p: Proc)
    requires WellFormed(s) && (p.pc.Out? || p.pc.c < |s.cond|)
  {
    && (p.mode == Running <==> !p.pc.Asleep?)
    && (p.pc.Asleep? ==> p.chan == p.pc.c)
    && (p.pc.Both? ==> s.guard[p.pc.c] != 0)
    && (p.pc.Relock? ==> s.guard[p.pc.c] != 0)
    && (p.pc.Calling? || p.pc.Both? || (p.pc.Off? && s.guard[p.pc.c] == 0) ==> !s.cond[p.pc.c])
  }

  ghost predicate ProcsOk(s: State)
    requires WellFormed(s)
  {
    forall p :: 0 <= p < |s.procs| ==> ProcOk(s, s.procs[p])
  }

  /** Process q will still wake slot p of channel c: it owes a wakeup whose scan has not passed p. */
  predicate WillWake(q: Proc, p: nat, c: nat) {
    || (q.pc.Due? && q.pc.c == c)
    || (q.pc.Scan? && q.pc.c == c && q.pc.i <= p)
  }

  /** p sleeps on a channel, or has given up its condition lock on the way to sleep. */
  predicate Waiting(p: Proc) {
    (p.pc.Asleep? && p.mode == Sleeping) || p.pc.Off?
  }

  /** Nobody waits for a condition that holds unless a wakeup is on its way to them. */
  ghost predicate NoneLost(s: State)
    requires WellFormed(s)
  {
    forall p :: 0 <= p < |s.procs| && Waiting(s.procs[p]) && s.cond[s.procs[p].pc.c] ==>
      exists q :: 0 <= q < |s.procs| && WillWake(s.procs[q], p, s.procs[p].pc.c)
  }

  ghost predicate Inv(s: State) {
    WellFormed(s) && LocksOk(s) && ProcsOk(s) && NoneLost(s)
  }

  ghost predicate Init(s: State) {
    && WellFormed(s)
    && (forall l :: 0 <= l < |s.locks| ==> s.locks[l] == Free)
    && (forall p :: 0 <= p < |s.procs| ==> s.procs[p] == Proc(Out, Running, 0))
  }

  // ---- Every step keeps it ----

  lemma StepWellFormed(s: State, st: Step)
    requires WellFormed(s) && Enabled(s, st)
    ensures WellFormed(Apply(s, st)) && |Apply(s, st).procs| == |s.procs| && Apply(s, st).guard == s.guard
  {
  }

  /** The process that takes a step, and the one lock the step may take or release. */
  function Actor(s: State, st: Step): nat {
    match st
    case SchedTake => 0
    case SchedDrop => 0
    case _ => st.p
  }

  function Touched(s: State, st: Step): nat
    requires WellFormed(s) && Enabled(s, st)
  {
    match st
    case Enter(_, c) => s.guard[c]
    case Leave(p) => s.guard[s.procs[p].pc.c]
    case Early(p) => s.guard[s.procs[p].pc.c]
    case DropLock(p) => s.guard[s.procs[p].pc.c]
    case Regain(p) => s.guard[s.procs[p].pc.c]
    case _ => 0
  }

  /** A step moves its own process only, and takes or releases one lock in keeping with that. */
  ghost predicate OneLock(s: State, s': State, p: nat, l: nat)
    requires WellFormed(s) && WellFormed(s')
  {
    && s'.guard == s.guard && |s'.procs| == |s.procs| && l < |s.locks|
    && (forall q :: 0 <= q < |s.procs| && q != p ==> s'.procs[q].pc == s.procs[q].pc)
    && |s'.locks| == |s.locks| && (forall m :: 0 <= m < |s.locks| && m != l ==> s'.locks[m] == s.locks[m])
    && (s'.locks[l] == Sched ==> l == 0)
    && (s'.locks[l] == s.locks[l] ||
          ((s.locks[l].Held? ==> s.locks[l].p == p) && (s'.locks[l].Held? ==> s'.locks[l].p == p)))
    && (p < |s.procs| ==> (s'.locks[l] == Held(p) <==> Holds(s'.procs[p].pc, s.guard, l)))
    && (p < |s.procs| ==> forall m :: 0 <= m < |s.locks| && m != l ==>
         (Holds(s'.procs[p].pc, s.guard, m) <==> Holds(s.procs[p].pc, s.guard, m)))
    && (s'.locks[l].Held? ==> s'.locks[l].p < |s.procs|)
  }

  lemma OneLockOk(s: State, s': State, p: nat, l: nat)
    requires WellFormed(s) && WellFormed(s') && LocksOk(s) && OneLock(s, s', p, l)
    ensures LocksOk(s')
  {
    forall m, q | 0 <= m < |s'.locks| && 0 <= q < |s'.procs|
      ensures s'.locks[m] == Held(q) <==> Holds(s'.procs[q].pc, s'.guard, m)
    {
      assert s.locks[m] == Held(q) <==> Holds(s.procs[q].pc, s.guard, m);
    }
  }

  predicate UsesGuard(st: Step) {
    st.Enter? || st.Leave? || st.Early? || st.DropLock? || st.Regain?
  }

  lemma GuardOneLock(s: State, st: Step)
    requires Inv(s) && Enabled(s, st) && UsesGuard(st)
    ensures WellFormed(Apply(s, st)) && OneLock(s, Apply(s, st), Actor(s, st), Touched(s, st))
  {
    StepWellFormed(s, st);
    assert ProcOk(s, s.procs[st.p]);
    assert s.locks[0] == Held(st.p) <==> Holds(s.procs[st.p].pc, s.guard, 0);
  }

  lemma TableOneLock(s: State, st: Step)
    requires Inv(s) && Enabled(s, st) && !UsesGuard(st)
    ensures WellFormed(Apply(s, st)) && OneLock(s, Apply(s, st), Actor(s, st), Touched(s, st))
  {
    StepWellFormed(s, st);
    var p := Actor(s, st);
    if p < |s.procs| {
      assert ProcOk(s, s.procs[p]);
      assert s.locks[0] == Held(p) <==> Holds(s.procs[p].pc, s.guard, 0);
    }
  }

  lemma StepOneLock(s: State, st: Step)
    requires Inv(s) && Enabled(s, st)
    ensures WellFormed(Apply(s, st)) && OneLock(s, Apply(s, st), Actor(s, st), Touched(s, st))
  {
    if UsesGuard(st) {
      GuardOneLock(s, st);
    } else {
      TableOneLock(s, st);
    }
  }

  lemma StepLocks(s: State, st: Step)
    requires Inv(s) && Enabled(s, st)
    ensures WellFormed(Apply(s, st)) && LocksOk(Apply(s, st))
  {
    StepOneLock(s, st);
    OneLockOk(s, Apply(s, st), Actor(s, st), Touched(s, st));
  }

  lemma StepProcs(s: State, st: Step)
    requires Inv(s) && Enabled(s, st)
    ensures WellFormed(Apply(s, st)) && ProcsOk(Apply(s, st))
  {
    StepWellFormed(s, st);
    var s' := Apply(s, st);
    forall p | 0 <= p < |s'.procs| ensures ProcOk(s', s'.procs[p]) {
      assert ProcOk(s, s.procs[p]);
      if st.Raise? && p != st.p {
        RaiseAlone(s, st.p, p);
      }
    }
  }

  /** Only the holder of a condition's lock raises it, so nobody is then on the way to sleep with it. */
  lemma RaiseAlone(s: State, q: nat, p: nat)
    requires Inv(s) && q < |s.procs| && s.procs[q].pc.In? && p < |s.procs| && p != q
    ensures !s.procs[p].pc.Out? && s.procs[p].pc.c == s.procs[q].pc.c ==>
              !s.procs[p].pc.Calling? && !s.procs[p].pc.Both? && !(s.procs[p].pc.Off? && s.guard[s.procs[p].pc.c] == 0)
  {
    var l := s.guard[s.procs[q].pc.c];
    assert s.locks[l] == Held(q);
    assert s.locks[l] == Held(p) <==> Holds(s.procs[p].pc, s.guard, l);
  }

  /** A wakeup that is on its way stays on its way until it has reached p. */
  lemma StillComing(s: State, st: Step, p: nat, c: nat, q: nat)
    requires Inv(s) && Enabled(s, st) && p < |s.procs| && q < |s.procs| && WillWake(s.procs[q], p, c)
    requires Waiting(s.procs[p]) && s.procs[p].pc.c == c
    ensures var s' := Apply(s, st);
            |s'.procs| == |s.procs| && (WillWake(s'.procs[q], p, c) || !Waiting(s'.procs[p]))
  {
    StepWellFormed(s, st);
    assert ProcOk(s, s.procs[p]) && ProcOk(s, s.procs[q]);
    if s.procs[p].pc.Off? && s.procs[q].pc.Scan? {
      assert s.locks[0] == Held(p) && s.locks[0] == Held(q);
    }
  }

  lemma StepNoneLost(s: State, st: Step)
    requires Inv(s) && Enabled(s, st)
    ensures WellFormed(Apply(s, st)) && NoneLost(Apply(s, st))
  {
    StepWellFormed(s, st);
    var s' := Apply(s, st);
    forall p | 0 <= p < |s'.procs| && Waiting(s'.procs[p]) && s'.cond[s'.procs[p].pc.c]
      ensures exists q :: 0 <= q < |s'.procs| && WillWake(s'.procs[q], p, s'.procs[p].pc.c)
    {
      var c := s'.procs[p].pc.c;
      assert ProcOk(s, s.procs[p]);
      if !s.cond[c] {
        assert st.Raise? && WillWake(s'.procs[st.p], p, c);
      } else {
        assert Waiting(s.procs[p]) && s.procs[p].pc.c == c;
        var q :| 0 <= q < |s.procs| && WillWake(s.procs[q], p, c);
        StillComing(s, st, p, c, q);
      }
    }
  }

  lemma StepInv(s: State, st: Step)
    requires Inv(s) && Enabled(s, st)
    ensures Inv(Apply(s, st))
  {
    StepLocks(s, st);
    StepProcs(s, st);
    StepNoneLost(s, st);
  }

  // ---- Whole runs ----

  /** ss is a run: each state follows from the one before by an enabled step. */
  ghost predicate Run(ss: seq<State>, sts: seq<Step>) {
    && |ss| == |sts| + 1
    && (forall i :: 0 <= i < |sts| ==> WellFormed(ss[i]) && Enabled(ss[i], sts[i]) && ss[i + 1] == Apply(ss[i], sts[i]))
  }

  lemma {:induction false} RunInv(ss: seq<State>, sts: seq<Step>, i: nat)
    requires Run(ss, sts) && Inv(ss[0]) && i < |ss|
    ensures Inv(ss[i]) && |ss[i].procs| == |ss[0].procs|
  {
    if i > 0 {
      RunInv(ss, sts, i - 1);
      StepInv(ss[i - 1], sts[i - 1]);
      StepWellFormed(ss[i - 1], sts[i - 1]);
    }
  }

  lemma InitInv(s: State)
    requires Init(s)
    ensures Inv(s)
  {
  }

  /** No lost wakeup: in every reachable state, a process left sleeping on a condition that holds has
      a wakeup coming; once no wakeup of the channel is outstanding, its sleepers' condition is false. */
  lemma NoLostWakeup(ss: seq<State>, sts: seq<Step>, i: nat, p: nat)
    requires Run(ss, sts) && Init(ss[0]) && i < |ss| && p < |ss[i].procs|
    requires WellFormed(ss[i]) && ss[i].procs[p].mode == Sleeping
    requires forall q :: 0 <= q < |ss[i].procs| ==> !WillWake(ss[i].procs[q], p, ss[i].procs[p].chan)
    ensures ss[i].procs[p].chan < |ss[i].cond| && !ss[i].cond[ss[i].procs[p].chan]
  {
    InitInv(ss[0]);
    RunInv(ss, sts, i);
    assert ProcOk(ss[i], ss[i].procs[p]);
  }

  lemma SleeperWaits(s: State, p: nat)
    requires Inv(s) && p < |s.procs| && s.procs[p].mode == Sleeping
    ensures Waiting(s.procs[p]) && s.procs[p].pc.c == s.procs[p].chan
  {
    assert ProcOk(s, s.procs[p]);
  }

  lemma DueWillWake(q: Proc, p: nat, c: nat)
    requires q.pc.Due? && q.pc.c == c
    ensures WillWake(q, p, c)
  {
  }

  /** A wakeup of c that starts while p sleeps on c and completes finds p no longer asleep, or p has
      been woken on the way: no run leaves p SLEEPING from the call to the return. */
  lemma {:induction false} CompletedWakeupWakes(ss: seq<State>, sts: seq<Step>, p: nat, q: nat, c: nat, n: nat)
    requires Run(ss, sts) && Inv(ss[0]) && n < |ss| && p < |ss[0].procs| && q < |ss[0].procs|
    requires ss[0].procs[q].pc.Due? && ss[0].procs[q].pc.c == c
    requires forall i :: 0 <= i <= n ==>
          p < |ss[i].procs| && ss[i].procs[p].mode == Sleeping && ss[i].procs[p].chan == c
    ensures q < |ss[n].procs| && WillWake(ss[n].procs[q], p, c)
  {
    hide Inv, Enabled, Apply, WellFormed, WillWake, Waiting;
    if n == 0 {
      DueWillWake(ss[0].procs[q], p, c);
    } else {
      CompletedWakeupWakes(ss, sts, p, q, c, n - 1);
      RunInv(ss, sts, n - 1);
      RunInv(ss, sts, n);
      assert ss[n] == Apply(ss[n - 1], sts[n - 1]);
      SleeperWaits(ss[n - 1], p);
      SleeperWaits(ss[n], p);
      StillComing(ss[n - 1], sts[n - 1], p, c, q);
    }
  }

  // ---- No deadlock ----

  /** p has nothing to do: outside, or asleep for a condition that does not hold. */
  predicate AtRest(s: State, p: nat)
    requires WellFormed(s) && p < |s.procs|
  {
    s.procs[p].pc == Out || (s.procs[p].pc.Asleep? && s.procs[p].mode == Sleeping && !s.cond[s.procs[p].pc.c])
  }

  /** A step that some process already inside the protocol, or the scheduler, is obliged to take. */
  predicate Obliged(s: State, st: Step)
    requires WellFormed(s)
  {
    && Enabled(s, st)
    && !st.Enter? && !st.Announce? && !st.Kill? && !st.Clear? && !st.Switch?
    && (st.SchedTake? ==> exists p :: 0 <= p < |s.procs| && s.procs[p].mode == Runnable)
  }

  lemma HolderMoves(s: State, p: nat)
    requires Inv(s) && p < |s.procs| && (s.locks[0] == Free || s.locks[0] == Held(p))
    requires exists l :: 0 <= l < |s.locks| && s.locks[l] == Held(p)
    ensures exists st :: Obliged(s, st)
  {
    var l :| 0 <= l < |s.locks| && s.locks[l] == Held(p);
    assert Holds(s.procs[p].pc, s.guard, l);
    assert ProcOk(s, s.procs[p]);
    assert s.locks[0] == Held(p) <==> Holds(s.procs[p].pc, s.guard, 0);
    var st := match s.procs[p].pc
      case In(_) => Leave(p)
      case Calling(_) => LockTable(p)
      case Both(_) => DropLock(p)
      case Off(_) => GoToSleep(p)
      case Back(_) => Tidy(p)
      case Due(_, _) => LockTable(p)
      case Scan(_, i, _) => if i < |s.procs| then ScanOne(p) else ScanEnd(p)
      case _ => SchedDrop;
    assert Obliged(s, st);
  }

  /** Whenever some process is not at rest, some step that moves the protocol on is enabled: the locks
      are never in a cycle and no runnable or owed process is stuck. */
  lemma NoDeadlock(ss: seq<State>, sts: seq<Step>, i: nat, p: nat)
    requires Run(ss, sts) && Init(ss[0]) && i < |ss| && p < |ss[i].procs|
    requires WellFormed(ss[i]) && !AtRest(ss[i], p)
    ensures exists st :: Obliged(ss[i], st)
  {
    InitInv(ss[0]);
    RunInv(ss, sts, i);
    SomeoneMoves(ss[i], p);
  }

  lemma SomeoneMoves(s: State, p: nat)
    requires Inv(s) && p < |s.procs| && !AtRest(s, p)
    ensures exists st :: Obliged(s, st)
  {
    assert ProcOk(s, s.procs[p]);
    if s.locks[0].Held? {
      HolderMoves(s, s.locks[0].p);
    } else if s.locks[0] == Sched {
      assert Obliged(s, SchedDrop);
    } else {
      var pc := s.procs[p].pc;
      if pc.Asleep? && s.procs[p].mode == Sleeping {
        var q :| 0 <= q < |s.procs| && WillWake(s.procs[q], p, pc.c);
        OwedMoves(s, q);
      } else if pc.Asleep? {
        assert Obliged(s, SchedTake);
      } else if pc.Relock? {
        var l := s.guard[pc.c];
        if s.locks[l].Held? {
          HolderMoves(s, s.locks[l].p);
        } else {
          assert Obliged(s, Regain(p));
        }
      } else if pc.Due? {
        OwedMoves(s, p);
      } else {
        var l := if pc.In? || pc.Calling? then s.guard[pc.c] else 0;
        assert Holds(pc, s.guard, l) && s.locks[l] == Held(p);
        HolderMoves(s, p);
      }
    }
  }

  lemma OwedMoves(s: State, q: nat)
    requires Inv(s) && q < |s.procs| && s.locks[0] == Free && (s.procs[q].pc.Due? || s.procs[q].pc.Scan?)
    ensures exists st :: Obliged(s, st)
  {
    if s.procs[q].pc.Due? {
      assert Obliged(s, LockTable(q));
    } else {
      assert Obliged(s, if s.procs[q].pc.i < |s.procs| then ScanOne(q) else ScanEnd(q));
    }
  }

  // ---- What sleep and wakeup do ----

  /** The step is wakeup1's look at slot p, with p asleep on its channel. */
  predicate Wakes(s: State, st: Step, p: nat)
    requires WellFormed(s) && Enabled(s, st) && p < |s.procs|
  {
    st.ScanOne? && s.procs[st.p].pc.i == p && s.procs[p].chan == s.procs[st.p].pc.c
  }

  /** A process is asleep after a step exactly if it goes to sleep in it, or was asleep and is neither woken
      nor killed; it runs until it goes to sleep, and again from when it is dispatched. */
  lemma ModeLaw(s: State, st: Step, p: nat)
    requires Inv(s) && Enabled(s, st) && p < |s.procs|
    ensures p < |Apply(s, st).procs|
    ensures var x, y := s.procs[p], Apply(s, st).procs[p];
            && (y.mode == Sleeping <==>
                  st == GoToSleep(p) || (x.mode == Sleeping && !Wakes(s, st, p) && st != Kill(p)))
            && (y.mode == Running <==> st == Dispatch(p) || (x.mode == Running && st != GoToSleep(p)))
            && (st == GoToSleep(p) ==> y.chan == x.pc.c) && (x.mode == Sleeping ==> y.chan == x.chan && y.pc == x.pc)
  {
    assert ProcOk(s, s.procs[p]);
    hide LocksOk, ProcsOk, NoneLost;
  }

  /** A condition is true after a step exactly if the step raises it, or it was true and is not cleared. */
  lemma CondLaw(s: State, st: Step, c: nat)
    requires Inv(s) && Enabled(s, st) && c < |s.cond|
    ensures c < |Apply(s, st).cond|
    ensures Apply(s, st).cond[c] <==>
              (st.Raise? && s.procs[st.p].pc.c == c) || (s.cond[c] && !(st.Clear? && s.procs[st.p].pc.c == c))
  {
    hide LocksOk, ProcsOk, NoneLost;
  }

  /** A process outside takes a condition's lock or comes to owe a wakeup; one inside stays inside its
      condition until it leaves, makes it true, goes on to another or, having seen it false, calls sleep.
      A scheduler has ptable.lock from when it takes it, or is switched to, to when it drops it or
      switches to a process. */
  lemma CallLaw(s: State, st: Step, p: nat)
    requires Inv(s) && Enabled(s, st) && p < |s.procs|
    ensures WellFormed(Apply(s, st)) && p < |Apply(s, st).procs|
    ensures var x, y := s.procs[p].pc, Apply(s, st).procs[p].pc;
            && (x == Out ==> y == if st.Enter? && st.p == p then In(st.c)
                                  else if st.Announce? && st.p == p then Due(st.c, false) else Out)
            && (x.In? ==> y == if st == Leave(p) then Out else if st == Raise(p) then Due(x.c, true)
                               else if st == Decide(p) then Calling(x.c)
                               else if st.Switch? && st.p == p then In(st.c) else x)
            && (st == Decide(p) ==> !s.cond[x.c])
    ensures Apply(s, st).locks[0] == Sched <==>
              st.SchedTake? || st.GoToSleep? || (s.locks[0] == Sched && !st.SchedDrop? && !st.Dispatch?)
  {
    StepLocks(s, st);
    assert ProcOk(s, s.procs[p]);
    LockedBy(s, st);
    hide LocksOk, ProcsOk, NoneLost;
  }

  /** Who sets a lock free or takes it is not a scheduler. */
  lemma LockedBy(s: State, st: Step)
    requires Inv(s) && Enabled(s, st)
    ensures st.Leave? || st.Early? || st.DropLock? ==> s.locks[s.guard[s.procs[st.p].pc.c]] == Held(st.p)
    ensures st.Tidy? || st.ScanEnd? || st.ScanOne? ==> s.locks[0] == Held(st.p)
  {
    if !st.SchedTake? && !st.SchedDrop? {
      assert ProcOk(s, s.procs[st.p]);
    }
  }

  /** How far a call of sleep has come: 3 is asleep, 6 is back with the lock. */
  function Stage(pc: Pc): int {
    match pc
    case Calling(_) => 0
    case Both(_) => 1
    case Off(_) => 2
    case Asleep(_) => 3
    case Back(_) => 4
    case Relock(_) => 5
    case In(_) => 6
    case _ => -1
  }

  /** A call of sleep goes its way in order: it cannot pass being asleep, and comes back holding the lock of
      the condition it was called with. */
  lemma SleepPath(s: State, st: Step, p: nat)
    requires Inv(s) && Enabled(s, st) && p < |s.procs| && 0 <= Stage(s.procs[p].pc) < 6
    ensures p < |Apply(s, st).procs|
    ensures var x, y := s.procs[p].pc, Apply(s, st).procs[p].pc;
            && Stage(y) >= Stage(x) && y.c == x.c && (Stage(x) < 3 ==> Stage(y) <= 3)
            && (y.In? ==> WellFormed(Apply(s, st)) && Apply(s, st).locks[s.guard[x.c]] == Held(p))
  {
    StepLocks(s, st);
    assert ProcOk(s, s.procs[p]);
    hide LocksOk, ProcsOk, NoneLost;
  }

  /** A wakeup that is owed is carried out: its scan starts at slot 0, takes one slot at a time, and ends
      only when it has passed all of them. */
  lemma WakePath(s: State, st: Step, q: nat)
    requires Inv(s) && Enabled(s, st) && q < |s.procs| && (s.procs[q].pc.Due? || s.procs[q].pc.Scan?)
    ensures q < |Apply(s, st).procs|
    ensures var x, y := s.procs[q].pc, Apply(s, st).procs[q].pc;
            if x.Due? then (y.Due? || y == Scan(x.c, 0, x.inside)) && y.c == x.c
            else if x.i < |s.procs| then y == if st == ScanOne(q) then Scan(x.c, x.i + 1, x.inside) else x
            else y == x || y == if x.inside then In(x.c) else Out
  {
    assert ProcOk(s, s.procs[q]);
    hide LocksOk, ProcsOk, NoneLost;
  }

  /** Step k looks at p for its channel, or kills it. */
  ghost predicate WokenIn(ss: seq<State>, sts: seq<Step>, k: nat, p: nat) {
    && k < |ss| && k < |sts| && WellFormed(ss[k]) && Enabled(ss[k], sts[k]) && p < |ss[k].procs|
    && (Wakes(ss[k], sts[k], p) || sts[k] == Kill(p))
  }

  lemma SleeperThere(s: State, p: nat)
    requires WellFormed(s) && Enabled(s, GoToSleep(p))
    ensures p < |s.procs|
  {
  }

  lemma {:induction false} AsleepUntilWoken(ss: seq<State>, sts: seq<Step>, i: nat, j: nat, p: nat)
    requires Run(ss, sts) && Init(ss[0]) && i < j < |ss| && sts[i] == GoToSleep(p)
    requires forall k :: i < k < j ==> !WokenIn(ss, sts, k, p)
    ensures p < |ss[j].procs| && ss[j].procs[p].mode == Sleeping && ss[j].procs[p].pc == ss[i + 1].procs[p].pc
    decreases j
  {
    InitInv(ss[0]);
    hide Inv, Init, Apply, WellFormed, Wakes, Enabled;
    assert Enabled(ss[i], sts[i]);
    SleeperThere(ss[i], p);
    RunInv(ss, sts, j - 1);
    if j > i + 1 {
      AsleepUntilWoken(ss, sts, i, j - 1, p);
      assert !WokenIn(ss, sts, j - 1, p);
    }
    ModeLaw(ss[j - 1], sts[j - 1], p);
  }

  /** A process that is dispatched out of sleep was, since it went to sleep, passed by a scan of its channel
      or killed. */
  lemma DispatchedWasWoken(ss: seq<State>, sts: seq<Step>, i: nat, j: nat, p: nat)
    requires Run(ss, sts) && Init(ss[0]) && i < j < |sts| && sts[i] == GoToSleep(p) && sts[j] == Dispatch(p)
    ensures exists k :: i < k < j && WokenIn(ss, sts, k, p)
  {
    if forall k :: i < k < j ==> !WokenIn(ss, sts, k, p) {
      AsleepUntilWoken(ss, sts, i, j, p);
      assert false;
    }
  }

  /** The only process, waiting for condition 0 behind lock 1. */
  function Lone(pc: Pc, mode: Mode, table: Owner, lock: Owner): State {
    State([Proc(pc, mode, 0)], [table, lock], [false], [1])
  }

  lemma LoneEnters()
    ensures Enabled(Lone(Out, Running, Free, Free), Enter(0, 0))
    ensures Apply(Lone(Out, Running, Free, Free), Enter(0, 0)) == Lone(In(0), Running, Free, Held(0))
    ensures Enabled(Lone(In(0), Running, Free, Held(0)), Decide(0))
    ensures Apply(Lone(In(0), Running, Free, Held(0)), Decide(0)) == Lone(Calling(0), Running, Free, Held(0))
  {
  }

  lemma LoneLocks()
    ensures Enabled(Lone(Calling(0), Running, Free, Held(0)), LockTable(0))
    ensures Apply(Lone(Calling(0), Running, Free, Held(0)), LockTable(0)) == Lone(Both(0), Running, Held(0), Held(0))
    ensures Enabled(Lone(Both(0), Running, Held(0), Held(0)), DropLock(0))
    ensures Apply(Lone(Both(0), Running, Held(0), Held(0)), DropLock(0)) == Lone(Off(0), Running, Held(0), Free)
    ensures Enabled(Lone(Off(0), Running, Held(0), Free), GoToSleep(0))
    ensures Apply(Lone(Off(0), Running, Held(0), Free), GoToSleep(0)) == Lone(Asleep(0), Sleeping, Sched, Free)
  {
  }

  /** A process that waits for a false condition is left asleep. */
  lemma SleeperExists() returns (ss: seq<State>, sts: seq<Step>)
    ensures Run(ss, sts) && Init(ss[0]) && |ss| == 6 && |ss[5].procs| == 1
    ensures ss[5].procs[0].mode == Sleeping && ss[5].cond == [false]
  {
    LoneEnters();
    LoneLocks();
    assert Init(Lone(Out, Running, Free, Free));
    var s1, s2 := Lone(In(0), Running, Free, Held(0)), Lone(Calling(0), Running, Free, Held(0));
    var s3, s4 := Lone(Both(0), Running, Held(0), Held(0)), Lone(Off(0), Running, Held(0), Free);
    hide Apply, Enabled, Init;
    ss := [Lone(Out, Running, Free, Free), s1, s2, s3, s4, Lone(Asleep(0), Sleeping, Sched, Free)];
    sts := [Enter(0, 0), Decide(0), LockTable(0), DropLock(0), GoToSleep(0)];
  }
}
