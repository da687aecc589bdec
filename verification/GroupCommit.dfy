/** begin_op, log_write and end_op: any number of processes share one transaction.

    Each step is what a process does while it holds log.lock, except the two panic tests at the
    head of log_write, which the source makes without the lock and which are a step of their own. */
module GroupCommit {
  import opened Common

  /** Where a process is.  An operation remembers the distinct blocks it has logged. */
  datatype Proc =
    | Out                                 // in no operation
    | Waiting                             // in begin_op, asleep on &log
    | Retry                               // in begin_op, woken, about to test again
    | In(used: set<int>)                  // between begin_op and end_op
    | Checked(used: set<int>, b: int)     // in log_write, past the panic tests
    | Committing(erased: bool)            // in end_op, running commit()

  datatype Panic = NoPanic | TooBig | CommittingSet | OutsideTrans

  /** struct log, the processes, and the panic message if there was one. */
  datatype Log = Log(procs: seq<Proc>, lh: seq<int>, outstanding: int, committing: bool, panic: Panic)

  datatype Step =
    | Begin(p: nat)               // one turn of begin_op's loop
    | Check(p: nat, b: int)       // log_write's panic tests
    | Append(p: nat)              // log_write under the lock
    | End(p: nat)                 // end_op up to releasing the lock
    | Erase(p: nat)               // commit() sets log.lh.n = 0
    | Done(p: nat)                // end_op after commit()

  predicate InOp(x: Proc) {
    x.In? || x.Checked?
  }

  /** Where the process must be for its step. */
  predicate Ready(s: Log, st: Step) {
    && s.panic == NoPanic
    && st.p < |s.procs|
    && match st
       case Begin(p) => s.procs[p].Out? || s.procs[p].Retry?
       case Check(p, b) => s.procs[p].In?
       case Append(p) => s.procs[p].Checked?
       case End(p) => s.procs[p].In?
       case Erase(p) => s.procs[p] == Committing(false)
       case Done(p) => s.procs[p] == Committing(true)
  }

  /** Operations that write at most cap distinct blocks each.  log.c asks its callers for MAXOPBLOCKS. */
  predicate Enabled(cap: nat, s: Log, st: Step) {
    Ready(s, st) && (st.Check? ==> |s.procs[st.p].used + {st.b}| <= cap)
  }

  function WakeAll(procs: seq<Proc>): seq<Proc> {
    seq(|procs|, i requires 0 <= i < |procs| => if procs[i].Waiting? then Retry else procs[i])
  }

  /** log.size is the number of blocks in the log area. */
  function Apply(size: nat, s: Log, st: Step): Log
    requires Ready(s, st)
  {
    match st
    case Begin(p) =>
      if s.committing then s.(procs := s.procs[p := Waiting])
      else if |s.lh| + (s.outstanding + 1) * MAXOPBLOCKS > LOGSIZE then s.(procs := s.procs[p := Waiting])
      else s.(procs := s.procs[p := In({})], outstanding := s.outstanding + 1)
    case Check(p, b) =>
      if |s.lh| >= LOGSIZE || |s.lh| >= size - 1 then s.(panic := TooBig)
      else if s.outstanding < 1 then s.(panic := OutsideTrans)
      else s.(procs := s.procs[p := Checked(s.procs[p].used, b)])
    case Append(p) =>
      s.(procs := s.procs[p := In(s.procs[p].used + {s.procs[p].b})], lh := Absorb(s.lh, s.procs[p].b))
    case End(p) =>
      if s.committing then s.(panic := CommittingSet)
      else if s.outstanding == 1 then
        s.(procs := s.procs[p := Committing(false)], outstanding := 0, committing := true)
      else s.(procs := WakeAll(s.procs[p := Out]), outstanding := s.outstanding - 1)
    case Erase(p) => s.(procs := s.procs[p := Committing(true)], lh := [])
    case Done(p) => s.(procs := WakeAll(s.procs[p := Out]), committing := false)
  }

  predicate Init(s: Log) {
    s == Log(seq(|s.procs|, i => Out), [], 0, false, NoPanic)
  }

  /** begin_op would not sleep: no commit, and room for one more operation. */
  predicate Admits(s: Log) {
    !s.committing && |s.lh| + (s.outstanding + 1) * MAXOPBLOCKS <= LOGSIZE
  }

  /** A block is listed after a step exactly if the step logs it, or it was listed and the step is not the
      end of a commit; a process is in an operation from begin_op to end_op, and is let in exactly if
      begin_op's test admits it. */
  lemma StepLaw(size: nat, s: Log, st: Step, b: int, p: nat)
    requires Ready(s, st) && p < |s.procs|
    ensures var s' := Apply(size, s, st);
            && (b in s'.lh <==> (st.Append? && s.procs[st.p].b == b) || (b in s.lh && !st.Erase?))
            && |s'.procs| == |s.procs|
            && (InOp(s'.procs[p]) <==>
                  || (st == Begin(p) && Admits(s))
                  || (InOp(s.procs[p]) && !(st == End(p) && !s.committing)))
            && (s'.procs[p].Waiting? <==>
                  || (st == Begin(p) && !Admits(s))
                  || (s.procs[p].Waiting? && !(st.End? && !s.committing && s.outstanding != 1) && !st.Done?))
  {
  }

  // ---- Sums over the processes ----

  /** The blocks an operation may still add to the log. */
  function Unused(cap: nat, x: Proc): int {
    if InOp(x) then cap - |x.used| else 0
  }

  function Budget(cap: nat, procs: seq<Proc>): int {
    if procs == [] then 0 else Unused(cap, procs[0]) + Budget(cap, procs[1..])
  }

  function One(x: Proc): int {
    if InOp(x) then 1 else 0
  }

  function Ops(procs: seq<Proc>): int {
    if procs == [] then 0 else One(procs[0]) + Ops(procs[1..])
  }

  lemma {:induction false} SumUpdate(cap: nat, procs: seq<Proc>, p: nat, x: Proc)
    requires p < |procs|
    ensures Budget(cap, procs[p := x]) == Budget(cap, procs) - Unused(cap, procs[p]) + Unused(cap, x)
    ensures Ops(procs[p := x]) == Ops(procs) - One(procs[p]) + One(x)
  {
    if p == 0 {
      assert procs[0 := x][1..] == procs[1..];
    } else {
      SumUpdate(cap, procs[1..], p - 1, x);
      assert procs[p := x][1..] == procs[1..][p - 1 := x];
    }
  }

  lemma {:induction false} SumWake(cap: nat, procs: seq<Proc>)
    ensures Budget(cap, WakeAll(procs)) == Budget(cap, procs)
    ensures Ops(WakeAll(procs)) == Ops(procs)
  {
    if procs != [] {
      SumWake(cap, procs[1..]);
      assert WakeAll(procs)[1..] == WakeAll(procs[1..]);
    }
  }

  lemma {:induction false} SumNone(cap: nat, procs: seq<Proc>)
    requires forall i :: 0 <= i < |procs| ==> !InOp(procs[i])
    ensures Budget(cap, procs) == 0 && Ops(procs) == 0
  {
    if procs != [] {
      SumNone(cap, procs[1..]);
    }
  }

  /** The sums are not negative, and bound each term. */
  lemma {:induction false} SumBounds(cap: nat, procs: seq<Proc>, p: nat)
    requires p < |procs| && (forall i :: 0 <= i < |procs| ==> Unused(cap, procs[i]) >= 0)
    ensures Budget(cap, procs) >= Unused(cap, procs[p]) >= 0
    ensures Ops(procs) >= One(procs[p])
  {
    if p > 0 {
      SumBounds(cap, procs[1..], p - 1);
    } else if |procs| > 1 {
      SumBounds(cap, procs[1..], 0);
    }
  }

  // ---- Invariant ----

  /** The most that one transaction can come to: begin_op lets three operations in together, or, beside
      an open one, as many as it takes to log MAXOPBLOCKS blocks and then one more. */
  function Most(cap: nat): nat {
    if cap <= MAXOPBLOCKS then MAXOPBLOCKS + 2 * cap else 3 * cap
  }

  ghost predicate Inv(cap: nat, s: Log) {
    && s.outstanding == Ops(s.procs)
    && (forall i :: 0 <= i < |s.procs| ==> Unused(cap, s.procs[i]) >= 0)
    && (forall i :: 0 <= i < |s.procs| && s.procs[i].Checked? ==> |s.procs[i].used + {s.procs[i].b}| <= cap)
    && (forall i :: 0 <= i < |s.procs| && InOp(s.procs[i]) ==> forall b :: b in s.procs[i].used ==> b in s.lh)
    // The reservation: what is logged, plus what the open operations may still log, is bounded.
    && |s.lh| + Budget(cap, s.procs) <= Most(cap)
    && (forall i, j :: 0 <= i < j < |s.lh| ==> s.lh[i] != s.lh[j])
    // One committer, and only when nothing is outstanding.
    && (s.committing ==> s.outstanding == 0)
    && (s.committing <==> exists i :: 0 <= i < |s.procs| && s.procs[i].Committing?)
    && (forall i, j :: 0 <= i < j < |s.procs| && s.procs[i].Committing? ==> !s.procs[j].Committing?)
    && (forall i :: 0 <= i < |s.procs| && s.procs[i] == Committing(true) ==> s.lh == [])
    && (!s.committing && s.outstanding == 0 ==> s.lh == [])
    // Nobody sleeps without someone to wake it.
    && ((exists i :: 0 <= i < |s.procs| && s.procs[i].Waiting?) ==> s.committing || s.outstanding > 0)
    // Nobody sleeps whom begin_op would let in.
    && ((exists i :: 0 <= i < |s.procs| && s.procs[i].Waiting?) ==> !Admits(s))
    && s.panic != CommittingSet && s.panic != OutsideTrans
  }

  lemma InitInv(cap: nat, s: Log)
    requires Init(s)
    ensures Inv(cap, s)
  {
    SumNone(cap, s.procs);
  }

  lemma BeginStep(cap: nat, size: nat, s: Log, st: Step)
    requires Inv(cap, s) && Enabled(cap, s, st) && st.Begin?
    ensures Inv(cap, Apply(size, s, st))
  {
    hide Budget, Ops;
    SumUpdate(cap, s.procs, st.p, Waiting);
    SumUpdate(cap, s.procs, st.p, In({}));
    SumBounds(cap, s.procs, st.p);
    var s' := Apply(size, s, st);
    if !s.committing && |s.lh| + (s.outstanding + 1) * MAXOPBLOCKS <= LOGSIZE {
      BudgetFits(cap, s.procs);
      assert s.outstanding == 0 || s.outstanding == 1 || s.outstanding == 2;
    }
    if s.committing {
      var i :| 0 <= i < |s.procs| && s.procs[i].Committing?;
      assert s'.procs[i].Committing?;
    }
  }

  /** No operation has more than cap blocks left to use. */
  lemma {:induction false} BudgetFits(cap: nat, procs: seq<Proc>)
    ensures Budget(cap, procs) <= Ops(procs) * cap
  {
    if procs != [] {
      BudgetFits(cap, procs[1..]);
      assert Ops(procs) * cap == One(procs[0]) * cap + Ops(procs[1..]) * cap;
    }
  }

  /** The panic test fails only when the log is full; an operation that is about to log a block it
      has not logged before finds room, if the log area is larger than a transaction can become. */
  lemma CheckStep(cap: nat, size: nat, s: Log, st: Step)
    requires Inv(cap, s) && Enabled(cap, s, st) && st.Check?
    ensures Inv(cap, Apply(size, s, st))
    ensures cap <= MAXOPBLOCKS && size > Most(cap) && st.b !in s.procs[st.p].used ==>
              Apply(size, s, st).panic == NoPanic
    ensures cap <= MAXOPBLOCKS && size > Most(cap) && |s.procs[st.p].used| < cap ==>
              Apply(size, s, st).panic == NoPanic
  {
    hide Budget, Ops;
    var used := s.procs[st.p].used;
    SumUpdate(cap, s.procs, st.p, Checked(used, st.b));
    SumBounds(cap, s.procs, st.p);
    if st.b !in used {
      assert |used + {st.b}| == |used| + 1;
    }
  }

  lemma AppendStep(cap: nat, size: nat, s: Log, st: Step)
    requires Inv(cap, s) && Enabled(cap, s, st) && st.Append?
    ensures Inv(cap, Apply(size, s, st))
    ensures |Apply(size, s, st).lh| <= Most(cap)
  {
    hide Budget, Ops;
    var used, b := s.procs[st.p].used, s.procs[st.p].b;
    SumUpdate(cap, s.procs, st.p, In(used + {b}));
    var s' := Apply(size, s, st);
    assert InOp(s.procs[st.p]) && InOp(s'.procs[st.p]);
    if b in used {
      assert used + {b} == used;
    } else {
      assert |used + {b}| == |used| + 1;
    }
    forall i | 0 <= i < |s'.procs| && InOp(s'.procs[i])
      ensures forall c :: c in s'.procs[i].used ==> c in s'.lh
    {
      forall c | c in s'.procs[i].used ensures c in s'.lh {
        if i == st.p && c == b {
          assert b in s'.lh;
        } else {
          assert c in s.procs[i].used;
        }
      }
    }
    SumBounds(cap, s'.procs, st.p);
  }

  lemma EndStep(cap: nat, size: nat, s: Log, st: Step)
    requires Inv(cap, s) && Enabled(cap, s, st) && st.End?
    ensures Inv(cap, Apply(size, s, st))
    ensures Apply(size, s, st).panic == NoPanic
  {
    hide Budget, Ops;
    var p := st.p;
    SumUpdate(cap, s.procs, p, Committing(false));
    SumUpdate(cap, s.procs, p, Out);
    SumBounds(cap, s.procs, p);
    SumWake(cap, s.procs[p := Out]);
    var s' := Apply(size, s, st);
    if s.outstanding == 1 {
      assert s'.procs[p].Committing?;
    }
  }

  lemma CommitterStep(cap: nat, size: nat, s: Log, st: Step)
    requires Inv(cap, s) && Enabled(cap, s, st) && (st.Erase? || st.Done?)
    ensures Inv(cap, Apply(size, s, st))
  {
    hide Budget, Ops;
    var p := st.p;
    SumUpdate(cap, s.procs, p, Committing(true));
    SumUpdate(cap, s.procs, p, Out);
    SumWake(cap, s.procs[p := Out]);
    var s' := Apply(size, s, st);
    forall i | 0 <= i < |s.procs| ensures !InOp(s.procs[i]) {
      SumBounds(cap, s.procs, i);
    }
    if st.Erase? {
      assert s'.procs[p].Committing?;
    } else {
      forall i | 0 <= i < |s'.procs| ensures !s'.procs[i].Committing? {
        if i != p {
          assert i < p || p < i;
        }
      }
    }
  }

  lemma StepInv(cap: nat, size: nat, s: Log, st: Step)
    requires Inv(cap, s) && Enabled(cap, s, st)
    ensures Inv(cap, Apply(size, s, st))
  {
    match st
    case Begin(_) => BeginStep(cap, size, s, st);
    case Check(_, _) => CheckStep(cap, size, s, st);
    case Append(_) => AppendStep(cap, size, s, st);
    case End(_) => EndStep(cap, size, s, st);
    case Erase(_) => CommitterStep(cap, size, s, st);
    case Done(_) => CommitterStep(cap, size, s, st);
  }

  // ---- Runs ----

  /** The state after some steps, all of them possible in turn. */
  ghost predicate Reaches(cap: nat, size: nat, s: Log, sts: seq<Step>, t: Log)
    decreases |sts|
  {
    if sts == [] then s == t
    else Enabled(cap, s, sts[0]) && Reaches(cap, size, Apply(size, s, sts[0]), sts[1..], t)
  }

  ghost predicate Reachable(cap: nat, size: nat, t: Log) {
    exists s, sts :: Init(s) && Reaches(cap, size, s, sts, t)
  }

  lemma {:induction false} ReachesInv(cap: nat, size: nat, s: Log, sts: seq<Step>, t: Log)
    requires Inv(cap, s) && Reaches(cap, size, s, sts, t)
    ensures Inv(cap, t)
    decreases |sts|
  {
    if sts != [] {
      StepInv(cap, size, s, sts[0]);
      ReachesInv(cap, size, Apply(size, s, sts[0]), sts[1..], t);
    }
  }

  /** In every reachable state: the transaction is bounded, a commit runs alone, logged block numbers
      are distinct, and a process asleep on &log has someone left to wake it. */
  lemma Safety(cap: nat, size: nat, t: Log)
    requires Reachable(cap, size, t)
    ensures |t.lh| + Budget(cap, t.procs) <= Most(cap)
    ensures t.committing ==> t.outstanding == 0 && Ops(t.procs) == 0
    ensures t.panic != CommittingSet && t.panic != OutsideTrans
    ensures forall i, j :: 0 <= i < j < |t.lh| ==> t.lh[i] != t.lh[j]
    ensures forall i :: 0 <= i < |t.procs| && t.procs[i].Waiting? ==> t.committing || t.outstanding > 0
    ensures forall i :: 0 <= i < |t.procs| && t.procs[i].Waiting? ==> !Admits(t)
  {
    var s, sts :| Init(s) && Reaches(cap, size, s, sts, t);
    InitInv(cap, s);
    ReachesInv(cap, size, s, sts, t);
  }

  /** What is logged and what the open operations may still log fits the log. */
  ghost predicate Reserved(cap: nat, t: Log) {
    |t.lh| + Budget(cap, t.procs) <= LOGSIZE
  }

  /** begin_op's reservation holds in every reachable state exactly when no operation logs more than
      MAXOPBLOCKS blocks. */
  lemma ReservationIff(cap: nat, size: nat)
    ensures (forall t :: Reachable(cap, size, t) ==> Reserved(cap, t)) <==> cap <= MAXOPBLOCKS
  {
    if cap <= MAXOPBLOCKS {
      forall t | Reachable(cap, size, t) ensures Reserved(cap, t) {
        Safety(cap, size, t);
      }
    } else {
      FilledStart(cap, size);
      var t := Filled(0);
      assert t.procs == [In({}), In({}), In({})];
      assert t.procs[1..] == [In({}), In({})] && t.procs[1..][1..] == [In({})];
      assert Budget(cap, [In({})]) == cap && Budget(cap, [In({}), In({})]) == 2 * cap;
      assert !Reserved(cap, t);
    }
  }

  // ---- When "too big a transaction" can happen ----

  /** A write of a block the operation has not logged yet panics in some reachable state. */
  ghost predicate FreshWritePanics(cap: nat, size: nat) {
    exists s, p, b :: FreshPanicAt(cap, size, s, p, b)
  }

  ghost predicate FreshPanicAt(cap: nat, size: nat, s: Log, p: nat, b: int) {
    && Reachable(cap, size, s)
    && Enabled(cap, s, Check(p, b))
    && b !in s.procs[p].used
    && Apply(size, s, Check(p, b)).panic == TooBig
  }

  lemma {:induction false} ReachesThen(cap: nat, size: nat, s: Log, sts: seq<Step>, t: Log, st: Step)
    requires Reaches(cap, size, s, sts, t) && Enabled(cap, t, st)
    ensures Reaches(cap, size, s, sts + [st], Apply(size, t, st))
    decreases |sts|
  {
    if sts != [] {
      assert (sts + [st])[1..] == sts[1..] + [st];
      ReachesThen(cap, size, Apply(size, s, sts[0]), sts[1..], t, st);
    } else {
      assert ([] + [st])[1..] == [];
    }
  }

  lemma ReachableThen(cap: nat, size: nat, t: Log, st: Step)
    requires Reachable(cap, size, t) && Enabled(cap, t, st)
    ensures Reachable(cap, size, Apply(size, t, st))
  {
    var s, sts :| Init(s) && Reaches(cap, size, s, sts, t);
    ReachesThen(cap, size, s, sts, t, st);
  }

  /** The blocks lo..lo+10 below k. */
  function Range(lo: int, k: int): (r: set<int>)
    ensures forall b :: b in r <==> lo <= b < lo + 10 && b < k
    ensures |r| == (if k <= lo then 0 else if k < lo + 10 then k - lo else 10)
    decreases if k > lo then k - lo else 0
  {
    if k <= lo then {}
    else if k > lo + 10 then Range(lo, lo + 10)
    else Range(lo, k - 1) + {k - 1}
  }

  /** Three operations that between them have logged blocks 0..k, ten each. */
  function Filled(k: nat): Log {
    Log(seq(3, p => In(Range(p * 10, k))), seq(k, i => i), 3, false, NoPanic)
  }

  lemma FilledStart(cap: nat, size: nat)
    ensures Reachable(cap, size, Filled(0))
  {
    var s := Log(seq(3, i => Out), [], 0, false, NoPanic);
    assert s.procs == [Out, Out, Out];
    assert Init(s) && Reaches(cap, size, s, [], s);
    assert Reachable(cap, size, s);
    ReachableThen(cap, size, s, Begin(0));
    var s1 := Log([In({}), Out, Out], [], 1, false, NoPanic);
    assert Apply(size, s, Begin(0)) == s1;
    ReachableThen(cap, size, s1, Begin(1));
    var s2 := Log([In({}), In({}), Out], [], 2, false, NoPanic);
    assert Apply(size, s1, Begin(1)) == s2;
    ReachableThen(cap, size, s2, Begin(2));
    assert Filled(0).procs == [In({}), In({}), In({})];
    assert Apply(size, s2, Begin(2)) == Filled(0);
  }

  /** The next block is logged by the operation it falls to. */
  lemma FilledCheck(cap: nat, k: nat)
    requires k < LOGSIZE && cap >= MAXOPBLOCKS
    ensures Enabled(cap, Filled(k), Check(k / 10, k)) && k !in Filled(k).procs[k / 10].used
  {
    assert Range(k / 10 * 10, k) + {k} == Range(k / 10 * 10, k + 1);
  }

  lemma FilledProcs(k: nat, q: nat)
    requires k < LOGSIZE && q < 3
    ensures Range(q * 10, k + 1) == Range(q * 10, k) + (if q == k / 10 then {k} else {})
  {
  }

  lemma FilledList(k: nat)
    ensures Absorb(Filled(k).lh, k) == Filled(k + 1).lh
  {
    assert forall i :: 0 <= i < k ==> Filled(k).lh[i] == i;
  }

  lemma FilledApply(cap: nat, size: nat, k: nat, u: Log)
    requires k < LOGSIZE && k + 1 < size
    requires u == Filled(k).(procs := Filled(k).procs[k / 10 := Checked(Range(k / 10 * 10, k), k)])
    ensures Enabled(cap, u, Append(k / 10)) && Apply(size, u, Append(k / 10)) == Filled(k + 1)
  {
    var t := Apply(size, u, Append(k / 10));
    forall q | 0 <= q < 3 ensures t.procs[q] == Filled(k + 1).procs[q] {
      FilledProcs(k, q);
    }
    assert t.procs == Filled(k + 1).procs;
    FilledList(k);
  }

  lemma FilledNext(cap: nat, size: nat, k: nat)
    requires cap >= MAXOPBLOCKS && k < LOGSIZE && k + 1 < size && Reachable(cap, size, Filled(k))
    ensures Reachable(cap, size, Filled(k + 1))
  {
    FilledCheck(cap, k);
    var u := Apply(size, Filled(k), Check(k / 10, k));
    ReachableThen(cap, size, Filled(k), Check(k / 10, k));
    FilledApply(cap, size, k, u);
    ReachableThen(cap, size, u, Append(k / 10));
  }

  lemma {:induction false} FilledReachable(cap: nat, size: nat, k: nat)
    requires cap >= MAXOPBLOCKS && k <= LOGSIZE && k < size
    ensures Reachable(cap, size, Filled(k))
  {
    if k == 0 {
      FilledStart(cap, size);
    } else {
      FilledReachable(cap, size, k - 1);
      FilledNext(cap, size, k - 1);
    }
  }

  /** Blocks 0..k are logged: the first MAXOPBLOCKS by operations that have ended, then cap by the second
      process, and the rest by the first, whose operation has been open all the time. */
  function Crowded(cap: nat, k: nat): Log {
    var full := MAXOPBLOCKS + cap;
    Log([In(Blocks(full, k)), In(Blocks(MAXOPBLOCKS, if k < full then k else full))], seq(k, i => i), 2, false, NoPanic)
  }

  function Blocks(lo: int, hi: int): (r: set<int>)
    ensures forall b :: b in r <==> lo <= b < hi
    ensures |r| == if hi <= lo then 0 else hi - lo
    decreases hi - lo
  {
    if hi <= lo then {} else Blocks(lo, hi - 1) + {hi - 1}
  }

  /** One operation is open, and others have logged k blocks and ended. */
  function Queued(k: nat): Log {
    Log([In({}), Out], seq(k, i => i), 1, false, NoPanic)
  }

  lemma ListNext(k: nat, l: seq<int>)
    requires l == seq(k, i => i)
    ensures Absorb(l, k) == seq(k + 1, i => i)
  {
    assert forall i :: 0 <= i < k ==> l[i] == i;
  }

  /** One more operation of one block. */
  lemma QueuedNext(cap: nat, size: nat, k: nat)
    requires 0 < cap && k < MAXOPBLOCKS && k + 1 < size && Reachable(cap, size, Queued(k))
    ensures Reachable(cap, size, Queued(k + 1))
  {
    var l, l' := Queued(k).lh, Queued(k + 1).lh;
    ListNext(k, l);
    ReachableThen(cap, size, Queued(k), Begin(1));
    var s1 := Log([In({}), In({})], l, 2, false, NoPanic);
    assert Apply(size, Queued(k), Begin(1)) == s1;
    assert {} + {k as int} == {k as int};
    ReachableThen(cap, size, s1, Check(1, k));
    var s2 := Log([In({}), Checked({}, k)], l, 2, false, NoPanic);
    assert Apply(size, s1, Check(1, k)) == s2;
    ReachableThen(cap, size, s2, Append(1));
    var s3 := Log([In({}), In({k as int})], l', 2, false, NoPanic);
    assert Apply(size, s2, Append(1)) == s3;
    ReachableThen(cap, size, s3, End(1));
    assert WakeAll([In({}), Out]) == [In({}), Out];
    assert Apply(size, s3, End(1)) == Queued(k + 1);
  }

  lemma {:induction false} QueuedReachable(cap: nat, size: nat, k: nat)
    requires 0 < cap && k <= MAXOPBLOCKS && (k == 0 || k < size)
    ensures Reachable(cap, size, Queued(k))
  {
    if k == 0 {
      var s := Log(seq(2, i => Out), [], 0, false, NoPanic);
      assert s.procs == [Out, Out];
      assert Init(s) && Reaches(cap, size, s, [], s);
      ReachableThen(cap, size, s, Begin(0));
      assert Apply(size, s, Begin(0)) == Queued(0);
    } else {
      QueuedReachable(cap, size, k - 1);
      QueuedNext(cap, size, k - 1);
    }
  }

  /** The process that logs block k, and what it has logged before. */
  lemma CrowdedCheck(cap: nat, k: nat, p: nat)
    requires MAXOPBLOCKS <= k < MAXOPBLOCKS + 2 * cap && p == if k < MAXOPBLOCKS + cap then 1 else 0
    ensures Enabled(cap, Crowded(cap, k), Check(p, k)) && k !in Crowded(cap, k).procs[p].used
    ensures Crowded(cap, k + 1).procs == Crowded(cap, k).procs[p := In(Crowded(cap, k).procs[p].used + {k})]
  {
    hide Blocks;
    var used := Crowded(cap, k).procs[p].used;
    assert |used + {k}| == |used| + 1;
    var full := MAXOPBLOCKS + cap;
    assert Blocks(full, k + 1) == Blocks(full, k) + (if p == 0 then {k} else {});
    assert p == 1 ==> Blocks(MAXOPBLOCKS, k + 1) == Blocks(MAXOPBLOCKS, k) + {k};
  }

  lemma CrowdedNext(cap: nat, size: nat, k: nat)
    requires 0 < cap <= MAXOPBLOCKS && MAXOPBLOCKS <= k < Most(cap) - 1 && k + 1 < size
    requires Reachable(cap, size, Crowded(cap, k))
    ensures Reachable(cap, size, Crowded(cap, k + 1))
  {
    var p := if k < MAXOPBLOCKS + cap then 1 else 0;
    var s := Crowded(cap, k);
    CrowdedCheck(cap, k, p);
    ListNext(k, s.lh);
    ReachableThen(cap, size, s, Check(p, k));
    var u := Apply(size, s, Check(p, k));
    ReachableThen(cap, size, u, Append(p));
    assert Apply(size, u, Append(p)).procs == Crowded(cap, k + 1).procs;
  }

  lemma {:induction false} CrowdedReachable(cap: nat, size: nat, k: nat)
    requires 0 < cap <= MAXOPBLOCKS && MAXOPBLOCKS <= k < Most(cap) && k < size
    ensures Reachable(cap, size, Crowded(cap, k))
  {
    hide Blocks, Reachable;
    if k == MAXOPBLOCKS {
      QueuedReachable(cap, size, k);
      ReachableThen(cap, size, Queued(k), Begin(1));
      assert Apply(size, Queued(k), Begin(1)).procs == Crowded(cap, k).procs;
    } else {
      CrowdedReachable(cap, size, k - 1);
      CrowdedNext(cap, size, k - 1);
    }
  }

  /** A log area that is not larger than a transaction can become refuses a first-time write. */
  lemma CrowdedPanics(cap: nat, size: nat)
    requires 0 < cap <= MAXOPBLOCKS && size <= Most(cap)
    ensures FreshWritePanics(cap, size)
  {
    var k := if size == 0 then 0 else size - 1;
    if k < MAXOPBLOCKS {
      QueuedReachable(cap, size, k);
      assert {} + {k as int} == {k as int};
      assert FreshPanicAt(cap, size, Queued(k), 0, k);
    } else {
      var p := if k < MAXOPBLOCKS + cap then 1 else 0;
      CrowdedReachable(cap, size, k);
      CrowdedCheck(cap, k, p);
      assert FreshPanicAt(cap, size, Crowded(cap, k), p, k);
    }
  }

  lemma FullCheck(cap: nat, k: nat)
    requires cap > MAXOPBLOCKS && k >= LOGSIZE
    ensures Enabled(cap, Filled(k), Check(0, k)) && k !in Filled(k).procs[0].used
  {
    hide Range;
    var used := Range(0, k);
    assert Filled(k).procs[0] == In(used) && |used + {k}| == |used| + 1;
  }

  /** Operations that may log more than MAXOPBLOCKS blocks see one refused, however large the log area. */
  lemma GreedyPanics(cap: nat, size: nat)
    requires cap > MAXOPBLOCKS && size > 0
    ensures FreshWritePanics(cap, size)
  {
    hide Range, Reachable;
    var k := if size > LOGSIZE then LOGSIZE else size - 1;
    FilledReachable(cap, size, k);
    if k < LOGSIZE {
      FilledCheck(cap, k);
      assert FreshPanicAt(cap, size, Filled(k), k / 10, k);
    } else {
      FullCheck(cap, k);
      assert FreshPanicAt(cap, size, Filled(k), 0, k);
    }
  }

  /** Operations that each log at most cap distinct blocks never see a first-time write refused, exactly
      when cap is at most MAXOPBLOCKS and the log area has more than MAXOPBLOCKS + 2 * cap blocks.  mkfs
      makes it LOGSIZE blocks long, enough for operations of one block less than begin_op reserves. */
  lemma FreshWritesFit(cap: nat, size: nat)
    requires size > 0 && cap > 0
    ensures !FreshWritePanics(cap, size) <==> cap <= MAXOPBLOCKS && size > MAXOPBLOCKS + 2 * cap
    ensures !FreshWritePanics(cap, LOGSIZE) <==> cap < MAXOPBLOCKS
  {
    FreshFits(cap, size);
    FreshFits(cap, LOGSIZE);
  }

  lemma FreshFits(cap: nat, size: nat)
    requires size > 0 && cap > 0
    ensures !FreshWritePanics(cap, size) <==> cap <= MAXOPBLOCKS && size > Most(cap)
  {
    if cap > MAXOPBLOCKS {
      GreedyPanics(cap, size);
    } else if size <= Most(cap) {
      CrowdedPanics(cap, size);
    } else {
      forall s, p: nat, b | Reachable(cap, size, s) && Enabled(cap, s, Check(p, b)) && b !in s.procs[p].used
        ensures Apply(size, s, Check(p, b)).panic != TooBig
      {
        var i, sts :| Init(i) && Reaches(cap, size, i, sts, s);
        InitInv(cap, i);
        ReachesInv(cap, size, i, sts, s);
        CheckStep(cap, size, s, Check(p, b));
      }
      assert !FreshWritePanics(cap, size);
    }
  }

  /** A repeated write meets the panic test before it is recognised as one: when three operations
      between them have filled the log, rewriting a block already in it panics, however large or small
      the log area is. */
  lemma RepeatedWritePanics(size: nat, k: nat)
    requires size > 1 && k == if size > LOGSIZE then LOGSIZE else size - 1
    ensures Reachable(MAXOPBLOCKS, size, Filled(k))
    ensures Enabled(MAXOPBLOCKS, Filled(k), Check(0, 0)) && 0 in Filled(k).procs[0].used && 0 in Filled(k).lh
    ensures Apply(size, Filled(k), Check(0, 0)).panic == TooBig
  {
    hide Range, Reachable;
    FilledReachable(MAXOPBLOCKS, size, k);
    assert Filled(k).procs[0] == In(Range(0, k));
    assert Range(0, k) + {0} == Range(0, k);
    assert Filled(k).lh[0] == 0;
  }

  /** In some reachable state a write, of a new block or of one logged before, is refused to an
      operation that has logged at most m blocks. */
  ghost predicate Refused(size: nat, m: nat) {
    exists s, p, b :: RefusedAt(size, s, p, b, m)
  }

  ghost predicate RefusedAt(size: nat, s: Log, p: nat, b: int, m: nat) {
    && Reachable(MAXOPBLOCKS, size, s)
    && Enabled(MAXOPBLOCKS, s, Check(p, b))
    && |s.procs[p].used| <= m
    && Apply(size, s, Check(p, b)).panic == TooBig
  }

  /** No write of an operation that has logged at most m blocks is refused, exactly when it has not
      used up its allowance and the log area holds what two full operations and this one can log,
      with the header and one block to spare. */
  lemma WritesFit(size: nat, m: nat)
    requires size > 0 && m <= MAXOPBLOCKS
    ensures !Refused(size, m) <==> m < MAXOPBLOCKS && size > LOGSIZE - MAXOPBLOCKS + m + 1
  {
    if m < MAXOPBLOCKS && size > LOGSIZE - MAXOPBLOCKS + m + 1 {
      forall s, p: nat, b
        | Reachable(MAXOPBLOCKS, size, s) && Enabled(MAXOPBLOCKS, s, Check(p, b)) && |s.procs[p].used| <= m
        ensures Apply(size, s, Check(p, b)).panic != TooBig
      {
        RoomLeft(size, s, p, b);
      }
      assert !Refused(size, m);
    } else {
      var k := if 20 + m < size then 20 + m else size - 1;
      FilledReachable(MAXOPBLOCKS, size, k);
      LastOperation(k);
      assert RefusedAt(size, Filled(k), 2, 20, m);
    }
  }

  /** What the other operations may still log is reserved for them. */
  lemma RoomLeft(size: nat, s: Log, p: nat, b: int)
    requires Reachable(MAXOPBLOCKS, size, s) && Enabled(MAXOPBLOCKS, s, Check(p, b))
    ensures |s.lh| <= LOGSIZE - MAXOPBLOCKS + |s.procs[p].used|
  {
    var i, sts :| Init(i) && Reaches(MAXOPBLOCKS, size, i, sts, s);
    InitInv(MAXOPBLOCKS, i);
    ReachesInv(MAXOPBLOCKS, size, i, sts, s);
    hide Budget, Ops;
    SumBounds(MAXOPBLOCKS, s.procs, p);
  }

  /** The third of the operations that fill the log may still write block 20. */
  lemma LastOperation(k: nat)
    requires k <= LOGSIZE
    ensures Enabled(MAXOPBLOCKS, Filled(k), Check(2, 20)) && |Filled(k).procs[2].used| == if k <= 20 then 0 else k - 20
  {
    assert Filled(k).procs[2] == In(Range(20, k));
    if k > 20 {
      assert Range(20, k) + {20} == Range(20, k);
    }
  }
}
