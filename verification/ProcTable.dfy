/** The process table and the loops proc.c runs over it with ptable.lock held. */
module ProcTable {

  datatype PState = UNUSED | EMBRYO | SLEEPING | RUNNABLE | RUNNING | ZOMBIE

  /** What a sleeping process waits for: nothing, a process slot (as wait does), or anything else. */
  datatype Chan = NoChan | Slot(p: int) | Other(k: nat)

  /** What a process is in the middle of, over and above running: a fork of slot `child`. */
  datatype Act = Plain | Forking(child: nat, stage: nat)

  /** Where the process continues when it is switched in. */
  datatype Pc = Normal | Forkret | InYield | InSleep | InWait | Dying

  /** kstack is the number of the page that holds the kernel stack, 0 for none; parent is a slot
      number, -1 for none. */
  datatype Proc = Proc(state: PState, pid: int, parent: int, kstack: nat, chan: Chan, killed: bool, act: Act, pc: Pc)

  // ---- What the scans compute ----

  /** The first slot from i on that satisfies want, or the length of the table. */
  function Find(t: seq<Proc>, i: nat, want: Proc -> bool): (r: nat)
    requires i <= |t|
    ensures i <= r <= |t|
    ensures forall j :: i <= j < r ==> !want(t[j])
    ensures r < |t| ==> want(t[r])
    decreases |t| - i
  {
    if i == |t| || want(t[i]) then i else Find(t, i + 1, want)
  }

  function Woken(p: Proc, chan: Chan): Proc {
    if p.state == SLEEPING && p.chan == chan then p.(state := RUNNABLE) else p
  }

  /** wakeup1: every sleeper on chan becomes runnable; nothing else changes. */
  function WakeAll(t: seq<Proc>, chan: Chan): (r: seq<Proc>)
    ensures |r| == |t| && forall i :: 0 <= i < |t| ==> r[i] == Woken(t[i], chan)
  {
    seq(|t|, i requires 0 <= i < |t| => Woken(t[i], chan))
  }

  predicate HasZombieChild(t: seq<Proc>, p: nat) {
    exists j :: 0 <= j < |t| && t[j].parent == p && t[j].state == ZOMBIE
  }

  /** Slot i after process p has exited: p's parent is woken, p's children go to init, and init is
      woken if one of them is a zombie. */
  function ExitSlot(t: seq<Proc>, p: nat, init: nat, i: nat): Proc
    requires p < |t| && i < |t|
  {
    var woken := Woken(t[i], Slot(t[p].parent));
    var moved := if HasZombieChild(t, p) then Woken(woken, Slot(init)) else woken;
    var adopted := if t[i].parent == p then moved.(parent := init) else moved;
    if i == p then adopted.(state := ZOMBIE) else adopted
  }

  function ExitTable(t: seq<Proc>, p: nat, init: nat): (r: seq<Proc>)
    requires p < |t|
    ensures |r| == |t| && forall i :: 0 <= i < |t| ==> r[i] == ExitSlot(t, p, init, i)
  {
    seq(|t|, i requires 0 <= i < |t| => ExitSlot(t, p, init, i))
  }

  function ZombieChildOf(p: nat): Proc -> bool {
    (x: Proc) => x.parent == p && x.state == ZOMBIE
  }

  function ChildOf(p: nat): Proc -> bool {
    (x: Proc) => x.parent == p
  }

  function Unused(): Proc -> bool {
    (x: Proc) => x.state == UNUSED
  }

  function WithPid(pid: int): Proc -> bool {
    (x: Proc) => x.pid == pid
  }

  /** The slot of a reaped zombie. */
  function Reaped(p: Proc): Proc {
    p.(kstack := 0, state := UNUSED, pid := 0, parent := -1, killed := false)
  }

  function Killed(p: Proc): Proc {
    p.(killed := true, state := if p.state == SLEEPING then RUNNABLE else p.state)
  }

  datatype WaitResult = Found(slot: nat) | NoChildren | MustSleep

  /** What one pass of wait decides. */
  function WaitScan(t: seq<Proc>, p: nat): WaitResult
    requires p < |t|
  {
    var z := Find(t, 0, ZombieChildOf(p));
    if z < |t| then Found(z)
    else if Find(t, 0, ChildOf(p)) == |t| || t[p].killed then NoChildren
    else MustSleep
  }

  /** wait finds the first zombie child; it gives up exactly if there is none and the process has no
      child at all or has been killed; otherwise it has to sleep. */
  lemma WaitDecides(t: seq<Proc>, p: nat)
    requires p < |t|
    ensures var r := WaitScan(t, p);
            && (r.Found? <==> HasZombieChild(t, p))
            && (r.Found? ==> r.slot < |t| && FirstZombieChild(t, p, r.slot))
            && (r == NoChildren <==> !HasZombieChild(t, p) && (t[p].killed || !HasChild(t, p)))
            && (r == MustSleep <==> !HasZombieChild(t, p) && !t[p].killed && HasChild(t, p))
  {
    var z, k := Find(t, 0, ZombieChildOf(p)), Find(t, 0, ChildOf(p));
    assert z < |t| ==> t[z].parent == p && t[z].state == ZOMBIE;
    assert k < |t| ==> t[k].parent == p;
    assert forall j :: 0 <= j < z ==> !ZombieChildOf(p)(t[j]);
    assert forall j :: 0 <= j < k ==> !ChildOf(p)(t[j]);
  }

  predicate HasChild(t: seq<Proc>, p: nat) {
    exists j :: 0 <= j < |t| && t[j].parent == p
  }

  predicate FirstZombieChild(t: seq<Proc>, p: nat, z: nat)
    requires z < |t|
  {
    && t[z].parent == p && t[z].state == ZOMBIE
    && forall j :: 0 <= j < z ==> !(t[j].parent == p && t[j].state == ZOMBIE)
  }

  /** Slot i is the first with that pid. */
  predicate FirstWithPid(t: seq<Proc>, pid: int, i: nat)
    requires i < |t|
  {
    t[i].pid == pid && forall j :: 0 <= j < i ==> t[j].pid != pid
  }

  // ---- The loops ----

  class Table {
    var proc: seq<Proc>

    constructor (t: seq<Proc>)
      ensures proc == t
    {
      proc := t;
    }

    method Wakeup1(chan: Chan)
      modifies this
      ensures proc == WakeAll(old(proc), chan)
      ensures |proc| == |old(proc)| && forall i :: 0 <= i < |proc| ==> proc[i] == old(proc)[i].(state := proc[i].state)
      ensures forall i :: 0 <= i < |proc| ==>
                proc[i].state == if old(proc)[i].state == SLEEPING && old(proc)[i].chan == chan then RUNNABLE
                                 else old(proc)[i].state
    {
      var i := 0;
      while i < |proc|
        invariant 0 <= i <= |proc| == |old(proc)|
        invariant forall j :: 0 <= j < i ==> proc[j] == Woken(old(proc)[j], chan)
        invariant forall j :: i <= j < |proc| ==> proc[j] == old(proc)[j]
      {
        if proc[i].state == SLEEPING && proc[i].chan == chan {
          proc := proc[i := proc[i].(state := RUNNABLE)];
        }
        i := i + 1;
      }
    }

    /** exit's work on the table, from wakeup1(proc->parent) to proc->state = ZOMBIE. */
    method Exit(p: nat, init: nat)
      requires p < |proc|
      modifies this
      ensures proc == ExitTable(old(proc), p, init)
      ensures |proc| == |old(proc)| && proc[p].state == ZOMBIE
      ensures forall i :: 0 <= i < |proc| ==> proc[i] == old(proc)[i].(state := proc[i].state, parent := proc[i].parent)
      ensures forall i :: 0 <= i < |proc| ==>
                proc[i].parent == if old(proc)[i].parent == p then init else old(proc)[i].parent
      ensures forall i :: 0 <= i < |proc| && i != p ==>
                var x := old(proc)[i];
                proc[i].state == if x.state == SLEEPING
                                    && (x.chan == Slot(old(proc)[p].parent)
                                        || (x.chan == Slot(init) && HasZombieChild(old(proc), p)))
                                 then RUNNABLE else x.state
    {
      ghost var t := proc;
      Wakeup1(Slot(proc[p].parent));
      ghost var seen := false;
      var i := 0;
      while i < |proc|
        invariant 0 <= i <= |proc| == |t|
        invariant seen <==> exists j :: 0 <= j < i && t[j].parent == p && t[j].state == ZOMBIE
        invariant forall j :: 0 <= j < |t| ==> proc[j] == Partial(t, p, init, j, i, seen)
      {
        if proc[i].parent == p {
          proc := proc[i := proc[i].(parent := init)];
          if proc[i].state == ZOMBIE {
            Wakeup1(Slot(init));
            seen := true;
          }
        }
        i := i + 1;
      }
      proc := proc[p := proc[p].(state := ZOMBIE)];
    }

    /** wait's scan of the table. */
    method Wait(p: nat) returns (r: WaitResult)
      requires p < |proc|
      ensures r == WaitScan(proc, p)
      ensures r.Found? <==> HasZombieChild(proc, p)
      ensures r.Found? ==> r.slot < |proc| && FirstZombieChild(proc, p, r.slot)
      ensures r == NoChildren <==> !HasZombieChild(proc, p) && (proc[p].killed || !HasChild(proc, p))
    {
      WaitDecides(proc, p);
      var havekids := false;
      var i := 0;
      while i < |proc|
        invariant 0 <= i <= |proc|
        invariant forall j :: 0 <= j < i ==> !ZombieChildOf(p)(proc[j])
        invariant havekids <==> exists j :: 0 <= j < i && ChildOf(p)(proc[j])
      {
        if proc[i].parent == p {
          havekids := true;
          if proc[i].state == ZOMBIE {
            return Found(i);
          }
        }
        i := i + 1;
      }
      if !havekids || proc[p].killed {
        return NoChildren;
      }
      return MustSleep;
    }

    /** allocproc's search; the slot becomes EMBRYO with a new pid. */
    method Alloc(pid: int) returns (q: nat)
      modifies this
      ensures q == Find(old(proc), 0, Unused())
      ensures q <= |old(proc)| && (q < |old(proc)| ==> old(proc)[q].state == UNUSED)
      ensures forall j :: 0 <= j < q ==> old(proc)[j].state != UNUSED
      ensures proc == if q < |old(proc)| then old(proc)[q := old(proc)[q].(state := EMBRYO, pid := pid)] else old(proc)
    {
      q := 0;
      while q < |proc|
        invariant 0 <= q <= |proc| && proc == old(proc)
        invariant forall j :: 0 <= j < q ==> !Unused()(proc[j])
      {
        if proc[q].state == UNUSED {
          proc := proc[q := proc[q].(state := EMBRYO, pid := pid)];
          return;
        }
        q := q + 1;
      }
    }

    method Kill(pid: int) returns (ok: bool)
      modifies this
      ensures var q := Find(old(proc), 0, WithPid(pid));
              && ok == (q < |old(proc)|)
              && proc == if ok then old(proc)[q := Killed(old(proc)[q])] else old(proc)
      ensures ok <==> exists i :: 0 <= i < |old(proc)| && old(proc)[i].pid == pid
      ensures |proc| == |old(proc)| && forall i :: 0 <= i < |proc| ==>
                var x := old(proc)[i];
                proc[i] == if FirstWithPid(old(proc), pid, i)
                           then x.(killed := true, state := if x.state == SLEEPING then RUNNABLE else x.state) else x
    {
      var i := 0;
      while i < |proc|
        invariant 0 <= i <= |proc| && proc == old(proc)
        invariant forall j :: 0 <= j < i ==> !WithPid(pid)(proc[j])
      {
        if proc[i].pid == pid {
          proc := proc[i := proc[i].(killed := true)];
          if proc[i].state == SLEEPING {
            proc := proc[i := proc[i].(state := RUNNABLE)];
          }
          return true;
        }
        i := i + 1;
      }
      return false;
    }
  }

  /** Slot j when exit's second loop has passed i slots. */
  function Partial(t: seq<Proc>, p: nat, init: nat, j: nat, i: nat, seen: bool): Proc
    requires p < |t| && j < |t|
  {
    var woken := Woken(t[j], Slot(t[p].parent));
    var moved := if seen then Woken(woken, Slot(init)) else woken;
    if j < i && t[j].parent == p then moved.(parent := init) else moved
  }
}
