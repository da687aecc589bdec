/** The disk driver's request queue (ide.c) against the synchronous in-memory driver (memide.c).
    One device, error-free.  `Submit` is iderw up to its wait, `Interrupt` is the device finishing its
    command followed by ideintr.  A process holds the buffers it works on, and changes and submits
    only those; while it waits in iderw it does neither. */
module Ide {

  type Block = seq<int>

  datatype Buf = Buf(blockno: nat, data: Block, valid: bool, dirty: bool, busy: bool)

  /** The command the device is working on; a write carries its data. */
  datatype Command = Idle | Read(blockno: nat) | Write(blockno: nat, data: Block)

  const NIL := -1

  // ---- memide's iderw ----

  /** What memide's iderw leaves on the disk and in the buffer. */
  function SyncDisk(disk: seq<Block>, b: Buf): seq<Block> {
    if b.dirty && b.blockno < |disk| then disk[b.blockno := b.data] else disk
  }

  function SyncBuf(disk: seq<Block>, b: Buf): Buf
    requires b.blockno < |disk|
  {
    if b.dirty then b.(dirty := false, valid := true) else b.(data := disk[b.blockno], valid := true)
  }

  /** The disk after memide's iderw has been called on each request in turn. */
  function SyncAll(disk: seq<Block>, reqs: seq<Buf>): seq<Block> {
    if reqs == [] then disk else SyncDisk(SyncAll(disk, reqs[..|reqs| - 1]), reqs[|reqs| - 1])
  }

  lemma SyncAllMore(disk: seq<Block>, reqs: seq<Buf>, b: Buf)
    ensures SyncAll(disk, reqs + [b]) == SyncDisk(SyncAll(disk, reqs), b)
  {
    assert (reqs + [b])[..|reqs|] == reqs;
  }

  lemma {:induction false} SyncAllSize(disk: seq<Block>, reqs: seq<Buf>)
    ensures |SyncAll(disk, reqs)| == |disk|
    decreases |reqs|
  {
    if reqs != [] {
      SyncAllSize(disk, reqs[..|reqs| - 1]);
    }
  }

  // ---- What a disk is ----

  /** Request m is the last write of block k. */
  ghost predicate LastWrite(reqs: seq<Buf>, k: nat, m: nat) {
    && m < |reqs| && reqs[m].dirty && reqs[m].blockno == k
    && forall i :: m < i < |reqs| ==> !(reqs[i].dirty && reqs[i].blockno == k)
  }

  /** x is what block k holds after these requests: the data of the last write to it, or what was there at
      the start. */
  ghost predicate IsLatest(disk0: seq<Block>, reqs: seq<Buf>, k: nat, x: Block) {
    || (exists m: nat :: LastWrite(reqs, k, m) && reqs[m].data == x)
    || (k < |disk0| && disk0[k] == x && forall i :: 0 <= i < |reqs| ==> !(reqs[i].dirty && reqs[i].blockno == k))
  }

  lemma {:induction false} SyncAllLatest(disk0: seq<Block>, reqs: seq<Buf>, k: nat)
    requires k < |disk0|
    ensures |SyncAll(disk0, reqs)| == |disk0| && IsLatest(disk0, reqs, k, SyncAll(disk0, reqs)[k])
    decreases |reqs|
  {
    SyncAllSize(disk0, reqs);
    if reqs != [] {
      var n := |reqs| - 1;
      var front := reqs[..n];
      SyncAllLatest(disk0, front, k);
      var x := SyncAll(disk0, front)[k];
      if reqs[n].dirty && reqs[n].blockno == k {
        assert LastWrite(reqs, k, n);
      } else if exists m: nat :: LastWrite(front, k, m) && front[m].data == x {
        var m: nat :| LastWrite(front, k, m) && front[m].data == x;
        assert LastWrite(reqs, k, m);
      } else {
        assert forall i :: 0 <= i < n ==> reqs[i] == front[i];
      }
    }
  }

  /** Request i came back valid and clean, a write with its own data and a read with what its block held. */
  ghost predicate AnswerOk(disk0: seq<Block>, served: seq<Buf>, answers: seq<Buf>, i: nat)
    requires i < |served| && i < |answers|
  {
    var x, y := served[i], answers[i];
    && y == x.(valid := true, dirty := false, data := y.data)
    && if x.dirty then y.data == x.data else IsLatest(disk0, served[..i], x.blockno, y.data)
  }

  ghost predicate Answered(disk0: seq<Block>, served: seq<Buf>, answers: seq<Buf>) {
    |answers| == |served| && forall i :: 0 <= i < |served| ==> AnswerOk(disk0, served, answers, i)
  }

  lemma MoreAnswered(disk: seq<Block>, disk0: seq<Block>, served: seq<Buf>, answers: seq<Buf>, x: Buf)
    requires Served(disk, disk0, served) && Answered(disk0, served, answers) && x.blockno < |disk0|
    ensures |disk| == |disk0| && Answered(disk0, served + [x], answers + [SyncBuf(disk, x)])
  {
    SyncAllLatest(disk0, served, x.blockno);
    var served', answers' := served + [x], answers + [SyncBuf(disk, x)];
    forall i | 0 <= i < |served'| ensures AnswerOk(disk0, served', answers', i) {
      assert served'[..i] == served[..i];
      if i < |served| {
        assert AnswerOk(disk0, served, answers, i);
      } else {
        assert served[..i] == served;
      }
    }
  }

  // ---- The queue ----

  /** head and qnext spell out the queue. */
  ghost predicate Queued(head: int, qnext: seq<int>, queue: seq<nat>) {
    && (forall i :: 0 <= i < |queue| ==> queue[i] < |qnext|)
    && head == (if queue == [] then NIL else queue[0])
    && (forall i :: 0 <= i < |queue| ==> qnext[queue[i]] == After(queue, i))
    && (forall i, j {:trigger Differ(queue, i, j)} :: 0 <= i < j < |queue| ==> Differ(queue, i, j))
  }

  predicate Differ(queue: seq<nat>, i: nat, j: nat)
    requires i < |queue| && j < |queue|
  {
    queue[i] != queue[j]
  }

  function After(queue: seq<nat>, i: nat): int
    requires i < |queue|
  {
    if i + 1 < |queue| then queue[i + 1] else NIL
  }

  /** The command that serves buffer b. */
  function CommandFor(b: Buf): Command {
    if b.dirty then Write(b.blockno, b.data) else Read(b.blockno)
  }

  predicate NeedsService(b: Buf) {
    b.busy && !(b.valid && !b.dirty)
  }

  /** The buffer of each waiting request is as it was submitted. */
  ghost predicate Waiting(bufs: seq<Buf>, queue: seq<nat>, asked: seq<Buf>, nblocks: nat) {
    && |asked| == |queue|
    && (forall i :: 0 <= i < |queue| ==> queue[i] < |bufs| && bufs[queue[i]] == asked[i])
    && (forall i :: 0 <= i < |asked| ==> NeedsService(asked[i]) && asked[i].blockno < nblocks)
  }

  /** The disk is what memide's would be after the completed requests. */
  ghost predicate Served(disk: seq<Block>, disk0: seq<Block>, served: seq<Buf>) {
    disk == SyncAll(disk0, served)
  }

  /** The device works on the head of the queue. */
  ghost predicate Working(device: Command, bufs: seq<Buf>, queue: seq<nat>) {
    if queue == [] then device == Idle else queue[0] < |bufs| && device == CommandFor(bufs[queue[0]])
  }

  /** Different requests in the queue are of different processes. */
  predicate Apart(holder: seq<int>, queue: seq<nat>, i: nat, j: nat) {
    i < |queue| && j < |queue| && queue[i] < |holder| && queue[j] < |holder| && holder[queue[i]] != holder[queue[j]]
  }

  /** Busy buffers are held; the processes asleep are those that hold a queued buffer, one each. */
  ghost predicate Held(bufs: seq<Buf>, holder: seq<int>, queue: seq<nat>, asleep: set<int>) {
    && |holder| == |bufs|
    && (forall b :: 0 <= b < |bufs| ==> (bufs[b].busy <==> holder[b] != NIL))
    && (forall i :: 0 <= i < |queue| ==> queue[i] < |holder| && holder[queue[i]] in asleep)
    && (forall i, j {:trigger Apart(holder, queue, i, j)} :: 0 <= i < j < |queue| ==> Apart(holder, queue, i, j))
    && NIL !in asleep
    && (forall p :: p in asleep ==> exists i :: 0 <= i < |queue| && holder[queue[i]] == p)
  }

  /** What a caller can see: the buffers, the disk, the requests waiting, those made and finished so
      far, who holds the buffers and who waits. */
  datatype View = View(bufs: seq<Buf>, disk: seq<Block>, queue: seq<nat>, order: seq<nat>, finished: seq<nat>,
                       holder: seq<int>, asleep: set<int>)

  ghost predicate Submitted(v: View, v': View, p: nat, b: nat) {
    v' == v.(queue := v.queue + [b], order := v.order + [b], asleep := v.asleep + {p})
  }

  /** The request at the head of the queue has completed, with the effect of memide's iderw, and its
      process is awake. */
  ghost predicate Completed(v: View, v': View) {
    if v.queue == [] then v' == v
    else
      var b := v.queue[0];
      && b < |v.bufs| && v.bufs[b].blockno < |v.disk| && b < |v.holder|
      && v' == View(v.bufs[b := SyncBuf(v.disk, v.bufs[b])], SyncDisk(v.disk, v.bufs[b]), v.queue[1..], v.order,
                    v.finished + [b], v.holder, v.asleep - {v.holder[b]})
  }

  /** A request x has been served as y: a write has put its data on the disk, a read has brought the block's
      data; nothing else has changed. */
  ghost predicate Finished(x: Buf, disk: seq<Block>, y: Buf, disk': seq<Block>)
    requires x.blockno < |disk|
  {
    && disk' == (if x.dirty then disk[x.blockno := x.data] else disk)
    && y == x.(valid := true, dirty := false, data := if x.dirty then x.data else disk[x.blockno])
  }

  class Driver {
    var bufs: seq<Buf>
    var head: int                      // idequeue
    var qnext: seq<int>
    var disk: seq<Block>
    var device: Command
    var holder: seq<int>               // the process that has each buffer busy, or NIL
    var asleep: set<int>               // the processes waiting in iderw
    ghost const disk0: seq<Block>
    ghost var queue: seq<nat>
    ghost var asked: seq<Buf>          // the buffers in the queue, as submitted
    ghost var served: seq<Buf>         // the completed requests, as submitted, in order of completion
    ghost var answers: seq<Buf>        // the same, as they came back
    ghost var order: seq<nat>          // every buffer ever submitted, in order of submission
    ghost var finished: seq<nat>       // those completed, in order of completion

    /** The queue, the disk and the history fit together. */
    ghost predicate Stocked()
      reads this
    {
      && |qnext| == |bufs| == |holder| && Queued(head, qnext, queue) && Waiting(bufs, queue, asked, |disk0|)
      && Served(disk, disk0, served) && Answered(disk0, served, answers) && Held(bufs, holder, queue, asleep)
      // first come, first served
      && order == finished + queue
    }

    ghost predicate Valid()
      reads this
    {
      Stocked() && Working(device, bufs, queue)
    }

    ghost function Now(): View
      reads this
    {
      View(bufs, disk, queue, order, finished, holder, asleep)
    }

    constructor (bufs: seq<Buf>, disk: seq<Block>)
      requires forall b :: 0 <= b < |bufs| ==> !bufs[b].busy
      ensures Valid() && this.bufs == bufs && this.disk == disk && queue == [] && asleep == {}
      ensures forall b :: 0 <= b < |bufs| ==> holder[b] == NIL
    {
      this.bufs := bufs;
      this.disk := disk;
      head := NIL;
      qnext := seq(|bufs|, i => NIL);
      device := Idle;
      holder := seq(|bufs|, i => NIL);
      asleep := {};
      disk0 := disk;
      queue, asked, served, answers, order, finished := [], [], [], [], [], [];
    }

    /** bget's claim of a buffer nobody holds. */
    method Acquire(p: nat, b: nat)
      requires Valid() && b < |bufs| && !bufs[b].busy && p !in asleep
      modifies this`bufs, this`holder
      ensures Valid() && Now() == old(Now()).(bufs := bufs, holder := holder)
      ensures bufs == old(bufs)[b := old(bufs)[b].(busy := true)] && holder == old(holder)[b := p]
    {
      hide Waiting, Queued, Served, Working, Held, Answered;
      Unheld(bufs, holder, queue, asleep, b);
      ClaimHeld(bufs, holder, queue, asleep, b, bufs[b].(busy := true), p);
      OtherBuf(bufs, queue, asked, |disk0|, device, b, bufs[b].(busy := true));
      bufs := bufs[b := bufs[b].(busy := true)];
      holder := holder[b := p];
    }

    /** The holder of a buffer changes it: new contents, another block, other flags. */
    method Modify(p: nat, b: nat, x: Buf)
      requires Valid() && b < |bufs| && bufs[b].busy && holder[b] == p && p !in asleep && x.busy
      modifies this`bufs
      ensures Valid() && Now() == old(Now()).(bufs := old(bufs)[b := x])
    {
      hide Waiting, Queued, Served, Working, Held, Answered;
      Unqueued(bufs, holder, queue, asleep, b);
      ClaimHeld(bufs, holder, queue, asleep, b, x, p);
      OtherBuf(bufs, queue, asked, |disk0|, device, b, x);
      assert holder[b := p] == holder;
      bufs := bufs[b := x];
    }

    /** brelse: the holder gives the buffer up. */
    method Release(p: nat, b: nat)
      requires Valid() && b < |bufs| && bufs[b].busy && holder[b] == p && p !in asleep
      modifies this`bufs, this`holder
      ensures Valid() && Now() == old(Now()).(bufs := bufs, holder := holder)
      ensures bufs == old(bufs)[b := old(bufs)[b].(busy := false)] && holder == old(holder)[b := NIL]
    {
      hide Waiting, Queued, Served, Working, Held, Answered;
      Unqueued(bufs, holder, queue, asleep, b);
      ClaimHeld(bufs, holder, queue, asleep, b, bufs[b].(busy := false), NIL);
      OtherBuf(bufs, queue, asked, |disk0|, device, b, bufs[b].(busy := false));
      bufs := bufs[b := bufs[b].(busy := false)];
      holder := holder[b := NIL];
    }

    /** iderw up to its wait: append b to the queue, start the device if it is idle, and sleep.  The
        buffer cannot be on the queue already, since its holder would be asleep. */
    method Submit(p: nat, b: nat)
      requires Valid() && b < |bufs| && NeedsService(bufs[b]) && bufs[b].blockno < |disk0|
      requires holder[b] == p && p !in asleep
      modifies this
      ensures Valid() && Submitted(old(Now()), Now(), p, b)
    {
      hide Waiting, Queued, Served, Working, Held, Answered;
      ghost var queue1, order1, asked1 := queue + [b], order + [b], asked + [bufs[b]];
      assert order1 == finished + queue1;
      Unqueued(bufs, holder, queue, asleep, b);
      SubmitHeld(bufs, holder, queue, asleep, p, b);
      MoreWaiting(bufs, queue, asked, |disk0|, b);
      MoreWorking(device, bufs, queue, b);
      Enqueue(b);
      asleep := asleep + {p};
      queue, order, asked := queue1, order1, asked1;
    }

    /** Link b in, and start the device if b is the only request. */
    method Enqueue(b: nat)
      requires Queued(head, qnext, queue) && b < |qnext| == |bufs| && b !in queue
      modifies this`head, this`qnext, this`device
      ensures Queued(head, qnext, queue + [b]) && |qnext| == |old(qnext)|
      ensures device == if queue == [] then CommandFor(bufs[b]) else old(device)
    {
      hide Queued, CommandFor;
      Append(b);
      if head == b {
        Start(b);
      }
    }

    /** The loop that finds the end of the list, and the link to b. */
    method Append(b: nat)
      requires Queued(head, qnext, queue) && b < |qnext| && b !in queue
      modifies this`head, this`qnext
      ensures Queued(head, qnext, queue + [b]) && |qnext| == |old(qnext)|
      ensures head == b <==> queue == []
    {
      qnext := qnext[b := NIL];
      if head == NIL {
        head := b;
      } else {
        var pp: nat := head;
        ghost var k := 0;
        assert forall i :: 0 <= i < |queue| ==> queue[i] in queue;
        while qnext[pp] != NIL
          invariant k < |queue| && pp == queue[k] && qnext == old(qnext)[b := NIL]
          decreases |queue| - k
        {
          assert old(qnext)[queue[k]] == After(queue, k);
          k := k + 1;
          pp := qnext[pp];
        }
        assert old(qnext)[queue[k]] == After(queue, k);
        qnext := qnext[pp := b];
      }
      AppendQueued(old(head), old(qnext), queue, b, head, qnext);
      assert queue != [] ==> queue[0] in queue;
    }

    /** idestart */
    method Start(b: nat)
      requires b < |bufs|
      modifies this`device
      ensures device == CommandFor(bufs[b])
    {
      if bufs[b].dirty {
        device := Write(bufs[b].blockno, bufs[b].data);
      } else {
        device := Read(bufs[b].blockno);
      }
    }

    /** The device finishes its command; ideintr completes the head request, which then has had exactly
        the effect of memide's iderw, and starts the next. */
    method Interrupt()
      requires Valid()
      modifies this
      ensures Valid() && Completed(old(Now()), Now())
      ensures old(queue) == [] ==> served == old(served) && answers == old(answers)
      ensures old(queue) != [] ==>
                var b := old(queue)[0];
                && b < |old(bufs)| && b < |bufs| && old(bufs)[b].blockno < |old(disk)|
                && Finished(old(bufs)[b], old(disk), bufs[b], disk) && bufs == old(bufs)[b := bufs[b]]
                && served == old(served) + [old(bufs)[b]] && answers == old(answers) + [bufs[b]]
    {
      HeadOf(head, qnext, queue);
      if head == NIL {
        return;
      }
      ghost var v := Now();
      Dequeue(head);
      CompletedIs(v, Now());
      hide Waiting, Queued, Served, Completed, Held, Answered, Finished;
      StartNext();
    }

    /** ideintr with its wakeup: the head request leaves the queue, done. */
    method Dequeue(b: nat)
      requires Valid() && queue != [] && b == queue[0]
      modifies this`bufs, this`disk, this`head, this`queue, this`asked, this`served, this`answers, this`finished
      modifies this`asleep
      ensures Stocked() && Completed(old(Now()), Now())
      ensures b < |old(bufs)| && old(bufs)[b].blockno < |old(disk)|
      ensures served == old(served) + [old(bufs)[b]]
      ensures answers == old(answers) + [SyncBuf(old(disk), old(bufs)[b])]
      ensures head == (if queue == [] then NIL else queue[0]) && (queue != [] ==> queue[0] < |bufs|)
    {
      hide Waiting, Queued, Served, SyncDisk, SyncBuf, Completed, CommandFor, Held, Answered, Finished;
      ghost var rest, finished1, asked1, served1, answers1 :=
        Dequeued(Now(), head, qnext, asked, served, answers, disk0, b);
      Transfer(b);
      asleep := asleep - {holder[b]};
      head := qnext[b];
      queue, finished, asked, served, answers := rest, finished1, asked1, served1, answers1;
    }

    /** The end of ideintr: start the next request, if there is one. */
    method StartNext()
      requires head == if queue == [] then NIL else queue[0]
      requires queue != [] ==> queue[0] < |bufs|
      modifies this`device
      ensures Working(device, bufs, queue)
    {
      if head != NIL {
        Start(head);
      } else {
        device := Idle;
      }
    }

    /** The device's command is carried out, and ideintr fills in the buffer and its flags. */
    method Transfer(b: nat)
      requires b < |bufs| && device == CommandFor(bufs[b]) && bufs[b].blockno < |disk|
      modifies this`bufs, this`disk
      ensures disk == SyncDisk(old(disk), old(bufs)[b]) && bufs == old(bufs)[b := SyncBuf(old(disk), old(bufs)[b])]
    {
      var latch := Finish();
      if !bufs[b].dirty {
        bufs := bufs[b := bufs[b].(data := latch)];
      }
      bufs := bufs[b := bufs[b].(valid := true, dirty := false)];
    }

    /** The device carries out its command: the block lands on the disk, or is there to be read. */
    method Finish() returns (latch: Block)
      requires device != Idle && device.blockno < |disk|
      modifies this`disk
      ensures disk == if device.Write? then old(disk)[device.blockno := device.data] else old(disk)
      ensures device.Read? ==> latch == disk[device.blockno]
    {
      latch := [];
      if device.Write? {
        disk := disk[device.blockno := device.data];
      } else {
        latch := disk[device.blockno];
      }
    }
  }

  // ---- Holders ----

  /** A buffer that nobody holds is not on the queue. */
  lemma Unheld(bufs: seq<Buf>, holder: seq<int>, queue: seq<nat>, asleep: set<int>, b: nat)
    requires Held(bufs, holder, queue, asleep) && b < |bufs| && !bufs[b].busy
    ensures b !in queue
  {
  }

  /** Nor is one whose holder is awake. */
  lemma Unqueued(bufs: seq<Buf>, holder: seq<int>, queue: seq<nat>, asleep: set<int>, b: nat)
    requires Held(bufs, holder, queue, asleep) && b < |bufs| && holder[b] !in asleep
    ensures b !in queue
  {
  }

  lemma ClaimHeld(bufs: seq<Buf>, holder: seq<int>, queue: seq<nat>, asleep: set<int>, b: nat, x: Buf, p: int)
    requires Held(bufs, holder, queue, asleep) && b < |bufs| && b !in queue && (x.busy <==> p != NIL)
    ensures Held(bufs[b := x], holder[b := p], queue, asleep)
  {
    var holder' := holder[b := p];
    forall i | 0 <= i < |queue| ensures queue[i] < |holder'| && holder'[queue[i]] == holder[queue[i]] {
      assert queue[i] in queue;
    }
    forall i, j | 0 <= i < j < |queue| ensures Apart(holder', queue, i, j) {
      assert Apart(holder, queue, i, j);
    }
    forall q | q in asleep ensures exists i :: 0 <= i < |queue| && holder'[queue[i]] == q {
      var i :| 0 <= i < |queue| && holder[queue[i]] == q;
      assert holder'[queue[i]] == q;
    }
  }

  lemma HeldLength(bufs: seq<Buf>, holder: seq<int>, queue: seq<nat>, asleep: set<int>)
    requires Held(bufs, holder, queue, asleep)
    ensures |holder| == |bufs|
  {
  }

  /** Serving a request leaves its buffer busy. */
  lemma SameBusy(disk: seq<Block>, bufs: seq<Buf>)
    ensures forall b :: 0 <= b < |bufs| && bufs[b].blockno < |disk| ==> SyncBuf(disk, bufs[b]).busy == bufs[b].busy
  {
  }

  lemma SubmitHeld(bufs: seq<Buf>, holder: seq<int>, queue: seq<nat>, asleep: set<int>, p: nat, b: nat)
    requires Held(bufs, holder, queue, asleep) && b < |bufs| && holder[b] == p && p !in asleep
    ensures Held(bufs, holder, queue + [b], asleep + {p})
  {
    var q := queue + [b];
    forall i, j | 0 <= i < j < |q| ensures Apart(holder, q, i, j) {
      if j < |queue| {
        assert Apart(holder, queue, i, j);
      }
    }
    forall r | r in asleep + {p} ensures exists i :: 0 <= i < |q| && holder[q[i]] == r {
      if r == p {
        assert holder[q[|queue|]] == r;
      } else {
        var i :| 0 <= i < |queue| && holder[queue[i]] == r;
        assert holder[q[i]] == r;
      }
    }
  }

  lemma WakeHeld(bufs: seq<Buf>, holder: seq<int>, queue: seq<nat>, asleep: set<int>, x: Buf, rest: seq<nat>)
    requires Held(bufs, holder, queue, asleep) && queue != [] && rest == queue[1..] && queue[0] < |bufs|
    requires x.busy == bufs[queue[0]].busy
    ensures Held(bufs[queue[0] := x], holder, rest, asleep - {holder[queue[0]]})
  {
    forall i, j | 0 <= i < j < |rest| ensures Apart(holder, rest, i, j) {
      assert Apart(holder, queue, i + 1, j + 1);
    }
    forall i | 0 <= i < |rest| ensures holder[rest[i]] != holder[queue[0]] {
      assert Apart(holder, queue, 0, i + 1);
    }
    forall r | r in asleep - {holder[queue[0]]} ensures exists i :: 0 <= i < |rest| && holder[rest[i]] == r {
      var i :| 0 <= i < |queue| && holder[queue[i]] == r;
      assert holder[rest[i - 1]] == r;
    }
  }

  /** Changing a buffer that is not on the queue disturbs no request. */
  lemma OtherBuf(bufs: seq<Buf>, queue: seq<nat>, asked: seq<Buf>, nblocks: nat, device: Command, b: nat, x: Buf)
    requires Waiting(bufs, queue, asked, nblocks) && Working(device, bufs, queue) && b < |bufs| && b !in queue
    ensures Waiting(bufs[b := x], queue, asked, nblocks) && Working(device, bufs[b := x], queue)
  {
    forall i | 0 <= i < |queue| ensures bufs[b := x][queue[i]] == bufs[queue[i]] {
      assert queue[i] in queue;
    }
  }

  lemma MoreWaiting(bufs: seq<Buf>, queue: seq<nat>, asked: seq<Buf>, nblocks: nat, b: nat)
    requires Waiting(bufs, queue, asked, nblocks) && b < |bufs| && NeedsService(bufs[b]) && bufs[b].blockno < nblocks
    ensures Waiting(bufs, queue + [b], asked + [bufs[b]], nblocks)
  {
  }

  lemma MoreServed(disk: seq<Block>, disk0: seq<Block>, served: seq<Buf>, b: Buf)
    requires Served(disk, disk0, served) && b.blockno < |disk0|
    ensures |disk| == |disk0| == |SyncDisk(disk, b)| && Served(SyncDisk(disk, b), disk0, served + [b])
  {
    SyncAllMore(disk0, served, b);
    SyncAllSize(disk0, served);
  }

  /** Everything that holds once the head request is done and off the queue. */
  lemma Dequeued(v: View, head: int, qnext: seq<int>, asked: seq<Buf>, served: seq<Buf>, answers: seq<Buf>,
                 disk0: seq<Block>, b: nat)
    returns (rest: seq<nat>, finished: seq<nat>, asked': seq<Buf>, served': seq<Buf>, answers': seq<Buf>)
    requires Queued(head, qnext, v.queue) && Waiting(v.bufs, v.queue, asked, |disk0|) && Served(v.disk, disk0, served)
    requires v.order == v.finished + v.queue && v.queue != [] && b == v.queue[0] && |qnext| == |v.bufs|
    requires Held(v.bufs, v.holder, v.queue, v.asleep) && Answered(disk0, served, answers)
    ensures b < |v.bufs| == |v.holder| && v.bufs[b].blockno < |v.disk|
    ensures served' == served + [v.bufs[b]] && answers' == answers + [SyncBuf(v.disk, v.bufs[b])]
    ensures Answered(disk0, served', answers')
    ensures var v' := View(v.bufs[b := SyncBuf(v.disk, v.bufs[b])], SyncDisk(v.disk, v.bufs[b]), rest, v.order,
                           finished, v.holder, v.asleep - {v.holder[b]});
            && Held(v'.bufs, v'.holder, rest, v'.asleep)
            && Queued(qnext[b], qnext, rest) && Waiting(v'.bufs, rest, asked', |disk0|)
            && Served(v'.disk, disk0, served')
            && v.order == finished + rest && Completed(v, v')
            && qnext[b] == (if rest == [] then NIL else rest[0]) && (rest != [] ==> rest[0] < |v.bufs|)
  {
    hide Waiting, Queued, Served, SyncDisk, SyncBuf, Completed, Held, Answered;
    SameBusy(v.disk, v.bufs);
    HeldLength(v.bufs, v.holder, v.queue, v.asleep);
    HeadWaiting(v.bufs, v.queue, asked, |disk0|);
    rest, finished, asked', served' := v.queue[1..], v.finished + [b], asked[1..], served + [asked[0]];
    assert v.order == finished + rest;
    MoreServed(v.disk, disk0, served, asked[0]);
    MoreAnswered(v.disk, disk0, served, answers, asked[0]);
    answers' := answers + [SyncBuf(v.disk, v.bufs[b])];
    DropQueued(head, qnext, v.queue, rest);
    WakeHeld(v.bufs, v.holder, v.queue, v.asleep, SyncBuf(v.disk, v.bufs[b]), rest);
    CompletedBy(v, b, rest, finished);
    LessWaiting(v.bufs, v.queue, asked, |disk0|, v.bufs[b := SyncBuf(v.disk, v.bufs[b])], rest, asked');
  }

  lemma SyncIs(disk: seq<Block>, x: Buf)
    requires x.blockno < |disk|
    ensures Finished(x, disk, SyncBuf(disk, x), SyncDisk(disk, x))
  {
  }

  lemma CompletedIs(v: View, v': View)
    requires Completed(v, v') && v.queue != []
    ensures var b := v.queue[0];
            && b < |v.bufs| == |v'.bufs| && v.bufs[b].blockno < |v.disk|
            && Finished(v.bufs[b], v.disk, v'.bufs[b], v'.disk) && v'.bufs == v.bufs[b := v'.bufs[b]]
            && v'.bufs[b] == SyncBuf(v.disk, v.bufs[b])
  {
    SyncIs(v.disk, v.bufs[v.queue[0]]);
  }

  lemma CompletedBy(v: View, b: nat, rest: seq<nat>, finished: seq<nat>)
    requires v.queue != [] && b == v.queue[0] && rest == v.queue[1..] && finished == v.finished + [b]
    requires b < |v.bufs| == |v.holder| && v.bufs[b].blockno < |v.disk|
    ensures Completed(v, View(v.bufs[b := SyncBuf(v.disk, v.bufs[b])], SyncDisk(v.disk, v.bufs[b]), rest, v.order,
                              finished, v.holder, v.asleep - {v.holder[b]}))
  {
  }

  lemma HeadOf(head: int, qnext: seq<int>, queue: seq<nat>)
    requires Queued(head, qnext, queue)
    ensures head == (if queue == [] then NIL else queue[0]) && (head == NIL <==> queue == [])
  {
  }

  lemma MoreWorking(device: Command, bufs: seq<Buf>, queue: seq<nat>, b: nat)
    requires Working(device, bufs, queue) && b < |bufs|
    ensures if queue == [] then Working(CommandFor(bufs[b]), bufs, queue + [b]) else Working(device, bufs, queue + [b])
  {
  }

  lemma HeadWaiting(bufs: seq<Buf>, queue: seq<nat>, asked: seq<Buf>, nblocks: nat)
    requires Waiting(bufs, queue, asked, nblocks) && queue != []
    ensures |asked| > 0 && queue[0] < |bufs| && bufs[queue[0]] == asked[0] && asked[0].blockno < nblocks
  {
  }

  lemma LessWaiting(bufs: seq<Buf>, queue: seq<nat>, asked: seq<Buf>, nblocks: nat, bufs': seq<Buf>, rest: seq<nat>,
                    asked': seq<Buf>)
    requires Waiting(bufs, queue, asked, nblocks) && queue != [] && rest == queue[1..] && queue[0] !in rest
    requires |asked| > 0 && asked' == asked[1..]
    requires |bufs'| == |bufs| && forall b :: 0 <= b < |bufs| && b != queue[0] ==> bufs'[b] == bufs[b]
    ensures Waiting(bufs', rest, asked', nblocks) && (rest != [] ==> rest[0] < |bufs'|)
  {
    forall i | 0 <= i < |rest| ensures rest[i] < |bufs'| && bufs'[rest[i]] == asked'[i] {
      assert rest[i] == queue[i + 1] && rest[i] in rest;
    }
  }

  lemma AppendQueued(head: int, qnext: seq<int>, queue: seq<nat>, b: nat, head': int, qnext': seq<int>)
    requires Queued(head, qnext, queue) && b < |qnext| && b !in queue
    requires queue == [] ==> head' == b && qnext' == qnext[b := NIL]
    requires queue != [] ==> head' == head && qnext' == qnext[b := NIL][queue[|queue| - 1] := b]
    ensures Queued(head', qnext', queue + [b])
  {
    var q := queue + [b];
    forall i | 0 <= i < |q| ensures q[i] < |qnext'| && qnext'[q[i]] == After(q, i) {
      if i < |queue| {
        assert queue[i] in queue;
        assert qnext[queue[i]] == After(queue, i);
        if i < |queue| - 1 {
          assert Differ(queue, i, |queue| - 1);
        }
      }
    }
    forall i, j | 0 <= i < j < |q| ensures Differ(q, i, j) {
      if j < |queue| {
        assert Differ(queue, i, j);
      } else {
        assert queue[i] in queue;
      }
    }
  }

  lemma DropQueued(head: int, qnext: seq<int>, queue: seq<nat>, q: seq<nat>)
    requires Queued(head, qnext, queue) && queue != [] && q == queue[1..]
    ensures Queued(qnext[queue[0]], qnext, q) && queue[0] !in q
    ensures qnext[queue[0]] == if q == [] then NIL else q[0]
  {
    assert qnext[queue[0]] == After(queue, 0);
    forall i, j | 0 <= i < j < |q| ensures Differ(q, i, j) {
      assert Differ(queue, i + 1, j + 1);
    }
    forall i | 0 <= i < |q| ensures q[i] != queue[0] {
      assert Differ(queue, 0, i + 1);
    }
    forall i | 0 <= i < |q| ensures qnext[q[i]] == After(q, i) {
      assert q[i] == queue[i + 1];
      assert qnext[queue[i + 1]] == After(queue, i + 1);
    }
  }
}
