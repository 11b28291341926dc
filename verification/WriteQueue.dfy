/**
 * The ordered write queue in front of a run's row (packages/data-store/src/session-run-store.ts, `handle`).
 */
module WriteQueue {
  // Adjacent checklist snapshots may replace one another; everything else is a barrier. The first failure
  // latches: no job starts after it. A job whose transaction is under way when the heartbeat latches a
  // failure is not called back: it may still commit, and it is the only one that may. A commit is one thing
  // and its acknowledgement in the process another, later or lost; the next job starts only after it.
  //
  // `QueueState` is the queue as a value, with what was offered and what was committed so far. The class
  // `Queue` is the closure state itself: queued jobs are objects, and `checklistTail` aliases the last one.

  import opened Common
  import opened ActivityJournal

  /** One enqueued body; `coalesce` marks a checklist snapshot. */
  datatype Write = Write(body: Body, coalesce: bool)

  datatype QueueState = QueueState(
    waiting: seq<Write>,
    running: Option<Write>,
    unacknowledged: Option<Write>,
    mergeable: bool,
    failed: bool,
    offered: seq<Write>,
    committed: seq<Write>,
    lost: seq<Write>)

  const EMPTY: QueueState := QueueState([], None, None, false, false, [], [], [])

  function Enqueued(q: QueueState, w: Write): QueueState {
    if q.failed then q
    else if w.coalesce && q.mergeable && q.waiting != [] then
      q.(waiting := q.waiting[..|q.waiting| - 1] + [w], offered := q.offered + [w])
    else
      q.(waiting := q.waiting + [w], mergeable := w.coalesce, offered := q.offered + [w])
  }

  /** No job's transaction is under way or waits to be acknowledged. */
  predicate Idle(q: QueueState) { q.running.None? && q.unacknowledged.None? }

  /** The next job starts: it captures its value, so nothing can merge into it any more. */
  function Started(q: QueueState): QueueState
    requires Idle(q) && q.waiting != []
  {
    q.(waiting := q.waiting[1..], running := Some(q.waiting[0]), mergeable := q.mergeable && |q.waiting| > 1)
  }

  function Committed(q: QueueState): QueueState
    requires q.running.Some?
  {
    q.(running := None, committed := q.committed + [q.running.value], unacknowledged := q.running)
  }

  /** The transaction's promise has resolved. */
  function Acknowledged(q: QueueState): QueueState { q.(unacknowledged := None) }

  /** `fail`, from the heartbeat: the failure latches and what waits runs as no-ops; a running job runs on. */
  function Latched(q: QueueState): QueueState {
    if q.failed then q
    else q.(failed := true, waiting := [], mergeable := false, lost := q.waiting)
  }

  /** `fail`, from the running job's own transaction. */
  function Refused(q: QueueState): QueueState
    requires q.running.Some?
  {
    var latched := Latched(q);
    latched.(running := None, lost := [q.running.value] + latched.lost)
  }

  // --- Coalescing ---------------------------------------------------------------------

  function Select(offered: seq<Write>, keep: seq<bool>): seq<Write>
    requires |offered| == |keep|
  {
    if offered == [] then []
    else
      Select(offered[..|offered| - 1], keep[..|keep| - 1]) + (if keep[|keep| - 1] then [offered[|offered| - 1]] else [])
  }

  /** Only a checklist snapshot immediately followed by another checklist snapshot may be dropped. */
  ghost predicate DropsOnlySuperseded(offered: seq<Write>, keep: seq<bool>) {
    && |offered| == |keep|
    && forall i | 0 <= i < |keep| && !keep[i] :: offered[i].coalesce && i + 1 < |offered| && offered[i + 1].coalesce
  }

  ghost predicate Coalesces(offered: seq<Write>, kept: seq<Write>) {
    exists keep :: DropsOnlySuperseded(offered, keep) && Select(offered, keep) == kept
  }

  function InOrder(q: QueueState): seq<Write> {
    q.committed + (if q.running.Some? then [q.running.value] else []) + q.lost + q.waiting
  }

  /** No two checklist snapshots wait next to each other. */
  ghost predicate NoneAdjacent(waiting: seq<Write>) {
    forall i | 0 < i < |waiting| :: !(waiting[i - 1].coalesce && waiting[i].coalesce)
  }

  /** The queue refines a plain FIFO up to coalescing, at every moment and across a failure. */
  ghost predicate QueueValid(q: QueueState) {
    && Coalesces(q.offered, InOrder(q))
    && (q.mergeable <==> q.waiting != [] && q.waiting[|q.waiting| - 1].coalesce)
    && NoneAdjacent(q.waiting)
    && (!q.failed ==> q.lost == [])
    && (q.failed ==> q.waiting == [])
    && (q.unacknowledged.Some? ==> q.running.None?)
  }

  lemma AppendCoalesces(offered: seq<Write>, kept: seq<Write>, w: Write)
    requires Coalesces(offered, kept)
    ensures Coalesces(offered + [w], kept + [w])
  {
    var keep :| DropsOnlySuperseded(offered, keep) && Select(offered, keep) == kept;
    var all, longer := offered + [w], keep + [true];
    assert all[..|all| - 1] == offered && longer[..|longer| - 1] == keep;
    assert Select(all, longer) == Select(offered, keep) + [w];
    forall i | 0 <= i < |longer| && !longer[i]
      ensures all[i].coalesce && i + 1 < |all| && all[i + 1].coalesce
    {
      assert !keep[i];
    }
    assert DropsOnlySuperseded(all, longer);
  }

  lemma ReplaceCoalesces(offered: seq<Write>, kept: seq<Write>, w: Write)
    requires Coalesces(offered, kept) && kept != [] && kept[|kept| - 1].coalesce && w.coalesce
    ensures Coalesces(offered + [w], kept[..|kept| - 1] + [w])
  {
    var keep :| DropsOnlySuperseded(offered, keep) && Select(offered, keep) == kept;
    var n := |offered|;
    assert n > 0;
    assert keep[n - 1];
    var shorter := keep[..n - 1] + [false];
    var longer := shorter + [true];
    assert (offered + [w])[..n] == offered && longer[..n] == shorter && shorter[..n - 1] == keep[..n - 1];
    assert Select(offered, shorter) == Select(offered[..n - 1], keep[..n - 1]) == kept[..|kept| - 1];
    assert DropsOnlySuperseded(offered + [w], longer);
    assert Select(offered + [w], longer) == Select(offered, shorter) + [w];
  }

  lemma EnqueueKeepsQueue(q: QueueState, w: Write, t: QueueState)
    requires QueueValid(q) && t == Enqueued(q, w)
    ensures QueueValid(t)
  {
    hide Coalesces;
    if !q.failed {
      if w.coalesce && q.mergeable && q.waiting != [] {
        ReplaceCoalesces(q.offered, InOrder(q), w);
        assert InOrder(t) == InOrder(q)[..|InOrder(q)| - 1] + [w];
      } else {
        AppendCoalesces(q.offered, InOrder(q), w);
        assert InOrder(t) == InOrder(q) + [w];
      }
    }
  }

  /** What keeps the order of what was offered, and loses no standing, keeps the queue. */
  lemma SameOrderKeepsQueue(q: QueueState, t: QueueState)
    requires QueueValid(q) && t.offered == q.offered && InOrder(t) == InOrder(q)
    requires t.mergeable <==> t.waiting != [] && t.waiting[|t.waiting| - 1].coalesce
    requires NoneAdjacent(t.waiting)
    requires (!t.failed ==> t.lost == []) && (t.failed ==> t.waiting == [])
    requires (t.unacknowledged.Some? ==> t.running.None?)
    ensures QueueValid(t)
  {
    hide Coalesces, InOrder;
  }

  // No step of a job, nor a failure, changes what stands of the offering, or its order.

  lemma LatchKeepsOrder(q: QueueState)
    requires !q.failed ==> q.lost == []
    ensures InOrder(Acknowledged(q)) == InOrder(Latched(q)) == InOrder(q)
  {
  }

  lemma StartKeepsOrder(q: QueueState)
    requires Idle(q) && q.waiting != [] && !q.failed && q.lost == []
    ensures InOrder(Started(q)) == InOrder(q)
  {
    assert [q.waiting[0]] + q.waiting[1..] == q.waiting;
  }

  lemma CommitKeepsOrder(q: QueueState)
    requires q.running.Some?
    ensures InOrder(Committed(q)) == InOrder(q)
  {
  }

  lemma RefusalKeepsOrder(q: QueueState)
    requires q.running.Some? && (!q.failed ==> q.lost == []) && (q.failed ==> q.waiting == [])
    ensures InOrder(Refused(q)) == InOrder(q)
  {
  }

  lemma JobKeepsQueue(q: QueueState)
    requires QueueValid(q)
    ensures Idle(q) && q.waiting != [] ==> QueueValid(Started(q))
    ensures q.running.Some? ==> QueueValid(Committed(q)) && QueueValid(Refused(q))
    ensures QueueValid(Latched(q)) && QueueValid(Acknowledged(q))
  {
    hide Coalesces, InOrder;
    LatchKeepsOrder(q);
    SameOrderKeepsQueue(q, Acknowledged(q));
    SameOrderKeepsQueue(q, Latched(q));
    if Idle(q) && q.waiting != [] {
      StartKeepsOrder(q);
      SameOrderKeepsQueue(q, Started(q));
    }
    if q.running.Some? {
      CommitKeepsOrder(q);
      RefusalKeepsOrder(q);
      SameOrderKeepsQueue(q, Committed(q));
      SameOrderKeepsQueue(q, Refused(q));
    }
  }

  // --- What coalescing preserves --------------------------------------------------------

  function Barriers(writes: seq<Write>): seq<Write> {
    if writes == [] then []
    else Barriers(writes[..|writes| - 1]) + (if writes[|writes| - 1].coalesce then [] else [writes[|writes| - 1]])
  }

  /** The last run snapshot among the writes. */
  function LastSnapshot(writes: seq<Write>): Option<Record> {
    if writes == [] then None
    else if writes[|writes| - 1].body.RunEvent? then Some(writes[|writes| - 1].body.run)
    else LastSnapshot(writes[..|writes| - 1])
  }

  lemma {:induction false} SelectPreserves(offered: seq<Write>, keep: seq<bool>)
    requires DropsOnlySuperseded(offered, keep)
    requires forall i | 0 <= i < |offered| && offered[i].coalesce :: offered[i].body.RunEvent?
    ensures Barriers(Select(offered, keep)) == Barriers(offered)
    ensures LastSnapshot(Select(offered, keep)) == LastSnapshot(offered)
    decreases |offered|
  {
    var n := |offered|;
    if n > 0 {
      var front := Select(offered[..n - 1], keep[..n - 1]);
      assert keep[n - 1];
      if n > 1 && !keep[n - 2] {
        // the previous write was dropped: a checklist snapshot superseded by this one
        var mended := keep[..n - 2] + [true];
        assert offered[..n - 1][..n - 2] == offered[..n - 2]
            && keep[..n - 1][..n - 2] == keep[..n - 2] == mended[..n - 2];
        SelectPreserves(offered[..n - 1], mended);
        assert Select(offered[..n - 1], mended) == front + [offered[n - 2]];
        assert (front + [offered[n - 2]])[..|front|] == front;
      } else {
        SelectPreserves(offered[..n - 1], keep[..n - 1]);
      }
      assert (front + [offered[n - 1]])[..|front|] == front;
    }
  }

  /** Transcript and lifecycle writes are kept, all of them and in order; so is the last snapshot. */
  lemma CoalescingKeepsBarriers(offered: seq<Write>, kept: seq<Write>)
    requires Coalesces(offered, kept)
    requires forall i | 0 <= i < |offered| && offered[i].coalesce :: offered[i].body.RunEvent?
    ensures Barriers(kept) == Barriers(offered)
    ensures LastSnapshot(kept) == LastSnapshot(offered)
  {
    var keep :| DropsOnlySuperseded(offered, keep) && Select(offered, keep) == kept;
    SelectPreserves(offered, keep);
  }

  // --- The closure state itself ----------------------------------------------------------

  class Job {
    var body: Body
    var coalesce: bool

    constructor (body: Body, coalesce: bool)
      ensures this.body == body && this.coalesce == coalesce
    {
      this.body, this.coalesce := body, coalesce;
    }
  }

  ghost function Writes(jobs: seq<Job>): (writes: seq<Write>)
    reads set job | job in jobs
    ensures |writes| == |jobs|
    ensures forall i | 0 <= i < |jobs| :: writes[i] == Write(jobs[i].body, jobs[i].coalesce)
  {
    seq(|jobs|, i requires 0 <= i < |jobs| reads set job | job in jobs => Write(jobs[i].body, jobs[i].coalesce))
  }

  class Queue {
    var pending: seq<Job>
    var checklistTail: Job?
    var captured: Option<Write>
    var unacknowledged: Option<Write>
    var failure: bool
    ghost var offered: seq<Write>
    ghost var committed: seq<Write>
    ghost var lost: seq<Write>

    ghost predicate Valid()
      reads this, set job | job in pending
    {
      && (forall i, j | 0 <= i < j < |pending| :: pending[i] != pending[j])
      && (checklistTail != null ==> pending != [] && checklistTail == pending[|pending| - 1] && checklistTail.coalesce)
      && (failure ==> pending == [])
      && (unacknowledged.Some? ==> captured.None?)
    }

    ghost function State(): QueueState
      reads this, set job | job in pending
    {
      QueueState(Writes(pending), captured, unacknowledged, checklistTail != null, failure, offered, committed, lost)
    }

    constructor ()
      ensures Valid() && State() == EMPTY
    {
      pending, checklistTail, captured, unacknowledged, failure := [], null, None, None, false;
      offered, committed, lost := [], [], [];
    }

    method Enqueue(w: Write)
      requires Valid()
      modifies this, checklistTail
      ensures Valid() && State() == Enqueued(old(State()), w)
    {
      if failure { return; }
      if w.coalesce && checklistTail != null { MergeTail(w); } else { AddJob(w); }
    }

    /** A merge overwrites the tail job in place; the order of the queue is untouched. */
    method MergeTail(w: Write)
      requires Valid() && !failure && w.coalesce && checklistTail != null
      modifies this`offered, checklistTail
      ensures Valid() && State() == Enqueued(old(State()), w)
    {
      offered := offered + [w];
      ghost var was := Writes(pending);
      checklistTail.body := w.body;
      assert Writes(pending) == was[..|was| - 1] + [w];
    }

    method AddJob(w: Write)
      requires Valid() && !failure && !(w.coalesce && checklistTail != null)
      modifies this`offered, this`checklistTail, this`pending
      ensures Valid() && State() == Enqueued(old(State()), w)
    {
      offered := offered + [w];
      ghost var was := Writes(pending);
      var job := new Job(w.body, w.coalesce);
      checklistTail := if w.coalesce then job else null;
      pending := pending + [job];
      assert Writes(pending) == was + [w];
    }

    method Start()
      requires Valid() && captured.None? && unacknowledged.None? && pending != []
      modifies this
      ensures Valid() && State() == Started(old(State()))
    {
      var job := pending[0];
      if checklistTail == job { checklistTail := null; }
      captured := Some(Write(job.body, job.coalesce));
      pending := pending[1..];
      assert Writes(pending) == old(Writes(pending))[1..];
    }

    /** The running job's transaction has committed, or was refused; a refusal after the latch changes nothing more. */
    method Settle(ok: bool)
      requires Valid() && captured.Some?
      modifies this
      ensures Valid()
      ensures State() == if ok then Committed(old(State())) else Refused(old(State()))
    {
      var job := captured.value;
      captured := None;
      if ok {
        committed, unacknowledged := committed + [job], Some(job);
      } else {
        Fail();
        lost := [job] + lost;
      }
    }

    /** The commit's acknowledgement has arrived, or is known lost: then the writer fails, although the write stands. */
    method Acknowledge(arrived: bool)
      requires Valid() && unacknowledged.Some?
      modifies this
      ensures Valid()
      ensures State() == if arrived then Acknowledged(old(State())) else Latched(Acknowledged(old(State())))
    {
      unacknowledged := None;
      if !arrived { Fail(); }
    }

    /** `fail`: latches once. What waits will run as no-ops; a transaction under way is not called back. */
    method Fail()
      requires Valid()
      modifies this
      ensures Valid() && State() == Latched(old(State()))
    {
      if failure { return; }
      lost := Writes(pending);
      failure, pending, checklistTail := true, [], null;
    }
  }
}
