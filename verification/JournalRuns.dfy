/**
 * Any number of server processes on the same activity tables (packages/data-store/src/session-run-store.ts).
 */
module JournalRuns {
  // Creates, resumes, sweeps, reopened readers, setters, queued writes and heartbeats, in any order.
  // Each transaction is one step; so is each synchronous callback, and what a call does once its transaction
  // or read has answered is a step of its own, however late: a create's, resume's or open's return, a queued
  // write's acknowledgement, a heartbeat's UPDATE after its timer fired.
  //
  // What is proved of every run:
  //  - the journal has no gap, is never rewritten, and its newest snapshot is the stored record;
  //  - owner and lease are set exactly while the stored status is running;
  //  - what a handle commits is, in order, what it was offered less superseded checklist snapshots.

  import opened Common
  import opened ActivityJournal
  import opened WriteQueue

  type HandleId = nat

  /** One `handle(...)` closure: its in-memory record, its queue, and the cursors its writes committed at. */
  datatype Handle = Handle(
    process: Process,
    repoKey: string,
    runId: RunId,
    owned: bool,
    beating: bool,
    beats: nat,
    record: Record,
    queue: QueueState,
    cursors: seq<nat>)

  datatype LiveKey = LiveKey(process: Process, runId: RunId)

  type CallId = nat

  /** A create or resume whose transaction committed, or an open whose row was read, before it returns. */
  datatype Call = Call(taking: bool, process: Process, repoKey: string, runId: RunId, record: Record)

  datatype World = World(
    now: int, rows: Rows, handles: map<HandleId, Handle>, live: map<LiveKey, HandleId>, calls: map<CallId, Call>)

  const START: World := World(0, map[], map[], map[], map[])

  datatype Step =
    | Tick(elapsed: nat)
    | Create(process: Process, call: CallId, runId: RunId, repoKey: string, gitRef: string)
    | Resume(process: Process, call: CallId, runId: RunId, repoKey: string)
    | Read(process: Process, call: CallId, runId: RunId, repoKey: string)
    | Return(call: CallId, newHandle: HandleId)
    | Reconcile(process: Process, repoKeys: Option<set<string>>)
    | SetRecord(handle: HandleId, record: Record, coalesce: bool)
    | AppendEvent(handle: HandleId, sessionId: string, number: nat)
    | StartJob(handle: HandleId)
    | FinishJob(handle: HandleId, databaseUp: bool)
    | Acknowledge(handle: HandleId, arrived: bool)
    | Beat(handle: HandleId)
    | Renew(handle: HandleId, committed: bool, arrived: bool)

  predicate Enabled(w: World, step: Step) {
    match step
    case Tick(_) => true
    case Create(_, c, runId, _, _) => c !in w.calls && runId !in w.rows
    case Resume(_, c, runId, repoKey) => c !in w.calls && runId in w.rows && w.rows[runId].repoKey == repoKey
    case Read(_, c, runId, repoKey) => c !in w.calls && runId in w.rows && w.rows[runId].repoKey == repoKey
    case Return(c, h) => c in w.calls && h !in w.handles
    case Reconcile(_, _) => true
    case SetRecord(h, _, _) => h in w.handles
    case AppendEvent(h, _, _) => h in w.handles
    case StartJob(h) => h in w.handles && Idle(w.handles[h].queue) && w.handles[h].queue.waiting != []
    case FinishJob(h, _) => h in w.handles && w.handles[h].queue.running.Some?
    case Beat(h) => h in w.handles && w.handles[h].beating && w.handles[h].owned && !w.handles[h].queue.failed
    case Acknowledge(h, _) => h in w.handles && w.handles[h].queue.unacknowledged.Some?
    case Renew(h, _, _) => h in w.handles && w.handles[h].beats > 0
  }

  /** The runs `process` is still writing: what its sweep leaves alone. */
  function Writing(w: World, process: Process): set<RunId> {
    set key | key in w.live && key.process == process :: key.runId
  }

  function Forget(w: World, handle: Handle): map<LiveKey, HandleId> {
    w.live - {LiveKey(handle.process, handle.runId)}
  }

  function NewHandle(process: Process, repoKey: string, runId: RunId, owned: bool, record: Record): Handle {
    Handle(process, repoKey, runId, owned, owned, 0, record, EMPTY, [])
  }

  /** `fail`: the heartbeat stops and the process forgets the run, whichever handle wrote it; once a handle. */
  function AfterFailure(w: World, h: HandleId, queue: QueueState): World
    requires h in w.handles
  {
    var handle := w.handles[h];
    if handle.queue.failed then w.(handles := w.handles[h := handle.(queue := queue)])
    else w.(handles := w.handles[h := handle.(queue := queue, beating := false)], live := Forget(w, handle))
  }

  /** The transaction has committed; the process has yet to hear of it. */
  function AfterWrite(w: World, h: HandleId): World
    requires h in w.handles && w.handles[h].queue.running.Some? && w.handles[h].runId in w.rows
  {
    var handle := w.handles[h];
    var row := w.rows[handle.runId];
    w.(rows := w.rows[handle.runId := WrittenRow(row, handle.queue.running.value.body)],
       handles := w.handles[h :=
           handle.(queue := Committed(handle.queue), cursors := handle.cursors + [row.nextCursor])])
  }

  /** The write ends its run. */
  predicate Ends(write: Write) { write.body.RunEvent? && !write.body.run.status.Running? }

  /** The process hears of a commit: one that ended the run stops the heartbeat and has the process forget the run. */
  function AfterCommit(w: World, h: HandleId): World
    requires h in w.handles && w.handles[h].queue.unacknowledged.Some?
  {
    var handle := w.handles[h];
    var ended := Ends(handle.queue.unacknowledged.value);
    w.(handles := w.handles[h := handle.(queue := Acknowledged(handle.queue), beating := handle.beating && !ended)],
       live := if ended then Forget(w, handle) else w.live)
  }

  /**
   * An open whose read found the run ended, where the live handle says
   * otherwise or there is none, drops the live entry.
   */
  predicate Displaces(w: World, call: Call) {
    var key := LiveKey(call.process, call.runId);
    !call.taking
    && !(key in w.live && (call.record.status.Running?
         || (w.live[key] in w.handles && w.handles[w.live[key]].record.status == call.record.status)))
  }

  /** The call goes on: a create or resume makes the live handle; an open returns the live one, or makes a reader. */
  function AfterCall(w: World, c: CallId, h: HandleId): World
    requires c in w.calls
  {
    var call := w.calls[c];
    var key := LiveKey(call.process, call.runId);
    var done := w.(calls := w.calls - {c});
    var made := w.handles[h := NewHandle(call.process, call.repoKey, call.runId, call.taking, call.record)];
    if call.taking then done.(handles := made, live := w.live[key := h])
    else if Displaces(w, call) then done.(handles := made, live := w.live - {key})
    else done
  }

  function Refusal(w: World, h: HandleId): Option<WriteError>
    requires h in w.handles && w.handles[h].queue.running.Some?
  {
    var handle := w.handles[h];
    WriteRefusal(w.rows, handle.runId, handle.repoKey, handle.process, handle.owned, handle.queue.running.value.body)
  }

  /** The heartbeat's UPDATE finds its row: it goes by run and owner alone. */
  predicate Renewable(w: World, handle: Handle) {
    handle.runId in w.rows && w.rows[handle.runId].owner == Some(handle.process)
  }

  function Next(w: World, step: Step): World
    requires Enabled(w, step)
  {
    match step
    case Tick(elapsed) => w.(now := w.now + elapsed)
    case Create(p, c, runId, repoKey, gitRef) =>
      w.(rows := w.rows[runId := CreatedRow(p, repoKey, gitRef, w.now)],
         calls := w.calls[c := Call(true, p, repoKey, runId, StartRecord(gitRef, w.now))])
    case Resume(p, c, runId, repoKey) =>
      w.(rows := w.rows[runId := ResumedRow(w.rows[runId], p, w.now)],
         calls := w.calls[c := Call(true, p, repoKey, runId, ResumedRecord(w.rows[runId].record))])
    case Read(p, c, runId, repoKey) =>
      w.(calls := w.calls[c := Call(false, p, repoKey, runId, w.rows[runId].record)])
    case Return(c, h) => AfterCall(w, c, h)
    case Reconcile(p, repoKeys) => w.(rows := Reconciled(w.rows, repoKeys, Writing(w, p), w.now))
    case SetRecord(h, record, coalesce) =>
      var handle := w.handles[h];
      w.(handles := w.handles[h :=
          handle.(record := record, queue := Enqueued(handle.queue, Write(RunEvent(Public(record)), coalesce)))])
    case AppendEvent(h, sessionId, number) =>
      var handle := w.handles[h];
      w.(handles := w.handles[h :=
          handle.(queue := Enqueued(handle.queue, Write(SessionEvent(sessionId, number), false)))])
    case StartJob(h) =>
      w.(handles := w.handles[h := w.handles[h].(queue := Started(w.handles[h].queue))])
    case FinishJob(h, databaseUp) =>
      if databaseUp && Refusal(w, h).None? then AfterWrite(w, h) else AfterFailure(w, h, Refused(w.handles[h].queue))
    case Beat(h) =>
      w.(handles := w.handles[h := w.handles[h].(beats := w.handles[h].beats + 1)])
    case Acknowledge(h, arrived) =>
      if arrived then AfterCommit(w, h) else AfterFailure(w, h, Latched(Acknowledged(w.handles[h].queue)))
    case Renew(h, committed, arrived) =>
      var handle := w.handles[h];
      var landed := w.(handles := w.handles[h := handle.(beats := handle.beats - 1)],
                       rows := if committed && Renewable(w, handle)
                           then w.rows[handle.runId := RenewedRow(w.rows[handle.runId], w.now)]
                               else w.rows);
      if arrived && committed && (Renewable(w, handle) || !handle.record.status.Running?) then landed
      else AfterFailure(landed, h, Latched(handle.queue))
  }

  predicate Allowed(w: World, steps: seq<Step>)
    decreases |steps|
  {
    steps == [] || (Enabled(w, steps[0]) && Allowed(Next(w, steps[0]), steps[1..]))
  }

  function After(w: World, steps: seq<Step>): World
    requires Allowed(w, steps)
    decreases |steps|
  {
    if steps == [] then w else After(Next(w, steps[0]), steps[1..])
  }

  // --- Invariant --------------------------------------------------------------------

  ghost predicate PublicWrite(write: Write) {
    && (write.body.RunEvent? ==> write.body.run.endpoint.None?)
    && (write.coalesce ==> write.body.RunEvent?)
  }

  ghost predicate QueueSound(q: QueueState) {
    && QueueValid(q)
    && (forall i | 0 <= i < |q.offered| :: PublicWrite(q.offered[i]))
    && (forall i | 0 <= i < |q.waiting| :: PublicWrite(q.waiting[i]))
    && (q.running.Some? ==> PublicWrite(q.running.value))
    && (q.unacknowledged.Some? ==> PublicWrite(q.unacknowledged.value))
  }

  /** A handle's commits stand in its run's journal, in the order they were made. */
  ghost predicate CommitsJournalled(cursors: seq<nat>, committed: seq<Write>, row: Row) {
    && |cursors| == |committed|
    && (forall i, j | 0 <= i < j < |cursors| :: cursors[i] < cursors[j])
    && (forall i | 0 <= i < |cursors| ::
          cursors[i] < row.nextCursor && cursors[i] in row.events && row.events[cursors[i]] == committed[i].body)
  }

  ghost predicate HandleValid(w: World, handle: Handle) {
    && QueueSound(handle.queue)
    && handle.runId in w.rows
    && w.rows[handle.runId].repoKey == handle.repoKey
    && CommitsJournalled(handle.cursors, handle.queue.committed, w.rows[handle.runId])
  }

  ghost predicate Inv(w: World) {
    && (forall runId | runId in w.rows :: JournalValid(w.rows[runId]))
    && (forall h | h in w.handles :: HandleValid(w, w.handles[h]))
    && (forall c | c in w.calls :: CallValid(w, w.calls[c]))
  }

  /** A call knows a row of its repository. */
  ghost predicate CallValid(w: World, call: Call) {
    call.runId in w.rows && w.rows[call.runId].repoKey == call.repoKey
  }

  /** No step removes a run or rewrites an entry of any journal. */
  ghost predicate JournalsExtend(w: World, t: World) {
    forall runId | runId in w.rows :: runId in t.rows && JournalExtends(w.rows[runId], t.rows[runId])
  }

  /** What one step may have done to one row. */
  ghost predicate RowMoved(w: World, step: Step, row: Row, after: Row) {
    || after == row
    || (step.Resume? && after == ResumedRow(row, step.process, w.now))
    || (step.Reconcile? && row.record.status.Running? && after == RecoveredRow(row, w.now))
    || (step.Renew? && row.owner.Some? && after == RenewedRow(row, w.now))
    || (step.FinishJob? && step.handle in w.handles && w.handles[step.handle].queue.running.Some?
        && var body := w.handles[step.handle].queue.running.value.body;
           after == WrittenRow(row, body)
               && (row.record.status.Running? || !body.RunEvent? || !body.run.status.Running?))
  }

  lemma RowMoves(w: World, step: Step, runId: RunId)
    requires Enabled(w, step) && runId in w.rows
    ensures runId in Next(w, step).rows && RowMoved(w, step, w.rows[runId], Next(w, step).rows[runId])
  {
    var row := w.rows[runId];
    match step
    case Resume(_, _, _, _) =>
    case Reconcile(_, _) =>
    case FinishJob(h, _) =>
    case Renew(h, _, _) =>
    case _ => assert Next(w, step).rows[runId] == row;
  }

  lemma MoveKeepsJournal(w: World, step: Step, row: Row, after: Row)
    requires RowMoved(w, step, row, after) && JournalValid(row)
    requires step.FinishJob? && step.handle in w.handles && w.handles[step.handle].queue.running.Some? ==>
               PublicWrite(w.handles[step.handle].queue.running.value)
    ensures JournalValid(after) && JournalExtends(row, after)
  {
    var body := if step.FinishJob? && step.handle in w.handles && w.handles[step.handle].queue.running.Some?
      then w.handles[step.handle].queue.running.value.body else SessionEvent("", 0);
    TransactionsKeepJournal(row, if step.Resume? then step.process else 0, body, w.now);
  }

  lemma StepKeepsJournals(w: World, step: Step)
    requires Inv(w) && Enabled(w, step)
    ensures JournalsExtend(w, Next(w, step))
    ensures forall runId | runId in Next(w, step).rows :: JournalValid(Next(w, step).rows[runId])
  {
    var t := Next(w, step);
    if step.FinishJob? { assert HandleValid(w, w.handles[step.handle]); }
    forall runId | runId in w.rows
      ensures runId in t.rows && JournalValid(t.rows[runId]) && JournalExtends(w.rows[runId], t.rows[runId])
    {
      RowMoves(w, step, runId);
      MoveKeepsJournal(w, step, w.rows[runId], t.rows[runId]);
    }
    forall runId | runId in t.rows && runId !in w.rows
      ensures JournalValid(t.rows[runId])
    {
      RowsAppearByCreate(w, step, runId);
    }
  }

  lemma RowsAppearByCreate(w: World, step: Step, runId: RunId)
    requires Enabled(w, step) && runId in Next(w, step).rows && runId !in w.rows
    ensures step.Create? && runId == step.runId
    ensures JournalValid(Next(w, step).rows[runId])
  {
    hide JournalValid, WrittenRow, ResumedRow, RecoveredRow, RenewedRow, Enqueued, Committed, Started, Refused,
         Latched, Forget, Writing;
    assert step.Create?;
    CreatedRowIsValid(step.process, step.repoKey, step.gitRef, w.now);
  }

  /** A handle nothing happened to keeps its standing while journals grow. */
  lemma ExtensionKeepsHandle(w: World, t: World, handle: Handle)
    requires HandleValid(w, handle) && JournalsExtend(w, t)
    ensures HandleValid(t, handle)
  {
    assert JournalExtends(w.rows[handle.runId], t.rows[handle.runId]);
  }

  lemma EnqueueKeepsSound(q: QueueState, write: Write, t: QueueState)
    requires QueueSound(q) && PublicWrite(write) && t == Enqueued(q, write)
    ensures QueueSound(t) && t.committed == q.committed
  {
    hide QueueValid, PublicWrite;
    EnqueueKeepsQueue(q, write, t);
  }

  lemma JobKeepsSound(q: QueueState)
    requires QueueSound(q)
    ensures QueueSound(Latched(q)) && Latched(q).committed == q.committed
    ensures QueueSound(Acknowledged(q)) && Acknowledged(q).committed == q.committed
    ensures Idle(q) && q.waiting != [] ==> QueueSound(Started(q)) && Started(q).committed == q.committed
    ensures q.running.Some? ==>
              QueueSound(Committed(q)) && QueueSound(Refused(q)) && Refused(q).committed == q.committed
  {
    hide QueueValid, PublicWrite;
    JobKeepsQueue(q);
  }

  lemma CommitIsJournalled(cursors: seq<nat>, committed: seq<Write>, row: Row, write: Write)
    requires CommitsJournalled(cursors, committed, row) && JournalValid(row)
    ensures CommitsJournalled(cursors + [row.nextCursor], committed + [write], WrittenRow(row, write.body))
  {
    var after := WrittenRow(row, write.body);
    assert after.events == row.events[row.nextCursor := write.body] && after.nextCursor == row.nextCursor + 1;
  }

  /** A finished job whose transaction commits. */
  predicate Commits(w: World, step: Step)
    requires Enabled(w, step)
  {
    step.FinishJob? && step.databaseUp && Refusal(w, step.handle).None?
  }

  lemma WriteKeepsHandle(w: World, handle: Handle, row: Row, t: World, after: Handle)
    requires HandleValid(w, handle) && handle.queue.running.Some? && handle.runId in w.rows
    requires row == w.rows[handle.runId] && JournalValid(row)
    requires after == handle.(queue := Committed(handle.queue), cursors := handle.cursors + [row.nextCursor],
                              beating := after.beating)
    requires handle.runId in t.rows && t.rows[handle.runId] == WrittenRow(row, handle.queue.running.value.body)
    ensures HandleValid(t, after)
  {
    hide JournalValid, CommitsJournalled;
    JobKeepsSound(handle.queue);
    CommitIsJournalled(handle.cursors, handle.queue.committed, row, handle.queue.running.value);
  }

  lemma CommitMoves(w: World, step: Step, t: World, h: HandleId)
    requires Enabled(w, step) && Commits(w, step) && t == Next(w, step) && h in w.handles
    ensures h in t.handles && w.handles[step.handle].runId in w.rows
    ensures h != step.handle ==> t.handles[h] == w.handles[h]
    ensures h == step.handle ==>
              var handle := w.handles[h]; var row := w.rows[handle.runId];
              && t.handles[h] == handle.(queue := Committed(handle.queue),
                                         cursors := handle.cursors + [row.nextCursor], beating := t.handles[h].beating)
              && handle.runId in t.rows && t.rows[handle.runId] == WrittenRow(row, handle.queue.running.value.body)
  {
  }

  /** A handle that was not there is empty and opened on a row of its repository. */
  lemma FreshHandle(w: World, step: Step, t: World, h: HandleId)
    requires Inv(w) && Enabled(w, step) && t == Next(w, step) && h in t.handles && h !in w.handles
    ensures t.handles[h].queue == EMPTY && t.handles[h].cursors == []
    ensures t.handles[h].runId in t.rows && t.rows[t.handles[h].runId].repoKey == t.handles[h].repoKey
  {
    hide HandleValid, JournalValid, WriteRefusal, WrittenRow, ResumedRow, RecoveredRow, RenewedRow, Enqueued, Started,
         Refused, Latched, Forget, Writing, Reconciled;
    assert step.Return?;
    assert CallValid(w, w.calls[step.call]);
  }

  lemma CallsKept(w: World, step: Step, t: World, c: CallId)
    requires Enabled(w, step) && t == Next(w, step) && c in t.calls && c in w.calls
    ensures t.calls[c] == w.calls[c]
  {
    hide WriteRefusal, WrittenRow, ResumedRow, RecoveredRow, RenewedRow, CreatedRow, Enqueued, Started, Refused,
         Latched, Acknowledged, Forget,
         Writing, Reconciled, Public;
  }

  lemma NewCallIsValid(w: World, step: Step, t: World, c: CallId)
    requires Enabled(w, step) && t == Next(w, step) && c in t.calls && c !in w.calls
    ensures CallValid(t, t.calls[c])
  {
    hide WriteRefusal, WrittenRow, RecoveredRow, RenewedRow, Enqueued, Started, Refused, Latched, Acknowledged, Forget,
         Writing, Reconciled, Public;
  }

  /** What a call knows of its row stays so while journals grow; a new call knows the row it took or read. */
  lemma CallsStayValid(w: World, step: Step, t: World, c: CallId)
    requires Inv(w) && Enabled(w, step) && t == Next(w, step) && JournalsExtend(w, t) && c in t.calls
    ensures CallValid(t, t.calls[c])
  {
    hide Next, Enabled, HandleValid, JournalValid;
    if c in w.calls {
      CallsKept(w, step, t, c);
      assert CallValid(w, w.calls[c]);
      assert JournalExtends(w.rows[w.calls[c].runId], t.rows[w.calls[c].runId]);
    } else { NewCallIsValid(w, step, t, c); }
  }

  lemma EmptyHandleValid(t: World, handle: Handle)
    requires handle.queue == EMPTY && handle.cursors == []
    requires handle.runId in t.rows && t.rows[handle.runId].repoKey == handle.repoKey
    ensures HandleValid(t, handle)
  {
    assert DropsOnlySuperseded([], []) && Select([], []) == [];
    assert InOrder(EMPTY) == [];
  }

  /** Apart from a committed write, a step changes a handle's record, its heartbeat and its queue at most. */
  ghost predicate Moved(before: Handle, after: Handle, write: Write) {
    && after == before.(record := after.record, beating := after.beating, beats := after.beats, queue := after.queue)
    && (|| after.queue == before.queue
        || after.queue == Enqueued(before.queue, write)
        || after.queue == Latched(before.queue) || after.queue == Acknowledged(before.queue)
        || after.queue == Latched(Acknowledged(before.queue))
        || (before.queue.running.Some? && after.queue == Refused(before.queue))
        || (Idle(before.queue) && before.queue.waiting != [] && after.queue == Started(before.queue)))
  }

  predicate ActsOn(step: Step, h: HandleId) {
    match step
    case SetRecord(g, _, _) => g == h
    case AppendEvent(g, _, _) => g == h
    case StartJob(g) => g == h
    case FinishJob(g, _) => g == h
    case Acknowledge(g, _) => g == h
    case Beat(g) => g == h
    case Renew(g, _, _) => g == h
    case _ => false
  }

  lemma Untouched(w: World, step: Step, t: World, h: HandleId)
    requires Enabled(w, step) && h in w.handles && t == Next(w, step) && !ActsOn(step, h)
    ensures h in t.handles && t.handles[h] == w.handles[h]
  {
    hide WriteRefusal, WrittenRow, ResumedRow, RecoveredRow, RenewedRow, Enqueued, Started, Refused, Latched,
         Acknowledged, Forget, Writing,
         Reconciled, Public;
  }

  lemma HandleMoves(w: World, step: Step, t: World, h: HandleId) returns (write: Write)
    requires Enabled(w, step) && h in w.handles && t == Next(w, step) && !Commits(w, step)
    ensures PublicWrite(write) && h in t.handles && Moved(w.handles[h], t.handles[h], write)
  {
    write := Write(SessionEvent("", 0), false);
    if !ActsOn(step, h) {
      Untouched(w, step, t, h);
    } else {
      hide WriteRefusal, WrittenRow, ResumedRow, RecoveredRow, RenewedRow, Enqueued, Started, Refused, Latched,
           Acknowledged, Forget, Writing,
           Reconciled, Committed, Renewable, Refusal, CreatedRow, AfterCall;
      match step
      case SetRecord(_, record, coalesce) => write := Write(RunEvent(Public(record)), coalesce);
      case AppendEvent(_, sessionId, number) => write := Write(SessionEvent(sessionId, number), false);
      case _ =>
    }
  }

  lemma MovedHandleValid(w: World, t: World, before: Handle, after: Handle, write: Write)
    requires HandleValid(w, before) && JournalsExtend(w, t) && PublicWrite(write) && Moved(before, after, write)
    ensures HandleValid(t, after)
  {
    hide QueueSound, Enqueued, Latched, Refused, Started, Acknowledged, CommitsJournalled;
    EnqueueKeepsSound(before.queue, write, Enqueued(before.queue, write));
    JobKeepsSound(before.queue);
    JobKeepsSound(Acknowledged(before.queue));
    ExtensionKeepsHandle(w, t, before);
  }

  lemma HandleStaysValid(w: World, step: Step, t: World, h: HandleId)
    requires Inv(w) && Enabled(w, step) && t == Next(w, step) && JournalsExtend(w, t) && h in t.handles
    ensures HandleValid(t, t.handles[h])
  {
    hide Next, Enabled, HandleValid, JournalValid, JournalsExtend, Commits, Moved, PublicWrite;
    if h !in w.handles {
      FreshHandle(w, step, t, h);
      EmptyHandleValid(t, t.handles[h]);
    } else if Commits(w, step) {
      assert HandleValid(w, w.handles[h]);
      IsFinish(w, step);
      CommitMoves(w, step, t, h);
      if h == step.handle { WriteKeepsHandle(w, w.handles[h], w.rows[w.handles[h].runId], t, t.handles[h]); }
      else { ExtensionKeepsHandle(w, t, w.handles[h]); }
    } else {
      assert HandleValid(w, w.handles[h]);
      var write := HandleMoves(w, step, t, h);
      MovedHandleValid(w, t, w.handles[h], t.handles[h], write);
    }
  }

  lemma IsFinish(w: World, step: Step)
    requires Enabled(w, step) && Commits(w, step)
    ensures step.FinishJob? && step.handle in w.handles && w.handles[step.handle].queue.running.Some?
  {
  }

  /** Every step of every process keeps the journal invariant. */
  lemma StepKeepsInvariant(w: World, step: Step)
    requires Inv(w) && Enabled(w, step)
    ensures Inv(Next(w, step))
  {
    StepKeepsJournals(w, step);
    hide Next, Enabled, HandleValid, JournalValid, JournalsExtend, CallValid;
    var t := Next(w, step);
    forall h | h in t.handles
      ensures HandleValid(t, t.handles[h])
    {
      HandleStaysValid(w, step, t, h);
    }
    forall c | c in t.calls
      ensures CallValid(t, t.calls[c])
    {
      CallsStayValid(w, step, t, c);
    }
  }

  // --- Over whole runs ---------------------------------------------------------------

  /** Every reachable state satisfies the invariant, and journals only ever grow. */
  lemma {:induction false} RunKeepsInvariant(w: World, steps: seq<Step>)
    requires Inv(w) && Allowed(w, steps)
    ensures Inv(After(w, steps)) && JournalsExtend(w, After(w, steps))
    decreases |steps|
  {
    if steps != [] {
      StepKeepsInvariant(w, steps[0]);
      StepKeepsJournals(w, steps[0]);
      var t := Next(w, steps[0]);
      RunKeepsInvariant(t, steps[1..]);
      forall runId | runId in w.rows
        ensures runId in After(w, steps).rows && JournalExtends(w.rows[runId], After(w, steps).rows[runId])
      {
        assert JournalExtends(w.rows[runId], t.rows[runId]);
        assert JournalExtends(t.rows[runId], After(t, steps[1..]).rows[runId]);
      }
    }
  }

  /**
   * The journal, stated of every run from an empty database: no gap, newest
   * snapshot stored, owned exactly while running.
   */
  lemma JournalHoldsThroughout(steps: seq<Step>, runId: RunId)
    requires Allowed(START, steps) && runId in After(START, steps).rows
    ensures var row := After(START, steps).rows[runId];
            && (forall cursor: nat :: cursor in row.events <==> cursor < row.nextCursor)
            && LatestRun(row.events, row.nextCursor) == Some(row.record)
            && row.record.endpoint.None?
            && (row.owner.Some? <==> row.record.status.Running?)
            && (row.lease.Some? <==> row.record.status.Running?)
  {
    RunKeepsInvariant(START, steps);
    var _ := LatestRunIsJournalled(After(START, steps).rows[runId].events, After(START, steps).rows[runId].nextCursor);
  }

  /** In every run: however many checklist updates a handle is offered, no two of them wait next to each other. */
  lemma ChecklistsMerge(steps: seq<Step>, h: HandleId)
    requires Allowed(START, steps) && h in After(START, steps).handles
    ensures var waiting := After(START, steps).handles[h].queue.waiting;
            forall i | 0 < i < |waiting| :: !(waiting[i - 1].coalesce && waiting[i].coalesce)
  {
    RunKeepsInvariant(START, steps);
    assert HandleValid(After(START, steps), After(START, steps).handles[h]);
  }

  lemma {:induction false} LatestRunIsJournalled(events: map<nat, Body>, n: nat) returns (cursor: nat)
    ensures LatestRun(events, n).Some? ==>
              && cursor < n && cursor in events && events[cursor] == RunEvent(LatestRun(events, n).value)
              && forall later: nat | cursor < later < n && later in events :: !events[later].RunEvent?
  {
    cursor := 0;
    if n > 0 {
      if n - 1 in events && events[n - 1].RunEvent? { cursor := n - 1; }
      else { cursor := LatestRunIsJournalled(events, n - 1); }
    }
  }

  // --- What a clean flush guarantees ----------------------------------------------------

  lemma {:induction false} LastSnapshotAt(writes: seq<Write>) returns (at: nat)
    ensures LastSnapshot(writes).Some? ==>
              && at < |writes| && writes[at].body == RunEvent(LastSnapshot(writes).value)
              && forall later | at < later < |writes| :: !writes[later].body.RunEvent?
  {
    at := 0;
    if writes != [] {
      if writes[|writes| - 1].body.RunEvent? { at := |writes| - 1; }
      else { at := LastSnapshotAt(writes[..|writes| - 1]); }
    }
  }

  lemma SnapshotStands(row: Row, cursors: seq<nat>, committed: seq<Write>) returns (later: nat)
    requires JournalValid(row) && CommitsJournalled(cursors, committed, row)
    ensures LastSnapshot(committed).Some? && row.record != LastSnapshot(committed).value ==>
              && later in row.events && row.events[later].RunEvent? && later !in cursors
              && forall i | 0 <= i < |cursors| && committed[i].body.RunEvent? :: cursors[i] < later
  {
    var at := LastSnapshotAt(committed);
    later := LatestRunIsJournalled(row.events, row.nextCursor);
    if LastSnapshot(committed).Some? && row.record != LastSnapshot(committed).value {
      assert row.events[cursors[at]] == RunEvent(LastSnapshot(committed).value);
      assert cursors[at] < later;
      forall i | 0 <= i < |cursors| && (committed[i].body.RunEvent? || cursors[i] == later)
        ensures cursors[i] < later
      {
        assert i <= at;
      }
    }
  }

  /**
   * A handle flushed without a failure has its whole offering in the journal, in order, less superseded
   * checklist snapshots; and the stored record is its last snapshot unless someone else journalled a later one.
   */
  lemma CleanFlush(w: World, h: HandleId)
    requires Inv(w) && h in w.handles
    requires w.handles[h].queue.waiting == [] && w.handles[h].queue.running.None? && !w.handles[h].queue.failed
    ensures var q := w.handles[h].queue;
              Coalesces(q.offered, q.committed) && Barriers(q.committed) == Barriers(q.offered)
    ensures w.handles[h].runId in w.rows
    ensures CommitsJournalled(w.handles[h].cursors, w.handles[h].queue.committed, w.rows[w.handles[h].runId])
    ensures var handle, row := w.handles[h], w.rows[w.handles[h].runId];
            var last := LastSnapshot(handle.queue.offered);
            last.Some? && row.record != last.value ==>
              exists later: nat :: later in row.events && row.events[later].RunEvent? && later !in handle.cursors
                && forall i | 0 <= i < |handle.cursors| && handle.queue.committed[i].body.RunEvent? ::
                    handle.cursors[i] < later
  {
    var q := w.handles[h].queue;
    assert HandleValid(w, w.handles[h]);
    assert InOrder(q) == q.committed;
    CoalescingKeepsBarriers(q.offered, q.committed);
    var _ := SnapshotStands(w.rows[w.handles[h].runId], w.handles[h].cursors, q.committed);
  }
}
