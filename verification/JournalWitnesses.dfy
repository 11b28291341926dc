/**
 * Runs of the activity journal that show where its fences end (packages/data-store/src/session-run-store.ts).
 */
module JournalWitnesses {
  import opened Common
  import opened ActivityJournal
  import opened WriteQueue
  import opened JournalRuns
  import opened JournalFences

  ghost predicate Reachable(w: World) {
    exists steps :: Allowed(START, steps) && After(START, steps) == w
  }

  lemma {:induction false} AppendStep(from: World, steps: seq<Step>, step: Step)
    requires Allowed(from, steps) && Enabled(After(from, steps), step)
    ensures Allowed(from, steps + [step])
    ensures After(from, steps + [step]) == Next(After(from, steps), step)
    decreases |steps|
  {
    var longer := steps + [step];
    if steps == [] {
      assert longer[1..] == [];
    } else {
      AppendStep(Next(from, steps[0]), steps[1..], step);
      assert longer[1..] == steps[1..] + [step];
    }
  }

  lemma Take(at: World, step: Step) returns (w: World)
    requires Reachable(at) && Enabled(at, step)
    ensures Reachable(w) && w == Next(at, step)
  {
    var steps :| Allowed(START, steps) && After(START, steps) == at;
    AppendStep(START, steps, step);
    w := Next(at, step);
  }

  /** A handle's job queued, run and settled with nothing else in between. */
  lemma WriteNow(at: World, h: HandleId, record: Record, databaseUp: bool) returns (w: World)
    requires Reachable(at) && h in at.handles && at.handles[h].runId in at.rows
    requires var q := at.handles[h].queue; q.waiting == [] && Idle(q) && !q.failed && !q.mergeable
    ensures Reachable(w)
    ensures var handle, row := at.handles[h], at.rows[at.handles[h].runId];
            var write := Write(RunEvent(Public(record)), false);
            var refused := WriteRefusal(at.rows, handle.runId, handle.repoKey, handle.process, handle.owned,
                                        write.body);
            var ended := !record.status.Running?;
            var q := handle.queue.(offered := handle.queue.offered + [write]);
            w == if databaseUp && refused.None? then
                   at.(rows := at.rows[handle.runId := WrittenRow(row, write.body)],
                       handles := at.handles[h := handle.(record := record, beating := handle.beating && !ended,
                         queue := q.(committed := q.committed + [write]),
                             cursors := handle.cursors + [row.nextCursor])],
                       live := if ended then Forget(at, handle) else at.live)
                 else
                   at.(handles := at.handles[h := handle.(record := record, beating := false,
                         queue := q.(failed := true, lost := [write]))],
                       live := Forget(at, handle))
  {
    w := StartNow(at, h, record);
    var queue := w.handles[h].queue;
    w := Take(w, FinishJob(h, databaseUp));
    assert Refused(queue).lost == [queue.running.value];
    if w.handles[h].queue.unacknowledged.Some? { w := Take(w, Acknowledge(h, true)); }
  }

  /** A handle's setter called and its job begun: its transaction is under way. */
  lemma StartNow(at: World, h: HandleId, record: Record) returns (w: World)
    requires Reachable(at) && h in at.handles
    requires var q := at.handles[h].queue; q.waiting == [] && Idle(q) && !q.failed && !q.mergeable
    ensures Reachable(w)
    ensures var handle := at.handles[h];
            var write := Write(RunEvent(Public(record)), false);
            w == at.(handles := at.handles[h := handle.(record := record,
                   queue := handle.queue.(offered := handle.queue.offered + [write], running := Some(write)))])
  {
    var write := Write(RunEvent(Public(record)), false);
    w := Take(at, SetRecord(h, record, false));
    assert w.handles[h].queue.waiting == [write];
    w := Take(w, StartJob(h));
    assert w.handles[h].queue.waiting == [];
  }

  const FIRST: Record := StartRecord("", 0)
  const PAUSED: Record := FIRST.(status := Paused)
  const PAUSING: Write := Write(RunEvent(PAUSED), false)

  /** Process 0 creates run 0. */
  lemma Created() returns (w: World)
    ensures Reachable(w)
    ensures w == World(0, map[0 := CreatedRow(0, "", "", 0)], map[0 := NewHandle(0, "", 0, true, FIRST)],
                       map[LiveKey(0, 0) := 0], map[])
  {
    assert After(START, []) == START;
    w := Take(START, Create(0, 0, 0, "", ""));
    w := Take(w, Return(0, 0));
  }

  /** Process 0 resumes run 0 under a second handle, with nothing else in between. */
  lemma ResumeNow(at: World, c: CallId) returns (w: World)
    requires Reachable(at) && c !in at.calls && 1 !in at.handles && 0 in at.rows && at.rows[0].repoKey == ""
    requires at.rows[0].record == PAUSED
    ensures Reachable(w)
    ensures w == at.(rows := at.rows[0 := ResumedRow(at.rows[0], 0, at.now)],
                     handles := at.handles[1 := NewHandle(0, "", 0, true, FIRST)],
                     live := at.live[LiveKey(0, 0) := 1])
    ensures w.rows[0].record == FIRST && w.rows[0].owner == Some(0) && w.rows[0].lease == Some(at.now + LEASE_MS)
  {
    assert ResumedRecord(PAUSED) == FIRST;
    w := Take(at, Resume(0, c, 0, ""));
    w := Take(w, Return(c, 1));
    assert w.calls == at.calls;
  }

  /** Process 0 creates run 0, pauses it, and resumes it under a second handle. */
  lemma PausedAndResumed() returns (w: World)
    ensures Reachable(w)
    ensures w.rows.Keys == {0} && w.rows[0].owner == Some(0) && w.rows[0].repoKey == "" && w.rows[0].record == FIRST
    ensures w.rows[0].lease == Some(LEASE_MS) && w.now == 0
    ensures w.handles.Keys == {0, 1} && w.handles[1] == NewHandle(0, "", 0, true, FIRST)
    ensures w.handles[0].process == 0 && w.handles[0].runId == 0 && w.handles[0].repoKey == "" && w.handles[0].owned
    ensures var q := w.handles[0].queue; q.waiting == [] && Idle(q) && !q.failed && !q.mergeable
    ensures w.live == map[LiveKey(0, 0) := 1]
  {
    w := Created();
    w := WriteNow(w, 0, PAUSED, true);
    w := ResumeNow(w, 0);
  }

  /**
   * The fence is per process, not per handle: the superseded handle of the same process still commits,
   * ends the run under its successor, and leaves the successor refused.
   */
  lemma SupersededHandleStillWrites() returns (w: World)
    ensures Reachable(w)
    ensures 0 in w.rows && w.rows[0].record == PAUSED && w.rows[0].owner.None?
    ensures 1 in w.handles && w.handles[1].owned && w.handles[1].queue.running.Some? && Refusal(w, 1) == Some(LostLease)
  {
    w := PausedAndResumed();
    w := WriteNow(w, 0, PAUSED, true);
    w := Take(w, AppendEvent(1, "", 0));
    w := Take(w, StartJob(1));
  }

  /**
   * A heartbeat's failure does not call back a transaction under way: the write commits after the latch, and
   * ends the run, although its process had given the run up.
   */
  lemma LatchedWriteStillCommits() returns (latched: World, w: World)
    ensures Reachable(latched) && Reachable(w)
    ensures latched.handles.Keys == {0} && latched.handles[0].queue.failed && latched.live == map[]
    ensures 0 in latched.rows && latched.rows[0].record == FIRST && latched.rows[0].owner == Some(0)
    ensures 0 in w.rows && w.rows[0].record == PAUSED && w.rows[0].owner.None?
    ensures 0 in w.handles && w.handles[0].queue.committed == latched.handles[0].queue.committed + [PAUSING]
  {
    latched := PausingAndLatched();
    w := Take(latched, FinishJob(0, true));
  }

  /** Process 0 creates run 0 and is pausing it when a heartbeat of its fails. */
  lemma PausingAndLatched() returns (w: World)
    ensures Reachable(w)
    ensures w.rows == map[0 := CreatedRow(0, "", "", 0)] && w.live == map[]
    ensures w.handles == map[0 := NewHandle(0, "", 0, true, FIRST).(beating := false, record := PAUSED,
                               queue := EMPTY.(offered := [PAUSING], running := Some(PAUSING), failed := true))]
  {
    w := Created();
    w := StartNow(w, 0, PAUSED);
    assert w.handles[0].queue == EMPTY.(offered := [PAUSING], running := Some(PAUSING));
    w := Take(w, Beat(0));
    w := Take(w, Renew(0, false, false));
    assert w.handles.Keys == {0};
  }

  /**
   * A superseded handle's failure makes its process forget the run its successor is writing, so that
   * process's own sweep can take it, although the successor is alive and unfailed.
   */
  lemma StaleFailureExposesLiveRun() returns (w: World, swept: World)
    ensures Reachable(w) && SweptAlive(w, 1, swept)
  {
    w := PausedAndResumed();
    w := WriteNow(w, 0, PAUSED, false);
    assert w.live == map[];
    w, swept := ForgottenIsSwept(w);
  }

  /** The process owns the run, its handle on it is alive and unfailed, and its own sweep interrupts it. */
  ghost predicate SweptAlive(w: World, h: HandleId, swept: World) {
    && h in w.handles && w.handles[h].process == 0 && w.handles[h].runId == 0 && w.handles[h].owned
        && w.handles[h].beating
    && !w.handles[h].queue.failed
    && 0 in w.rows && w.rows[0].owner == Some(0)
    && swept == Next(w, Reconcile(0, None)) && 0 in swept.rows && swept.rows[0].record.status.Interrupted?
  }

  /** With the run off its live map a process's sweep interrupts it once its lease has run out. */
  lemma ForgottenIsSwept(at: World) returns (w: World, swept: World)
    requires Reachable(at) && at.live == map[] && at.now == 0
    requires 1 in at.handles && at.handles[1].process == 0 && at.handles[1].runId == 0 && at.handles[1].owned
    requires at.handles[1].beating
    requires !at.handles[1].queue.failed
    requires 0 in at.rows && at.rows[0].owner == Some(0) && at.rows[0].record == FIRST
    requires at.rows[0].lease == Some(LEASE_MS)
    ensures Reachable(w) && SweptAlive(w, 1, swept) && w == at.(now := 60001)
  {
    w := Take(at, Tick(60001));
    swept := Next(w, Reconcile(0, None));
  }

  /** Process 0's handle has committed the pause, and its process has yet to hear of it. */
  lemma PausedUnheard() returns (w: World)
    ensures Reachable(w) && w.now == 0 && w.calls == map[] && w.live == map[LiveKey(0, 0) := 0] && w.handles.Keys == {0}
    ensures w.handles[0].process == 0 && w.handles[0].runId == 0 && w.handles[0].queue.unacknowledged == Some(PAUSING)
    ensures w.handles[0].record.status.Paused? && !w.handles[0].queue.failed
    ensures w.rows.Keys == {0} && w.rows[0].repoKey == "" && w.rows[0].record == PAUSED
  {
    w := Created();
    w := StartNow(w, 0, PAUSED);
    w := Take(w, FinishJob(0, true));
  }

  /**
   * A pause commits, the same process resumes the run, and only then hears of the pause: the old handle's
   * acknowledgement takes the new handle's run off the live map, without a failure anywhere.
   */
  lemma LateAcknowledgementExposesLiveRun() returns (w: World, swept: World)
    ensures Reachable(w) && SweptAlive(w, 1, swept)
    ensures forall h | h in w.handles :: !w.handles[h].queue.failed
  {
    w := PausedUnheard();
    w := ResumeNow(w, 0);
    w := Take(w, Acknowledge(0, true));
    assert w.live == map[];
    w, swept := ForgottenIsSwept(w);
  }

  /**
   * An open reads the run paused; the same process resumes it before the open goes on, and loses it from the live map.
   */
  lemma StaleReadExposesLiveRun() returns (w: World, swept: World)
    ensures Reachable(w) && SweptAlive(w, 1, swept)
    ensures forall h | h in w.handles :: !w.handles[h].queue.failed
  {
    w := ReadPaused();
    w := ResumeNow(w, 1);
    w := Take(w, Return(0, 2));
    assert w.live == map[];
    w, swept := ForgottenIsSwept(w);
  }

  /** Process 0 has paused its run 0, and an open of its has read it so and not gone on. */
  lemma ReadPaused() returns (w: World)
    ensures Reachable(w) && w.now == 0 && w.live == map[] && w.handles.Keys == {0} && !w.handles[0].queue.failed
    ensures w.calls == map[0 := Call(false, 0, "", 0, PAUSED)]
    ensures w.rows.Keys == {0} && w.rows[0].repoKey == "" && w.rows[0].record == PAUSED
  {
    w := Created();
    w := WriteNow(w, 0, PAUSED, true);
    w := Take(w, Read(0, 0, 0, ""));
  }
}
