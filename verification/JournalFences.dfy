/**
 * Who may still write to a run, and whose runs a sweep may take (packages/data-store/src/session-run-store.ts).
 */
module JournalFences {
  // What is proved of every run of `JournalRuns`:
  //  - a process that lost a run to another writes nothing more to it until it resumes it itself;
  //  - a terminal run returns to running only by a resume;
  //  - a run is on a process's live map exactly while it stands since the process took it, and is open to that
  //    process's sweep exactly when it does not;
  //  - a handle can still commit exactly while its process owns the run and it has a job;
  //  - after its failure latched a handle commits at most the write that was under way.

  import opened Common
  import opened ActivityJournal
  import opened WriteQueue
  import opened JournalRuns

  // --- Fencing -----------------------------------------------------------------------

  predicate ResumesAs(step: Step, p: Process, runId: RunId) {
    step.Resume? && step.process == p && step.runId == runId
  }

  /** The writes process `p` has committed to `runId` through handles it owns. */
  ghost predicate SameCommits(w: World, t: World, p: Process, runId: RunId) {
    forall h | h in w.handles && w.handles[h].process == p && w.handles[h].owned && w.handles[h].runId == runId ::
      && h in t.handles
      && t.handles[h].process == p && t.handles[h].owned && t.handles[h].runId == runId
      && t.handles[h].queue.committed == w.handles[h].queue.committed
  }

  ghost predicate Uncommitted(before: Handle, after: Handle) {
    && after.process == before.process && after.owned == before.owned && after.runId == before.runId
    && after.queue.committed == before.queue.committed
  }

  lemma FencedCommits(w: World, step: Step, t: World, h: HandleId)
    requires Enabled(w, step) && t == Next(w, step) && h in w.handles && w.handles[h].owned
    requires w.handles[h].runId in w.rows && w.rows[w.handles[h].runId].owner != Some(w.handles[h].process)
    ensures h in t.handles && Uncommitted(w.handles[h], t.handles[h])
  {
    if Commits(w, step) {
      assert step.handle != h;
      CommitMoves(w, step, t, h);
    } else {
      hide Next, Enabled, Commits;
      var write := HandleMoves(w, step, t, h);
    }
  }

  lemma FencedStep(w: World, step: Step, p: Process, runId: RunId)
    requires Enabled(w, step) && runId in w.rows
    requires w.rows[runId].owner != Some(p) && !ResumesAs(step, p, runId)
    ensures runId in Next(w, step).rows && Next(w, step).rows[runId].owner != Some(p)
    ensures SameCommits(w, Next(w, step), p, runId)
  {
    RowMoves(w, step, runId);
    assert step.Resume? && step.runId != runId ==> Next(w, step).rows[runId] == w.rows[runId];
    hide Next, Enabled;
    var t := Next(w, step);
    forall h | h in w.handles && w.handles[h].process == p && w.handles[h].owned && w.handles[h].runId == runId
      ensures h in t.handles && Uncommitted(w.handles[h], t.handles[h])
    {
      FencedCommits(w, step, t, h);
    }
  }

  /** A process that does not own a run commits nothing to it, over any run, until it resumes it itself. */
  lemma {:induction false} FencedUntilResumed(w: World, steps: seq<Step>, p: Process, runId: RunId)
    requires Inv(w) && Allowed(w, steps) && runId in w.rows
    requires w.rows[runId].owner != Some(p)
    requires forall i | 0 <= i < |steps| :: !ResumesAs(steps[i], p, runId)
    ensures runId in After(w, steps).rows && After(w, steps).rows[runId].owner != Some(p)
    ensures SameCommits(w, After(w, steps), p, runId)
    decreases |steps|
  {
    if steps != [] {
      StepKeepsInvariant(w, steps[0]);
      FencedStep(w, steps[0], p, runId);
      FencedUntilResumed(Next(w, steps[0]), steps[1..], p, runId);
    }
  }

  /** Another process's resume, and any process's sweep of it, fence the old owner. */
  lemma TakingFences(w: World, step: Step, p: Process, runId: RunId)
    requires Inv(w) && Enabled(w, step) && runId in w.rows
    requires || (step.Resume? && step.process != p && step.runId == runId)
             || (step.Reconcile? && Next(w, step).rows[runId] != w.rows[runId])
    ensures Next(w, step).rows[runId].owner != Some(p)
  {
    RowMoves(w, step, runId);
  }

  lemma TerminalStep(w: World, step: Step, runId: RunId)
    requires Enabled(w, step) && runId in w.rows && !w.rows[runId].record.status.Running?
    requires !(step.Resume? && step.runId == runId)
    ensures runId in Next(w, step).rows && !Next(w, step).rows[runId].record.status.Running?
  {
    RowMoves(w, step, runId);
    assert step.Resume? ==> Next(w, step).rows[runId] == w.rows[runId];
  }

  /** A terminal run goes back to running only by a resume of that run. */
  lemma {:induction false} TerminalUntilResumed(w: World, steps: seq<Step>, runId: RunId) returns (at: nat)
    requires Inv(w) && Allowed(w, steps) && runId in w.rows && !w.rows[runId].record.status.Running?
    requires runId in After(w, steps).rows && After(w, steps).rows[runId].record.status.Running?
    ensures at < |steps| && steps[at].Resume? && steps[at].runId == runId
    decreases |steps|
  {
    hide Next, Enabled, Inv;
    StepKeepsInvariant(w, steps[0]);
    if steps[0].Resume? && steps[0].runId == runId {
      at := 0;
    } else {
      TerminalStep(w, steps[0], runId);
      var rest := TerminalUntilResumed(Next(w, steps[0]), steps[1..], runId);
      at := rest + 1;
    }
  }

  /** A sweep takes a run exactly when it runs on a lapsed lease, in scope, unknown to the sweeping process. */
  lemma SweepTakesExactly(w: World, p: Process, repoKeys: Option<set<string>>, runId: RunId)
    requires Inv(w) && runId in w.rows
    ensures Next(w, Reconcile(p, repoKeys)).rows[runId] != w.rows[runId] <==>
              && w.rows[runId].record.status.Running?
              && w.rows[runId].lease.value < w.now
              && (repoKeys.Some? ==> w.rows[runId].repoKey in repoKeys.value)
              && LiveKey(p, runId) !in w.live
    ensures Next(w, Reconcile(p, repoKeys)).rows[runId] != w.rows[runId] ==>
              && Next(w, Reconcile(p, repoKeys)).rows[runId].record.status.Interrupted?
              && Next(w, Reconcile(p, repoKeys)).rows[runId].owner.None?
  {
    assert JournalValid(w.rows[runId]);
    assert runId in Writing(w, p) <==> LiveKey(p, runId) in w.live;
  }

  // --- Which of its own runs a process's sweep may take -----------------------------------

  /** The process's sweep, here and now, leaves the run as it is. */
  predicate Spares(w: World, p: Process, repoKeys: Option<set<string>>, runId: RunId) {
    && runId in w.rows
    && var swept := Next(w, Reconcile(p, repoKeys)).rows;
       runId in swept && swept[runId] == w.rows[runId]
  }

  predicate Writes(handle: Handle, p: Process, runId: RunId) { handle.process == p && handle.runId == runId }

  predicate Takes(step: Step, p: Process, runId: RunId) {
    (step.Create? || step.Resume?) && step.process == p && step.runId == runId
  }

  /**
   * The step calls `fail` for the first time on its handle: a transaction, acknowledgement or renewal refused or lost.
   */
  predicate Fails(w: World, step: Step)
    requires Enabled(w, step)
  {
    match step
    case FinishJob(h, databaseUp) => !w.handles[h].queue.failed && !(databaseUp && Refusal(w, h).None?)
    case Acknowledge(h, arrived) => !w.handles[h].queue.failed && !arrived
    case Renew(h, committed, arrived) =>
      && !w.handles[h].queue.failed
      && !(arrived && committed && (Renewable(w, w.handles[h]) || !w.handles[h].record.status.Running?))
    case _ => false
  }

  predicate FailsOn(w: World, step: Step, p: Process, runId: RunId)
    requires Enabled(w, step)
  {
    Fails(w, step) && Writes(w.handles[step.handle], p, runId)
  }

  /** A handle of the process on the run hears that a write of its ended the run. */
  predicate HearsEnd(w: World, step: Step, p: Process, runId: RunId)
    requires Enabled(w, step)
  {
    && step.Acknowledge? && step.arrived
    && Writes(w.handles[step.handle], p, runId) && Ends(w.handles[step.handle].queue.unacknowledged.value)
  }

  predicate IsCall(call: Call, taking: bool, p: Process, runId: RunId) {
    call.taking == taking && call.process == p && call.runId == runId
  }

  /** An open of the run by the process goes on from a read that found it ended, not as the live handle has it. */
  predicate OpensEnded(w: World, step: Step, p: Process, runId: RunId)
    requires Enabled(w, step)
  {
    step.Return? && IsCall(w.calls[step.call], false, p, runId) && Displaces(w, w.calls[step.call])
  }

  /** A create or resume of the run by the process returns. */
  predicate Grants(w: World, step: Step, p: Process, runId: RunId)
    requires Enabled(w, step)
  {
    step.Return? && IsCall(w.calls[step.call], true, p, runId)
  }

  predicate Drops(w: World, step: Step, p: Process, runId: RunId)
    requires Enabled(w, step)
  {
    FailsOn(w, step, p, runId) || HearsEnd(w, step, p, runId) || OpensEnded(w, step, p, runId)
  }

  lemma StepMovesLive(w: World, step: Step, p: Process, runId: RunId)
    requires Enabled(w, step)
    ensures LiveKey(p, runId) in Next(w, step).live <==>
              Grants(w, step, p, runId) || (LiveKey(p, runId) in w.live && !Drops(w, step, p, runId))
  {
    hide Enqueued, Started, Committed, Refused, Latched, Acknowledged, WriteRefusal, WrittenRow, ResumedRow,
         RecoveredRow, RenewedRow,
         CreatedRow, Reconciled, Public;
  }

  lemma {:induction false} SplitLast(from: World, steps: seq<Step>)
    requires Allowed(from, steps) && steps != []
    ensures Allowed(from, steps[..|steps| - 1])
    ensures Enabled(After(from, steps[..|steps| - 1]), steps[|steps| - 1])
    ensures After(from, steps) == Next(After(from, steps[..|steps| - 1]), steps[|steps| - 1])
    decreases |steps|
  {
    if |steps| > 1 {
      SplitLast(Next(from, steps[0]), steps[1..]);
      assert steps[1..][..|steps| - 2] == steps[..|steps| - 1][1..];
    } else {
      assert steps[..0] == [] && steps[1..] == [];
    }
  }

  ghost predicate At(steps: seq<Step>, j: nat) {
    j < |steps| && Allowed(START, steps[..j]) && Enabled(After(START, steps[..j]), steps[j])
  }

  ghost predicate GrantedAt(steps: seq<Step>, j: nat, p: Process, runId: RunId) {
    At(steps, j) && Grants(After(START, steps[..j]), steps[j], p, runId)
  }

  ghost predicate DroppedAt(steps: seq<Step>, j: nat, p: Process, runId: RunId) {
    At(steps, j) && Drops(After(START, steps[..j]), steps[j], p, runId)
  }

  /**
   * Since a create or resume of the run by the process returned, no handle of it on the run failed, none heard
   * that a write of its ended the run, and no open went on from a read that found it ended.
   */
  ghost predicate StandsSinceTaken(steps: seq<Step>, p: Process, runId: RunId) {
    exists j: nat :: GrantedAt(steps, j, p, runId) && forall i: nat | j < i :: !DroppedAt(steps, i, p, runId)
  }

  lemma StandsSinceTakenGrows(steps: seq<Step>, p: Process, runId: RunId)
    requires Allowed(START, steps) && steps != []
    ensures var n := |steps| - 1;
            && Allowed(START, steps[..n]) && Enabled(After(START, steps[..n]), steps[n])
            && (StandsSinceTaken(steps, p, runId) <==>
                 || Grants(After(START, steps[..n]), steps[n], p, runId)
                 || (StandsSinceTaken(steps[..n], p, runId) && !Drops(After(START, steps[..n]), steps[n], p, runId)))
  {
    hide Grants, Drops, Enabled, After, Allowed;
    SplitLast(START, steps);
    var n, front := |steps| - 1, steps[..|steps| - 1];
    forall j: nat | j < n
      ensures GrantedAt(front, j, p, runId) <==> GrantedAt(steps, j, p, runId)
      ensures DroppedAt(front, j, p, runId) <==> DroppedAt(steps, j, p, runId)
    {
      assert front[..j] == steps[..j];
    }
    if StandsSinceTaken(steps, p, runId) {
      var j: nat :| GrantedAt(steps, j, p, runId) && forall i: nat | j < i :: !DroppedAt(steps, i, p, runId);
      if j < n {
        assert GrantedAt(front, j, p, runId) && !DroppedAt(steps, n, p, runId);
        assert forall i: nat | j < i :: !DroppedAt(front, i, p, runId);
      }
    }
    if Grants(After(START, front), steps[n], p, runId) { assert GrantedAt(steps, n, p, runId); }
    if StandsSinceTaken(front, p, runId) && !Drops(After(START, front), steps[n], p, runId) {
      var j: nat :| GrantedAt(front, j, p, runId) && forall i: nat | j < i :: !DroppedAt(front, i, p, runId);
      assert GrantedAt(steps, j, p, runId);
      assert forall i: nat | j < i :: !DroppedAt(steps, i, p, runId);
    }
  }

  /** In every run: a run is on a process's live map exactly while it stands since the process took it. */
  lemma {:induction false} LiveExactlyWhileItStands(steps: seq<Step>, p: Process, runId: RunId)
    requires Allowed(START, steps)
    ensures LiveKey(p, runId) in After(START, steps).live <==> StandsSinceTaken(steps, p, runId)
    decreases |steps|
  {
    hide Enabled, Next, Grants, Drops, StandsSinceTaken;
    if steps == [] {
      NothingStands(p, runId);
    } else {
      SplitLast(START, steps);
      StandsSinceTakenGrows(steps, p, runId);
      var front, last := steps[..|steps| - 1], steps[|steps| - 1];
      StepMovesLive(After(START, front), last, p, runId);
      LiveExactlyWhileItStands(front, p, runId);
    }
  }

  lemma NothingStands(p: Process, runId: RunId)
    ensures !StandsSinceTaken([], p, runId)
  {
  }

  lemma StartIsSound()
    ensures Inv(START)
  {
  }

  /** So a sweep takes a run of its own process exactly on a lapsed lease, in scope, when the run no longer stands. */
  lemma SweepTakesOwnRunExactlyWhen(steps: seq<Step>, p: Process, repoKeys: Option<set<string>>, runId: RunId)
    requires Allowed(START, steps)
    requires runId in After(START, steps).rows && After(START, steps).rows[runId].owner == Some(p)
    ensures var w := After(START, steps); var row := w.rows[runId];
            !Spares(w, p, repoKeys, runId) <==>
              && row.lease.Some? && row.lease.value < w.now
              && (repoKeys.Some? ==> row.repoKey in repoKeys.value)
              && !StandsSinceTaken(steps, p, runId)
  {
    hide StandsSinceTaken;
    StartIsSound();
    RunKeepsInvariant(START, steps);
    LiveExactlyWhileItStands(steps, p, runId);
    SweepTakesExactly(After(START, steps), p, repoKeys, runId);
    assert JournalValid(After(START, steps).rows[runId]);
  }

  // --- A resume over spent handles -----------------------------------------------------------

  /** Nothing of the handle is under way: flushed with its heartbeat stopped and answered, or failed. */
  predicate Spent(handle: Handle) {
    && Idle(handle.queue) && handle.queue.waiting == []
    && (handle.queue.failed || (!handle.beating && handle.beats == 0))
  }

  /** A setter or an append on the handle. */
  predicate Calls(step: Step, h: HandleId) {
    (step.SetRecord? || step.AppendEvent?) && step.handle == h
  }

  lemma SpentStaysSpent(w: World, step: Step, h: HandleId)
    requires Enabled(w, step) && h in w.handles && Spent(w.handles[h]) && (Calls(step, h) ==> w.handles[h].queue.failed)
    ensures h in Next(w, step).handles && Spent(Next(w, step).handles[h])
    ensures w.handles[h].queue.failed ==> Next(w, step).handles[h].queue.failed
    ensures Fails(w, step) || step.Acknowledge? ==> step.handle != h
  {
    if !ActsOn(step, h) {
      Untouched(w, step, Next(w, step), h);
    } else {
      hide WriteRefusal, WrittenRow, ResumedRow, RecoveredRow, RenewedRow, CreatedRow, Reconciled, Forget, Writing,
           Public;
    }
  }

  /** A write of the handle ended its run and the process has yet to hear of it. */
  predicate AwaitsEnd(handle: Handle) { handle.queue.unacknowledged.Some? && Ends(handle.queue.unacknowledged.value) }

  /**
   * The process's handle `h` on the run is the one that can still fail: all its others on it are spent, and no
   * create, resume, or open that found the run ended, is about to return.
   */
  ghost predicate SoleWriter(w: World, p: Process, runId: RunId, h: HandleId) {
    && h in w.handles && Writes(w.handles[h], p, runId)
    && LiveKey(p, runId) in w.live
    && !AwaitsEnd(w.handles[h])
    && (forall c | c in w.calls :: !IsCall(w.calls[c], true, p, runId))
    && (forall c | c in w.calls && IsCall(w.calls[c], false, p, runId) :: w.calls[c].record.status.Running?)
    && forall other | other in w.handles && other != h && Writes(w.handles[other], p, runId) :: Spent(w.handles[other])
  }

  /** A create or resume that returns when the process's older handles on the run are spent makes the sole writer. */
  lemma SpentTakeHasSoleWriter(w: World, c: CallId, p: Process, runId: RunId, h: HandleId)
    requires Enabled(w, Return(c, h)) && IsCall(w.calls[c], true, p, runId)
    requires forall other | other in w.handles && Writes(w.handles[other], p, runId) :: Spent(w.handles[other])
    requires forall d | d in w.calls && d != c :: !IsCall(w.calls[d], true, p, runId)
    requires forall d | d in w.calls && IsCall(w.calls[d], false, p, runId) :: w.calls[d].record.status.Running?
    ensures SoleWriter(Next(w, Return(c, h)), p, runId, h)
  {
  }

  /** Nothing is called on the run's other handles of this process, unless they had failed. */
  ghost predicate LeavesOthers(w: World, step: Step, p: Process, runId: RunId, h: HandleId) {
    forall other | other in w.handles && other != h && Writes(w.handles[other], p, runId) && Calls(step, other) ::
      w.handles[other].queue.failed
  }

  lemma HandlesKeepTheirRun(w: World, step: Step, h: HandleId)
    requires Enabled(w, step) && h in w.handles
    ensures h in Next(w, step).handles
    ensures Next(w, step).handles[h].process == w.handles[h].process
    ensures Next(w, step).handles[h].runId == w.handles[h].runId
    ensures Next(w, step).handles[h].owned == w.handles[h].owned
    ensures w.handles[h].queue.failed ==> Next(w, step).handles[h].queue.failed
  {
    hide Next, Enabled, Commits, Moved;
    var t := Next(w, step);
    if Commits(w, step) {
      IsFinish(w, step);
      CommitMoves(w, step, t, h);
    } else {
      var write := HandleMoves(w, step, t, h);
      MovedKeepsRun(w.handles[h], t.handles[h], write);
    }
  }

  lemma MovedKeepsRun(before: Handle, after: Handle, write: Write)
    requires Moved(before, after, write)
    ensures after.process == before.process && after.runId == before.runId && after.owned == before.owned
    ensures before.queue.failed ==> after.queue.failed
  {
  }

  /** While a process has one writer on a run it owns, no further handle is made on the run. */
  lemma NoNewWriter(w: World, step: Step, p: Process, runId: RunId, h: HandleId, other: HandleId)
    requires Enabled(w, step) && SoleWriter(w, p, runId, h)
    requires other in Next(w, step).handles && Writes(Next(w, step).handles[other], p, runId)
    ensures other in w.handles
  {
    hide Enqueued, Started, Committed, Refused, Latched, Acknowledged, WriteRefusal, WrittenRow, ResumedRow,
         RecoveredRow, RenewedRow,
         CreatedRow, Reconciled, Public, Spent, AwaitsEnd;
    if step.Return? {
      var call := w.calls[step.call];
      assert IsCall(call, call.taking, call.process, call.runId);
    }
  }

  /** A call that begins on a run the process owns, and does not take it again, is an open that finds it running. */
  lemma NewCallFindsItRunning(w: World, step: Step, p: Process, runId: RunId, c: CallId)
    requires Inv(w) && Enabled(w, step) && !Takes(step, p, runId)
    requires runId in Next(w, step).rows && Next(w, step).rows[runId].owner == Some(p)
    requires c in Next(w, step).calls && c !in w.calls
    ensures !IsCall(Next(w, step).calls[c], true, p, runId)
    ensures IsCall(Next(w, step).calls[c], false, p, runId) ==> Next(w, step).calls[c].record.status.Running?
  {
    hide Enqueued, Started, Committed, Refused, Latched, Acknowledged, WriteRefusal, WrittenRow, ResumedRow,
         RecoveredRow, RenewedRow,
         CreatedRow, Reconciled, Public, HandleValid, CallValid;
    if step.Read? && step.runId == runId { assert JournalValid(w.rows[runId]); }
  }

  /** A write that ends its run takes it from its owner. */
  lemma NoEndWhileOwned(w: World, step: Step, p: Process, runId: RunId, h: HandleId)
    requires Enabled(w, step) && h in w.handles && Writes(w.handles[h], p, runId) && !AwaitsEnd(w.handles[h])
    requires runId in Next(w, step).rows && Next(w, step).rows[runId].owner == Some(p)
    ensures h in Next(w, step).handles && !AwaitsEnd(Next(w, step).handles[h])
  {
    hide Next, Enabled, Commits, AwaitsEnd, Ends, Moved, WrittenRow;
    var t := Next(w, step);
    if Commits(w, step) {
      IsFinish(w, step);
      CommitMoves(w, step, t, h);
      if h == step.handle { EndIsCommitted(w.handles[h], t.handles[h], w.rows[runId], p); }
    } else {
      var write := HandleMoves(w, step, t, h);
      MovedAwaitsNoMore(w.handles[h], t.handles[h], write);
    }
  }

  lemma EndIsCommitted(before: Handle, after: Handle, row: Row, p: Process)
    requires before.queue.running.Some? && after.queue == Committed(before.queue)
    requires WrittenRow(row, before.queue.running.value.body).owner == Some(p)
    ensures !AwaitsEnd(after)
  {
  }

  lemma MovedAwaitsNoMore(before: Handle, after: Handle, write: Write)
    requires Moved(before, after, write) && !AwaitsEnd(before)
    ensures !AwaitsEnd(after)
  {
    hide Ends;
  }

  lemma SoleWriterStays(w: World, step: Step, p: Process, runId: RunId, h: HandleId)
    requires Inv(w) && Enabled(w, step) && SoleWriter(w, p, runId, h) && !Takes(step, p, runId)
    requires LeavesOthers(w, step, p, runId, h)
    requires runId in Next(w, step).rows && Next(w, step).rows[runId].owner == Some(p)
    requires h in Next(w, step).handles && !Next(w, step).handles[h].queue.failed
    ensures SoleWriter(Next(w, step), p, runId, h)
  {
    hide Next, Enabled, Inv, AwaitsEnd, Takes, Spent;
    var t := Next(w, step);
    HandlesKeepTheirRun(w, step, h);
    StaysLive(w, step, p, runId, h);
    NoEndWhileOwned(w, step, p, runId, h);
    forall c | c in t.calls
      ensures !IsCall(t.calls[c], true, p, runId)
      ensures (IsCall(t.calls[c], false, p, runId) ==> t.calls[c].record.status.Running?)
    {
      if c in w.calls { CallsKept(w, step, t, c); } else { NewCallFindsItRunning(w, step, p, runId, c); }
    }
    forall other | other in t.handles && other != h && Writes(t.handles[other], p, runId)
      ensures Spent(t.handles[other])
    {
      NoNewWriter(w, step, p, runId, h, other);
      HandlesKeepTheirRun(w, step, other);
      SpentStaysSpent(w, step, other);
    }
  }

  lemma StaysLive(w: World, step: Step, p: Process, runId: RunId, h: HandleId)
    requires Enabled(w, step) && SoleWriter(w, p, runId, h) && LeavesOthers(w, step, p, runId, h)
    requires h in Next(w, step).handles && !Next(w, step).handles[h].queue.failed
    ensures LiveKey(p, runId) in Next(w, step).live
  {
    StepMovesLive(w, step, p, runId);
    if FailsOn(w, step, p, runId) || HearsEnd(w, step, p, runId) {
      var at := step.handle;
      if at != h { SpentStaysSpent(w, step, at); } else { FailingFails(w, step); }
    }
    OpenFindsItRunning(w, step, p, runId, h);
  }

  lemma OpenFindsItRunning(w: World, step: Step, p: Process, runId: RunId, h: HandleId)
    requires Enabled(w, step) && SoleWriter(w, p, runId, h)
    ensures !OpensEnded(w, step, p, runId)
  {
    if step.Return? { assert w.calls[step.call] in w.calls.Values; }
  }

  lemma FailingFails(w: World, step: Step)
    requires Enabled(w, step)
    ensures Fails(w, step) ==> Next(w, step).handles[step.handle].queue.failed
  {
    hide WriteRefusal, WrittenRow, RenewedRow, Forget, Public;
  }

  lemma {:induction false} FailedForGood(w: World, steps: seq<Step>, h: HandleId)
    requires Allowed(w, steps) && h in w.handles && w.handles[h].queue.failed
    ensures h in After(w, steps).handles && After(w, steps).handles[h].queue.failed
    decreases |steps|
  {
    hide Next, Enabled;
    if steps != [] {
      HandlesKeepTheirRun(w, steps[0], h);
      FailedForGood(Next(w, steps[0]), steps[1..], h);
    }
  }

  /** What a process owns and has not failed on at the end of a run it did not take again, it does after one step. */
  lemma RunIsStill(w: World, steps: seq<Step>, p: Process, runId: RunId, h: HandleId)
    requires Inv(w) && runId in w.rows && h in w.handles
    requires steps != [] && Allowed(w, steps) && forall i | 0 <= i < |steps| :: !Takes(steps[i], p, runId)
    requires runId in After(w, steps).rows && After(w, steps).rows[runId].owner == Some(p)
    requires h in After(w, steps).handles && !After(w, steps).handles[h].queue.failed
    ensures var t := Next(w, steps[0]);
            runId in t.rows && t.rows[runId].owner == Some(p) && h in t.handles && !t.handles[h].queue.failed
  {
    hide Next, Enabled, Inv;
    StepKeepsInvariant(w, steps[0]);
    HandlesKeepTheirRun(w, steps[0], h);
    RowMoves(w, steps[0], runId);
    var t := Next(w, steps[0]);
    if t.rows[runId].owner != Some(p) { FencedUntilResumed(t, steps[1..], p, runId); }
    if t.handles[h].queue.failed { FailedForGood(t, steps[1..], h); }
  }

  lemma OthersLeft(w: World, step: Step, later: Step, p: Process, runId: RunId, h: HandleId)
    requires Enabled(w, step) && SoleWriter(w, p, runId, h) && LeavesOthers(w, later, p, runId, h)
    ensures LeavesOthers(Next(w, step), later, p, runId, h)
  {
    hide Next, Enabled, SoleWriter;
    var t := Next(w, step);
    forall other | other in t.handles && other != h && Writes(t.handles[other], p, runId) && Calls(later, other)
      ensures t.handles[other].queue.failed
    {
      NoNewWriter(w, step, p, runId, h, other);
      HandlesKeepTheirRun(w, step, other);
    }
  }

  lemma SoleWriterSparedNow(w: World, p: Process, runId: RunId, h: HandleId, repoKeys: Option<set<string>>)
    requires Inv(w) && runId in w.rows && SoleWriter(w, p, runId, h)
    ensures Spares(w, p, repoKeys, runId)
  {
    assert LiveKey(p, runId) in w.live;
    hide SoleWriter, Inv;
    SweepTakesExactly(w, p, repoKeys, runId);
  }

  /**
   * A process that takes a run when its older handles on it are spent, and calls nothing more on them, keeps
   * it from its own sweep for as long as it owns it and the new handle has not failed.
   */
  lemma {:induction false} SoleWriterIsSpared(w: World, steps: seq<Step>, p: Process, runId: RunId, h: HandleId,
                                              repoKeys: Option<set<string>>)
    requires Inv(w) && runId in w.rows && SoleWriter(w, p, runId, h)
    requires Allowed(w, steps)
               && forall i | 0 <= i < |steps| :: !Takes(steps[i], p, runId) && LeavesOthers(w, steps[i], p, runId, h)
    requires runId in After(w, steps).rows && After(w, steps).rows[runId].owner == Some(p)
    requires h in After(w, steps).handles && !After(w, steps).handles[h].queue.failed
    ensures SoleWriter(After(w, steps), p, runId, h)
    ensures Spares(After(w, steps), p, repoKeys, runId)
    decreases |steps|
  {
    hide Next, Enabled, Inv, Takes, LeavesOthers, Spent, Spares, AwaitsEnd;
    assert h in w.handles && LiveKey(p, runId) in w.live;
    hide SoleWriter;
    if steps == [] {
      SoleWriterSparedNow(w, p, runId, h, repoKeys);
    } else {
      var t := Next(w, steps[0]);
      StepKeepsInvariant(w, steps[0]);
      RunIsStill(w, steps, p, runId, h);
      SoleWriterStays(w, steps[0], p, runId, h);
      forall i | 0 < i < |steps| ensures LeavesOthers(t, steps[i], p, runId, h) {
        OthersLeft(w, steps[0], steps[i], p, runId, h);
      }
      SoleWriterIsSpared(t, steps[1..], p, runId, h, repoKeys);
    }
  }

  // --- What a handle may still commit ------------------------------------------------------

  /** What one step leaves of a handle that has failed. */
  ghost predicate AtMostUnderWay(before: QueueState, after: QueueState) {
    && after.failed && after.offered == before.offered && after.waiting == []
    && (|| (after.committed == before.committed && (after.running == before.running || after.running.None?))
        || (before.running.Some? && after.committed == before.committed + [before.running.value]
            && after.running.None?))
  }

  lemma FailedStep(w: World, step: Step, h: HandleId)
    requires Enabled(w, step) && h in w.handles && w.handles[h].queue.failed && w.handles[h].queue.waiting == []
    ensures h in Next(w, step).handles && AtMostUnderWay(w.handles[h].queue, Next(w, step).handles[h].queue)
  {
    hide Next, Enabled, Commits, Moved;
    var t := Next(w, step);
    if Commits(w, step) {
      IsFinish(w, step);
      CommitMoves(w, step, t, h);
    } else {
      var write := HandleMoves(w, step, t, h);
      MovedCommitsNothing(w.handles[h].queue, w.handles[h], t.handles[h], write);
    }
  }

  lemma MovedCommitsNothing(queue: QueueState, before: Handle, after: Handle, write: Write)
    requires queue == before.queue && queue.failed && queue.waiting == [] && Moved(before, after, write)
    ensures AtMostUnderWay(queue, after.queue)
  {
  }

  lemma NoneWaits(w: World, h: HandleId)
    requires Inv(w) && h in w.handles
    ensures w.handles[h].queue.failed ==> w.handles[h].queue.waiting == []
  {
    assert HandleValid(w, w.handles[h]);
  }

  /** After its failure a handle commits at most the write whose transaction was under way, over any run. */
  lemma {:induction false} FailedCommitsAtMostUnderWay(w: World, steps: seq<Step>, h: HandleId)
    requires Inv(w) && Allowed(w, steps) && h in w.handles && w.handles[h].queue.failed
    ensures h in After(w, steps).handles && AtMostUnderWay(w.handles[h].queue, After(w, steps).handles[h].queue)
    decreases |steps|
  {
    hide Next, Enabled, Inv;
    NoneWaits(w, h);
    if steps != [] {
      FailedStep(w, steps[0], h);
      StepKeepsInvariant(w, steps[0]);
      FailedCommitsAtMostUnderWay(Next(w, steps[0]), steps[1..], h);
    }
  }

  predicate IsOwn(step: Step, h: HandleId) {
    (step.StartJob? || step.FinishJob? || step.Acknowledge?) && step.handle == h
  }

  /** Only the handle's own queue moves. */
  ghost predicate OnItsOwn(steps: seq<Step>, h: HandleId) {
    forall i | 0 <= i < |steps| :: IsOwn(steps[i], h)
  }

  ghost predicate CanStillCommit(w: World, h: HandleId)
    requires h in w.handles
  {
    exists steps :: OnItsOwn(steps, h) && Allowed(w, steps)
      && h in After(w, steps).handles && After(w, steps).handles[h].queue.committed != w.handles[h].queue.committed
  }

  predicate HasJob(q: QueueState) { q.running.Some? || (!q.failed && q.waiting != []) }

  lemma OwnedWriteLands(w: World, h: HandleId)
    requires Inv(w) && h in w.handles && w.handles[h].owned && w.handles[h].queue.running.Some?
    ensures w.handles[h].runId in w.rows
    ensures Refusal(w, h).None? <==> w.rows[w.handles[h].runId].owner == Some(w.handles[h].process)
  {
    assert HandleValid(w, w.handles[h]);
    assert JournalValid(w.rows[w.handles[h].runId]);
  }

  lemma {:induction false} JoblessCommitsNothing(w: World, steps: seq<Step>, h: HandleId)
    requires h in w.handles && !HasJob(w.handles[h].queue)
    requires (w.handles[h].queue.failed ==> w.handles[h].queue.waiting == [])
    requires OnItsOwn(steps, h) && Allowed(w, steps)
    ensures h in After(w, steps).handles && After(w, steps).handles[h].queue.committed == w.handles[h].queue.committed
    decreases |steps|
  {
    if steps != [] {
      JoblessStep(w, steps[0], h);
      hide Next, Enabled;
      assert IsOwn(steps[0], h) && forall i | 0 < i < |steps| :: IsOwn(steps[i], h);
      JoblessCommitsNothing(Next(w, steps[0]), steps[1..], h);
    }
  }

  /** Without a job a queue can at most have its last commit acknowledged. */
  lemma JoblessStep(w: World, step: Step, h: HandleId)
    requires h in w.handles && !HasJob(w.handles[h].queue)
    requires (w.handles[h].queue.failed ==> w.handles[h].queue.waiting == [])
    requires Enabled(w, step) && IsOwn(step, h)
    ensures h in Next(w, step).handles
    ensures var before, after := w.handles[h].queue, Next(w, step).handles[h].queue;
            after.committed == before.committed && !HasJob(after) && (after.failed ==> after.waiting == [])
  {
    assert step.Acknowledge?;
  }

  lemma OneStep(w: World, step: Step)
    requires Enabled(w, step)
    ensures Allowed(w, [step]) && After(w, [step]) == Next(w, step)
  {
    hide Enabled, Next;
    assert [step][1..] == [];
  }

  lemma UnderWayCommits(w: World, h: HandleId)
    requires Inv(w) && h in w.handles && w.handles[h].owned && w.handles[h].queue.running.Some?
    requires w.handles[h].runId in w.rows && w.rows[w.handles[h].runId].owner == Some(w.handles[h].process)
    ensures h in Next(w, FinishJob(h, true)).handles
    ensures |Next(w, FinishJob(h, true)).handles[h].queue.committed| == |w.handles[h].queue.committed| + 1
  {
    OwnedWriteLands(w, h);
    hide Inv, Refusal, WrittenRow, Forget;
  }

  lemma StartedCommits(w: World, h: HandleId) returns (steps: seq<Step>)
    requires Inv(w) && h in w.handles && w.handles[h].owned && Idle(w.handles[h].queue)
    requires w.handles[h].queue.waiting != []
    requires w.handles[h].runId in w.rows && w.rows[w.handles[h].runId].owner == Some(w.handles[h].process)
    ensures OnItsOwn(steps, h) && Allowed(w, steps) && h in After(w, steps).handles
    ensures After(w, steps).handles[h].queue.committed != w.handles[h].queue.committed
  {
    hide Inv, AfterWrite, AfterFailure, Refusal;
    var start, finish := StartJob(h), FinishJob(h, true);
    StepKeepsInvariant(w, start);
    var started := Next(w, start);
    UnderWayCommits(started, h);
    OneStep(started, finish);
    steps := [start, finish];
    assert steps[1..] == [finish];
    assert After(w, steps) == After(started, [finish]);
  }

  lemma OwnedJobCommits(w: World, h: HandleId) returns (steps: seq<Step>)
    requires Inv(w) && h in w.handles && w.handles[h].owned && HasJob(w.handles[h].queue)
    requires w.handles[h].runId in w.rows && w.rows[w.handles[h].runId].owner == Some(w.handles[h].process)
    ensures OnItsOwn(steps, h) && Allowed(w, steps) && h in After(w, steps).handles
    ensures After(w, steps).handles[h].queue.committed != w.handles[h].queue.committed
  {
    hide Inv, Next, Enabled;
    if w.handles[h].queue.running.Some? { steps := RunningCommits(w, h); }
    else if w.handles[h].queue.unacknowledged.None? { steps := StartedCommits(w, h); }
    else { steps := HeardCommits(w, h); }
  }

  lemma RunningCommits(w: World, h: HandleId) returns (steps: seq<Step>)
    requires Inv(w) && h in w.handles && w.handles[h].owned && w.handles[h].queue.running.Some?
    requires w.handles[h].runId in w.rows && w.rows[w.handles[h].runId].owner == Some(w.handles[h].process)
    ensures OnItsOwn(steps, h) && Allowed(w, steps) && h in After(w, steps).handles
    ensures After(w, steps).handles[h].queue.committed != w.handles[h].queue.committed
  {
    var finish := FinishJob(h, true);
    UnderWayCommits(w, h);
    assert Enabled(w, finish);
    hide Inv, Next, Enabled;
    OneStep(w, finish);
    steps := [finish];
  }

  lemma Hearing(w: World, h: HandleId)
    requires h in w.handles && w.handles[h].queue.unacknowledged.Some?
    ensures var hear := Acknowledge(h, true);
            && Enabled(w, hear) && Next(w, hear).rows == w.rows && h in Next(w, hear).handles
            && var heard := Next(w, hear).handles[h];
               heard == w.handles[h].(queue := Acknowledged(w.handles[h].queue), beating := heard.beating)
  {
  }

  lemma HeardCommits(w: World, h: HandleId) returns (steps: seq<Step>)
    requires Inv(w) && h in w.handles && w.handles[h].owned && w.handles[h].queue.unacknowledged.Some?
    requires HasJob(w.handles[h].queue)
    requires w.handles[h].queue.running.None?
    requires w.handles[h].runId in w.rows && w.rows[w.handles[h].runId].owner == Some(w.handles[h].process)
    ensures OnItsOwn(steps, h) && Allowed(w, steps) && h in After(w, steps).handles
    ensures After(w, steps).handles[h].queue.committed != w.handles[h].queue.committed
  {
    hide Next, Enabled, Inv;
    var hear := Acknowledge(h, true);
    Hearing(w, h);
    StepKeepsInvariant(w, hear);
    var heard := Next(w, hear);
    var rest := StartedCommits(heard, h);
    steps := [hear] + rest;
    assert steps[1..] == rest;
    assert After(w, steps) == After(heard, rest);
  }

  /**
   * The fence, exactly: a handle opened by creating or resuming, superseded or not, can still commit if and
   * only if its process owns the run and it has a job under way, or waiting when no failure has latched.
   */
  lemma OwnedHandleCommitsExactlyWhen(w: World, h: HandleId)
    requires Inv(w) && h in w.handles && w.handles[h].owned
    ensures w.handles[h].runId in w.rows
    ensures CanStillCommit(w, h) <==>
              w.rows[w.handles[h].runId].owner == Some(w.handles[h].process) && HasJob(w.handles[h].queue)
  {
    var p, runId := w.handles[h].process, w.handles[h].runId;
    assert HandleValid(w, w.handles[h]);
    hide Next, Enabled, Inv;
    if CanStillCommit(w, h) {
      var steps :| OnItsOwn(steps, h) && Allowed(w, steps)
        && h in After(w, steps).handles && After(w, steps).handles[h].queue.committed != w.handles[h].queue.committed;
      if w.rows[runId].owner != Some(p) { FencedUntilResumed(w, steps, p, runId); }
      if !HasJob(w.handles[h].queue) {
        NoneWaits(w, h);
        JoblessCommitsNothing(w, steps, h);
      }
    }
    if w.rows[runId].owner == Some(p) && HasJob(w.handles[h].queue) {
      var steps := OwnedJobCommits(w, h);
    }
  }
}
