/**
 * How long a run is safe from a sweep (packages/data-store/src/session-run-store.ts).
 */
module JournalLeases {
  // What is proved of every run of `JournalRuns`:
  //  - a running row's lease ends exactly 60,000 ms after the last create, resume or landed renewal of it;
  //  - so a sweep, of any process, takes a run only when more than 60,000 ms lie between each of those and it,
  //    and takes every such run in scope that its process is not writing.

  import opened Common
  import opened ActivityJournal
  import opened WriteQueue
  import opened JournalRuns
  import opened JournalFences

  /** The step creates or resumes the run, or a heartbeat's UPDATE of it commits and finds its row. */
  predicate Extends(w: World, step: Step, runId: RunId)
    requires Enabled(w, step)
  {
    match step
    case Create(_, _, id, _, _) => id == runId
    case Resume(_, _, id, _) => id == runId
    case Renew(h, committed, _) =>
      && committed && w.handles[h].runId == runId
      && runId in w.rows && w.rows[runId].owner == Some(w.handles[h].process)
    case _ => false
  }

  ghost predicate ExtendedAt(steps: seq<Step>, j: nat, runId: RunId) {
    At(steps, j) && Extends(After(START, steps[..j]), steps[j], runId)
  }

  /** The clock at the run's `j`-th step. */
  ghost function TimeAt(steps: seq<Step>, j: nat): int
    requires At(steps, j)
  {
    After(START, steps[..j]).now
  }

  /** The step at `j` was the last to create, resume or renew the run. */
  ghost predicate LastExtended(steps: seq<Step>, j: nat, runId: RunId) {
    ExtendedAt(steps, j, runId) && forall i: nat | j < i :: !ExtendedAt(steps, i, runId)
  }

  lemma StepMovesLease(w: World, step: Step, runId: RunId)
    requires Inv(w) && Enabled(w, step) && runId in Next(w, step).rows
    requires Next(w, step).rows[runId].record.status.Running?
    ensures Extends(w, step, runId) ==> Next(w, step).rows[runId].lease == Some(w.now + 60_000)
    ensures !Extends(w, step, runId) ==>
              && runId in w.rows && w.rows[runId].record.status.Running?
              && Next(w, step).rows[runId].lease == w.rows[runId].lease
  {
    if runId !in w.rows {
      AppearsExtended(w, step, runId);
    } else if step.Resume? || step.Renew? {
      RowIsExtended(w, step, runId);
    } else {
      RowMoves(w, step, runId);
      hide Next, Enabled, JournalValid, HandleValid, CallValid, Public, ParkLive;
    }
  }

  lemma AppearsExtended(w: World, step: Step, runId: RunId)
    requires Enabled(w, step) && runId in Next(w, step).rows && runId !in w.rows
    ensures Extends(w, step, runId) && Next(w, step).rows[runId].lease == Some(w.now + 60_000)
  {
    hide Enqueued, Started, Latched, Acknowledged, Refused, Committed, Forget, StartRecord, ResumedRecord;
    assert step.Create?;
  }

  lemma RowIsExtended(w: World, step: Step, runId: RunId)
    requires Enabled(w, step) && runId in w.rows && (step.Resume? || step.Renew?)
    ensures var row, after := w.rows[runId], Next(w, step).rows[runId];
            if Extends(w, step, runId) then after.lease == Some(w.now + 60_000) else after == row
  {
    hide Enqueued, Started, Latched, Acknowledged, Refused, Committed, Forget, StartRecord, ResumedRecord;
  }

  lemma ClockOnlyGrows(w: World, step: Step)
    requires Enabled(w, step)
    ensures w.now <= Next(w, step).now
  {
  }

  /** Dropping the last step of a run drops what it did and nothing else. */
  lemma ExtendedGrows(steps: seq<Step>, j: nat, runId: RunId)
    requires Allowed(START, steps) && steps != []
    ensures var n := |steps| - 1;
            && Allowed(START, steps[..n]) && Enabled(After(START, steps[..n]), steps[n])
            && (j < n ==> (ExtendedAt(steps[..n], j, runId) <==> ExtendedAt(steps, j, runId)))
            && (j >= n ==> !ExtendedAt(steps[..n], j, runId))
            && (j == n ==> (ExtendedAt(steps, j, runId) <==> Extends(After(START, steps[..n]), steps[n], runId)))
            && (j > n ==> !ExtendedAt(steps, j, runId))
            && (j < n && At(steps, j) ==> At(steps[..n], j) && TimeAt(steps[..n], j) == TimeAt(steps, j))
  {
    hide Extends, Enabled, After, Allowed;
    SplitLast(START, steps);
    if j < |steps| - 1 { assert steps[..|steps| - 1][..j] == steps[..j]; }
  }

  /** In every run: a running row's lease ends 60,000 after its last create, resume or landed renewal. */
  lemma {:induction false} LeaseRunsSixtySeconds(steps: seq<Step>, runId: RunId) returns (last: nat)
    requires Allowed(START, steps)
    requires runId in After(START, steps).rows && After(START, steps).rows[runId].record.status.Running?
    ensures LastExtended(steps, last, runId)
    ensures After(START, steps).rows[runId].lease == Some(TimeAt(steps, last) + 60_000)
    decreases |steps|
  {
    hide Enabled, Next, Inv, Extends;
    if steps == [] {
      assert false;
    } else {
      var n, front := |steps| - 1, steps[..|steps| - 1];
      SplitLast(START, steps);
      StartIsSound();
      RunKeepsInvariant(START, front);
      StepMovesLease(After(START, front), steps[n], runId);
      last := n;
      ExtendedGrows(steps, n, runId);
      if !Extends(After(START, front), steps[n], runId) { last := LeaseRunsSixtySeconds(front, runId); }
      forall i: nat | last < i
        ensures !ExtendedAt(steps, i, runId)
      {
        ExtendedGrows(steps, i, runId);
      }
      ExtendedGrows(steps, last, runId);
      assert ExtendedAt(steps, last, runId);
    }
  }

  lemma {:induction false} TimesAscend(steps: seq<Step>, i: nat)
    requires Allowed(START, steps) && i <= |steps|
    ensures Allowed(START, steps[..i]) && After(START, steps[..i]).now <= After(START, steps).now
    decreases |steps|
  {
    hide Enabled, Next;
    if i == |steps| {
      assert steps[..i] == steps;
    } else {
      var n, front := |steps| - 1, steps[..|steps| - 1];
      SplitLast(START, steps);
      ClockOnlyGrows(After(START, front), steps[n]);
      TimesAscend(front, i);
      assert front[..i] == steps[..i];
    }
  }

  /**
   * A sweep of any process takes a run in scope that is not on its live map exactly when the last create, resume or
   * landed renewal of it, and so every one of them, lies more than 60,000 back.
   */
  lemma SweepComesAfterSixtySeconds(steps: seq<Step>, p: Process, repoKeys: Option<set<string>>, runId: RunId)
    requires Allowed(START, steps) && runId in After(START, steps).rows
    requires After(START, steps).rows[runId].record.status.Running?
    ensures var w := After(START, steps);
            Next(w, Reconcile(p, repoKeys)).rows[runId] != w.rows[runId] <==>
              && (repoKeys.Some? ==> w.rows[runId].repoKey in repoKeys.value)
              && LiveKey(p, runId) !in w.live
              && forall j: nat | ExtendedAt(steps, j, runId) :: TimeAt(steps, j) + 60_000 < w.now
  {
    StartIsSound();
    RunKeepsInvariant(START, steps);
    SweepTakesExactly(After(START, steps), p, repoKeys, runId);
    var last := LeaseRunsSixtySeconds(steps, runId);
    forall j: nat | ExtendedAt(steps, j, runId)
      ensures TimeAt(steps, j) <= TimeAt(steps, last)
    {
      assert j <= last;
      TimesAscend(steps, last);
      TimesAscend(steps[..last], j);
      assert steps[..last][..j] == steps[..j];
    }
  }
}
