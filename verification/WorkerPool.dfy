/**
 * `mapLimit` (packages/data-store/src/pack.ts): workers sharing a next index and a first error. A worker's pull, its
 * leaving and the settling of its call are each one uninterrupted piece of code; their interleaving is arbitrary.
 */
module WorkerPool {
  /** What a call threw; throwing `undefined` cannot be told from nothing thrown yet. */
  datatype Thrown = Undefined | Error(message: string)
  datatype Outcome = Returned | Threw(value: Thrown)
  datatype Worker = Idle | Busy(index: nat) | Left

  datatype Pool = Pool(
    count: nat,
    next: nat,
    firstErr: Thrown,
    workers: seq<Worker>,
    started: seq<nat>,
    settled: map<nat, Outcome>)

  datatype Step = Pull(worker: nat) | Leave(worker: nat) | Settle(worker: nat, outcome: Outcome)

  function Start(count: nat, limit: nat): Pool {
    Pool(count, 0, Undefined, seq(if limit < count then limit else count, _ => Idle), [], map[])
  }

  /** The loop's condition. */
  predicate MayPull(p: Pool) { p.next < p.count && p.firstErr.Undefined? }

  predicate Enabled(p: Pool, step: Step) {
    step.worker < |p.workers| &&
    match step
    case Pull(w) => p.workers[w].Idle? && MayPull(p)
    case Leave(w) => p.workers[w].Idle? && !MayPull(p)
    case Settle(w, _) => p.workers[w].Busy?
  }

  function Next(p: Pool, step: Step): Pool
    requires Enabled(p, step)
  {
    match step
    case Pull(w) => p.(next := p.next + 1, workers := p.workers[w := Busy(p.next)], started := p.started + [p.next])
    case Leave(w) => p.(workers := p.workers[w := Left])
    case Settle(w, outcome) =>
      p.(workers := p.workers[w := Idle], settled := p.settled[p.workers[w].index := outcome],
         firstErr := if outcome.Threw? && p.firstErr.Undefined? then outcome.value else p.firstErr)
  }

  predicate Allowed(p: Pool, steps: seq<Step>)
    decreases |steps|
  {
    steps == [] || (Enabled(p, steps[0]) && Allowed(Next(p, steps[0]), steps[1..]))
  }

  function After(p: Pool, steps: seq<Step>): Pool
    requires Allowed(p, steps)
    decreases |steps|
  {
    if steps == [] then p else After(Next(p, steps[0]), steps[1..])
  }

  // --- Invariant --------------------------------------------------------------------

  ghost predicate InFlight(p: Pool, i: nat) { exists w :: 0 <= w < |p.workers| && p.workers[w] == Busy(i) }

  predicate ThrewError(o: Outcome) { o.Threw? && o.value.Error? }

  ghost predicate Inv(p: Pool) {
    && p.next <= p.count
    && p.started == seq(p.next, i => i)
    && (forall i: nat :: i < p.next <==> i in p.settled || InFlight(p, i))
    && (forall v, w | 0 <= v < |p.workers| && 0 <= w < |p.workers| && p.workers[v].Busy?
        && p.workers[v] == p.workers[w] :: v == w)
    && (forall w | 0 <= w < |p.workers| && p.workers[w].Busy? :: p.workers[w].index !in p.settled)
    && (p.firstErr.Error? <==> exists i :: i in p.settled && ThrewError(p.settled[i]))
    && (forall w | 0 <= w < |p.workers| && p.workers[w].Left? :: !MayPull(p))
  }

  lemma StartIsSound(count: nat, limit: nat)
    ensures Inv(Start(count, limit))
  {
  }

  lemma PullKeeps(p: Pool, w: nat)
    requires Inv(p) && Enabled(p, Pull(w))
    ensures Inv(Next(p, Pull(w)))
  {
    var q := Next(p, Pull(w));
    assert q.workers[w] == Busy(p.next);
    forall i: nat
      ensures InFlight(q, i) <==> InFlight(p, i) || i == p.next
    {
      if InFlight(p, i) {
        var v :| 0 <= v < |p.workers| && p.workers[v] == Busy(i);
        assert q.workers[v] == Busy(i);
      }
    }
    forall v | 0 <= v < |p.workers| && p.workers[v].Busy?
      ensures p.workers[v].index != p.next
    {
      assert InFlight(p, p.workers[v].index);
    }
  }

  lemma LeaveKeeps(p: Pool, w: nat)
    requires Inv(p) && Enabled(p, Leave(w))
    ensures Inv(Next(p, Leave(w)))
  {
    var q := Next(p, Leave(w));
    forall i: nat
      ensures InFlight(q, i) <==> InFlight(p, i)
    {
      if InFlight(p, i) {
        var v :| 0 <= v < |p.workers| && p.workers[v] == Busy(i);
        assert q.workers[v] == Busy(i);
      }
    }
  }

  lemma SettleKeeps(p: Pool, w: nat, outcome: Outcome)
    requires Inv(p) && Enabled(p, Settle(w, outcome))
    ensures Inv(Next(p, Settle(w, outcome)))
  {
    var q, at := Next(p, Settle(w, outcome)), p.workers[w].index;
    assert InFlight(p, at);
    forall i: nat
      ensures InFlight(q, i) <==> InFlight(p, i) && i != at
    {
      if InFlight(p, i) && i != at {
        var v :| 0 <= v < |p.workers| && p.workers[v] == Busy(i);
        assert q.workers[v] == Busy(i);
      }
    }
    if q.firstErr.Error? {
      if p.firstErr.Error? {
        var i :| i in p.settled && ThrewError(p.settled[i]);
        assert i in q.settled && ThrewError(q.settled[i]);
      } else { assert at in q.settled && ThrewError(q.settled[at]); }
    }
  }

  lemma StepKeepsInvariant(p: Pool, step: Step)
    requires Inv(p) && Enabled(p, step)
    ensures Inv(Next(p, step))
  {
    match step
    case Pull(w) => PullKeeps(p, w);
    case Leave(w) => LeaveKeeps(p, w);
    case Settle(w, outcome) => SettleKeeps(p, w, outcome);
  }

  lemma {:induction false} RunKeepsInvariant(p: Pool, steps: seq<Step>)
    requires Inv(p) && Allowed(p, steps)
    ensures Inv(After(p, steps)) && After(p, steps).count == p.count && |After(p, steps).workers| == |p.workers|
    decreases |steps|
  {
    if steps != [] {
      StepKeepsInvariant(p, steps[0]);
      RunKeepsInvariant(Next(p, steps[0]), steps[1..]);
    }
  }

  // --- What the caller relies on -------------------------------------------------------

  predicate AllLeft(p: Pool) { forall w | 0 <= w < |p.workers| :: p.workers[w].Left? }

  /**
   * When every worker has left, exactly the calls that were started have settled, each index started once and in
   * order; without an error that is every index, unless the limit was zero.
   */
  lemma EveryItemOnce(count: nat, limit: nat, steps: seq<Step>)
    requires Allowed(Start(count, limit), steps) && AllLeft(After(Start(count, limit), steps))
    ensures var p := After(Start(count, limit), steps);
            && p.started == seq(p.next, i => i)
            && (forall i: nat :: i in p.settled <==> i < p.next)
            && (p.firstErr.Error? <==> exists i :: i in p.settled && ThrewError(p.settled[i]))
            && (p.firstErr.Undefined? && (limit > 0 || count == 0) ==> p.next == count)
  {
    StartIsSound(count, limit);
    RunKeepsInvariant(Start(count, limit), steps);
    var p := After(Start(count, limit), steps);
    assert forall i: nat :: !InFlight(p, i);
    if p.firstErr.Undefined? && limit > 0 && count > 0 { assert p.workers[0].Left?; }
  }

  /** A limit of zero resolves at once, with nothing called. */
  lemma ZeroLimitCallsNothing(count: nat, steps: seq<Step>)
    requires Allowed(Start(count, 0), steps)
    ensures steps == [] && AllLeft(Start(count, 0))
  {
  }

  function Flying(p: Pool): set<nat> { set w | 0 <= w < |p.workers| && p.workers[w].Busy? :: p.workers[w].index }

  lemma {:induction false} FewFlying(workers: seq<Worker>) returns (flying: set<nat>)
    ensures flying == set w | 0 <= w < |workers| && workers[w].Busy? :: workers[w].index
    ensures |flying| <= |workers|
  {
    if workers == [] { flying := {}; }
    else {
      var last := workers[|workers| - 1];
      var rest := FewFlying(workers[..|workers| - 1]);
      flying := if last.Busy? then rest + {last.index} else rest;
      assert forall w | 0 <= w < |workers| - 1 :: workers[..|workers| - 1][w] == workers[w];
      var all := set w | 0 <= w < |workers| && workers[w].Busy? :: workers[w].index;
      forall i
        ensures i in flying <==> i in all
      {
        if i in rest {
          var w :| 0 <= w < |workers| - 1 && workers[..|workers| - 1][w].Busy?
              && workers[..|workers| - 1][w].index == i;
          assert workers[w].Busy? && workers[w].index == i;
        }
      }
    }
  }

  /** At no moment are more than `limit` calls in flight. */
  lemma AtMostLimitInFlight(count: nat, limit: nat, steps: seq<Step>)
    requires Allowed(Start(count, limit), steps)
    ensures |Flying(After(Start(count, limit), steps))| <= limit
  {
    StartIsSound(count, limit);
    RunKeepsInvariant(Start(count, limit), steps);
    var flying := FewFlying(After(Start(count, limit), steps).workers);
  }

  /** After the first error nothing new is started, whatever still settles. */
  lemma {:induction false} NothingStartsAfterError(p: Pool, steps: seq<Step>)
    requires Allowed(p, steps) && p.firstErr.Error?
    ensures After(p, steps).started == p.started && After(p, steps).firstErr == p.firstErr
    decreases |steps|
  {
    if steps != [] { NothingStartsAfterError(Next(p, steps[0]), steps[1..]); }
  }

  /** Until every worker has left, some step is due: a pull, a leaving, or a call yet to settle. */
  lemma SomeStepIsDue(p: Pool) returns (step: Step)
    requires !AllLeft(p)
    ensures Enabled(p, step)
  {
    var w :| 0 <= w < |p.workers| && !p.workers[w].Left?;
    step := if p.workers[w].Busy? then Settle(w, Returned) else if MayPull(p) then Pull(w) else Leave(w);
  }

  function Work(workers: seq<Worker>): nat {
    if workers == [] then 0
    else Work(workers[..|workers| - 1]) + (match workers[|workers| - 1] case Idle => 1 case Busy(_) => 2 case Left => 0)
  }

  lemma {:induction false} WorkAfter(workers: seq<Worker>, w: nat, worker: Worker)
    requires w < |workers|
    ensures Work(workers[w := worker]) == Work(workers) - Work([workers[w]]) + Work([worker])
  {
    var front, last := workers[..|workers| - 1], workers[|workers| - 1];
    assert Work([]) == 0;
    if w < |workers| - 1 {
      WorkAfter(front, w, worker);
      assert workers[w := worker][..|workers| - 1] == front[w := worker];
    } else {
      assert workers[w := worker][..|workers| - 1] == front;
    }
  }

  /** Every run ends: at most two steps an item and one a worker. */
  lemma {:induction false} RunsEnd(p: Pool, steps: seq<Step>)
    requires Inv(p) && Allowed(p, steps)
    ensures |steps| <= 2 * (p.count - p.next) + Work(p.workers)
    decreases |steps|
  {
    if steps != [] {
      hide Inv, Work;
      StepKeepsInvariant(p, steps[0]);
      WorkShrinks(p, steps[0]);
      RunsEnd(Next(p, steps[0]), steps[1..]);
    }
  }

  lemma WorkShrinks(p: Pool, step: Step)
    requires Inv(p) && Enabled(p, step)
    ensures 2 * (Next(p, step).count - Next(p, step).next) + Work(Next(p, step).workers) < 2 * (p.count - p.next)
              + Work(p.workers)
    ensures 2 * (Next(p, step).count - Next(p, step).next) + Work(Next(p, step).workers) >= 0
  {
    assert Work([Idle]) == 1 && Work([Left]) == 0;
    match step
    case Pull(w) => WorkAfter(p.workers, w, Busy(p.next));
    case Leave(w) => WorkAfter(p.workers, w, Left);
    case Settle(w, outcome) => WorkAfter(p.workers, w, Idle);
  }
}
