/**
 * A bundle from its save to its load, as one program, and the workers that write it
 * (packages/data-store/src/guard-store.ts: `saveGuardSetupBundle`, `loadGuardSetupBundle`; pack.ts: `mapLimit`).
 */
module BundleRoundTrip {
  import opened Common
  import opened ContentPool
  import opened Unicode
  import opened SetupBundles
  import WorkerPool

  // --- The workers' writes --------------------------------------------------------------------

  /** The table after a run of the workers: each call that returned has put its item's body. */
  function Written(p: WorkerPool.Pool, steps: seq<WorkerPool.Step>, rows: Rows, scope: string, order: seq<Sha>,
                   bodies: map<Sha, Text>, at: Sha -> int): Rows
    requires WorkerPool.Inv(p) && WorkerPool.Allowed(p, steps)
    requires |order| == p.count && forall i | 0 <= i < |order| :: order[i] in bodies
    decreases |steps|
  {
    if steps == [] then rows
    else
      WorkerPool.StepKeepsInvariant(p, steps[0]);
      Written(WorkerPool.Next(p, steps[0]), steps[1..], PutBy(p, steps[0], rows, scope, order, bodies, at), scope,
              order, bodies, at)
  }

  function PutBy(p: WorkerPool.Pool, step: WorkerPool.Step, rows: Rows, scope: string, order: seq<Sha>,
                 bodies: map<Sha, Text>, at: Sha -> int): Rows
    requires WorkerPool.Inv(p) && WorkerPool.Enabled(p, step)
    requires |order| == p.count && forall i | 0 <= i < |order| :: order[i] in bodies
  {
    if step.Settle? && step.outcome.Returned? then
      assert WorkerPool.InFlight(p, p.workers[step.worker].index);
      var sha := order[p.workers[step.worker].index];
      PutRow(rows, Key(scope, sha), bodies[sha], at(sha))
    else rows
  }

  /** The items whose calls have returned, with their bodies. */
  ghost function Done(p: WorkerPool.Pool, order: seq<Sha>, bodies: map<Sha, Text>): map<Sha, Text>
    requires |order| == p.count && forall i | 0 <= i < |order| :: order[i] in bodies
  {
    map i | 0 <= i < |order| && ReturnedAt(p, i) :: order[i] := bodies[order[i]]
  }

  ghost predicate ReturnedAt(p: WorkerPool.Pool, i: nat) { i in p.settled && p.settled[i].Returned? }

  lemma SameDone(p: WorkerPool.Pool, q: WorkerPool.Pool, order: seq<Sha>, bodies: map<Sha, Text>)
    requires |order| == p.count == q.count && forall i | 0 <= i < |order| :: order[i] in bodies
    requires forall k: nat | k < |order| :: ReturnedAt(q, k) <==> ReturnedAt(p, k)
    ensures Done(q, order, bodies) == Done(p, order, bodies)
  {
  }

  lemma OneMoreDone(p: WorkerPool.Pool, q: WorkerPool.Pool, order: seq<Sha>, bodies: map<Sha, Text>, i: nat)
    requires |order| == p.count == q.count && Distinct(order) && forall k | 0 <= k < |order| :: order[k] in bodies
    requires i < |order| && !ReturnedAt(p, i)
               && forall k: nat | k < |order| :: ReturnedAt(q, k) <==> ReturnedAt(p, k) || k == i
    ensures order[i] !in Done(p, order, bodies)
    ensures Done(q, order, bodies) == Done(p, order, bodies)[order[i] := bodies[order[i]]]
  {
    hide ReturnedAt;
    assert forall k: nat | k < |order| && order[k] == order[i] :: k == i;
  }

  lemma PutByIsDone(p: WorkerPool.Pool, step: WorkerPool.Step, start: Rows, scope: string, order: seq<Sha>,
                    bodies: map<Sha, Text>, at: Sha -> int)
    requires WorkerPool.Inv(p) && WorkerPool.Enabled(p, step) && Distinct(order)
    requires |order| == p.count && forall i | 0 <= i < |order| :: order[i] in bodies
    ensures PutBy(p, step, PutAll(start, scope, Done(p, order, bodies), at), scope, order, bodies, at)
            == PutAll(start, scope, Done(WorkerPool.Next(p, step), order, bodies), at)
  {
    hide PutAll, PutRow, Done, Distinct;
    var q := WorkerPool.Next(p, step);
    if step.Settle? && step.outcome.Returned? {
      var i := p.workers[step.worker].index;
      assert WorkerPool.InFlight(p, i);
      OneMoreDone(p, q, order, bodies, i);
      PutOneMore(start, scope, Done(p, order, bodies), order[i], bodies[order[i]], at);
    } else {
      assert step.Settle? ==> p.workers[step.worker].index !in p.settled;
      SameDone(p, q, order, bodies);
    }
  }

  lemma {:induction false} WrittenIsDone(p: WorkerPool.Pool, steps: seq<WorkerPool.Step>, start: Rows, scope: string,
                                         order: seq<Sha>, bodies: map<Sha, Text>, at: Sha -> int)
    requires WorkerPool.Inv(p) && WorkerPool.Allowed(p, steps) && Distinct(order)
    requires |order| == p.count && forall i | 0 <= i < |order| :: order[i] in bodies
    ensures WorkerPool.After(p, steps).count == p.count
    ensures Written(p, steps, PutAll(start, scope, Done(p, order, bodies), at), scope, order, bodies, at)
            == PutAll(start, scope, Done(WorkerPool.After(p, steps), order, bodies), at)
    decreases |steps|
  {
    hide PutAll, PutBy, WorkerPool.Inv;
    if steps != [] {
      WorkerPool.StepKeepsInvariant(p, steps[0]);
      PutByIsDone(p, steps[0], start, scope, order, bodies, at);
      WrittenIsDone(WorkerPool.Next(p, steps[0]), steps[1..], start, scope, order, bodies, at);
    }
  }

  /**
   * Whatever way the workers interleave, once all have left and no call threw, the table is the one that
   * putting every body leaves.
   */
  lemma AnyInterleavingWrites(limit: nat, steps: seq<WorkerPool.Step>, rows: Rows, scope: string, order: seq<Sha>,
                              bodies: map<Sha, Text>, at: Sha -> int)
    requires limit > 0 && Distinct(order) && forall sha :: sha in order <==> sha in bodies
    requires var start := WorkerPool.Start(|order|, limit);
             WorkerPool.Allowed(start, steps) && WorkerPool.AllLeft(WorkerPool.After(start, steps))
             && forall i | i in WorkerPool.After(start, steps).settled ::
                 WorkerPool.After(start, steps).settled[i].Returned?
    ensures WorkerPool.Inv(WorkerPool.Start(|order|, limit))
    ensures Written(WorkerPool.Start(|order|, limit), steps, rows, scope, order, bodies, at) ==
              PutAll(rows, scope, bodies, at)
  {
    hide WorkerPool.Inv, Written, Done, Distinct;
    var start := WorkerPool.Start(|order|, limit);
    assert forall i | 0 <= i < |order| :: order[i] in order && order[i] in bodies;
    WorkerPool.StartIsSound(|order|, limit);
    WrittenIsDone(start, steps, rows, scope, order, bodies, at);
    NothingDone(start, order, bodies);
    NothingPut(rows, scope, at);
    AllReturned(limit, steps, |order|);
    AllDone(WorkerPool.After(start, steps), order, bodies);
  }

  lemma NothingDone(p: WorkerPool.Pool, order: seq<Sha>, bodies: map<Sha, Text>)
    requires |order| == p.count && (forall i | 0 <= i < |order| :: order[i] in bodies) && p.settled == map[]
    ensures Done(p, order, bodies) == map[]
  {
  }

  lemma NothingPut(rows: Rows, scope: string, at: Sha -> int)
    ensures PutAll(rows, scope, map[], at) == rows
  {
  }

  lemma AllReturned(limit: nat, steps: seq<WorkerPool.Step>, count: nat)
    requires limit > 0
    requires var start := WorkerPool.Start(count, limit);
             WorkerPool.Allowed(start, steps) && WorkerPool.AllLeft(WorkerPool.After(start, steps))
             && forall i | i in WorkerPool.After(start, steps).settled ::
                 WorkerPool.After(start, steps).settled[i].Returned?
    ensures forall i: nat | i < count :: ReturnedAt(WorkerPool.After(WorkerPool.Start(count, limit), steps), i)
  {
    hide WorkerPool.After, WorkerPool.Allowed, WorkerPool.AllLeft;
    WorkerPool.EveryItemOnce(count, limit, steps);
  }

  lemma AllDone(p: WorkerPool.Pool, order: seq<Sha>, bodies: map<Sha, Text>)
    requires |order| == p.count && (forall i | 0 <= i < |order| :: order[i] in bodies)
               && forall sha | sha in bodies :: sha in order
    requires forall i: nat | i < |order| :: ReturnedAt(p, i)
    ensures Done(p, order, bodies) == bodies
  {
    hide ReturnedAt;
    forall sha | sha in bodies
      ensures sha in Done(p, order, bodies)
    {
      var i :| 0 <= i < |order| && order[i] == sha;
    }
  }

  // --- Save, sweep, load ------------------------------------------------------------------------

  /** A bundle saved, swept over by a collection that spares its manifest, and loaded again. */
  method SaveSweepLoad(pool: GuardPool, scope: string, files: seq<File>, at: Sha -> int, live: set<Sha>, before: Before)
    returns (saved: SaveResult, loaded: LoadResult)
    requires Faithful(pool.rows, scope) && DistinctRels(files) && forall i | 0 <= i < |files| :: Units(files[i].text)
    requires forall sha | sha in BodiesOf(files) :: sha in live
    modifies pool
    ensures saved.Saved? <==> forall f | f in files :: f.rel == PROTO || SafeRel(f.rel)
    ensures saved.UnsafePath? ==> pool.rows == old(pool.rows)
    ensures saved.Saved? ==> loaded.Loaded? && LoadsBack(files, loaded.files)
    ensures saved.Saved? ==>
              (SameFiles(files, loaded.files) <==>
               forall i | 0 <= i < |files| :: files[i].rel != PROTO && WellFormed(files[i].text))
  {
    hide BodiesOf, ManifestOf, SafeRel, WellFormed, Scrub, LoadsBack, SameFiles;
    ghost var rows := pool.rows;
    saved := pool.SaveBundle(scope, files, at);
    if saved.UnsafePath? { return saved, UnsafeStored(saved.rel); }
    var _ := pool.Gc(scope, live, before);
    SaveAndSweepLoads(rows, scope, files, at, live, before);
    SparedIsLoadable(rows, scope, files, at, live, before);
    loaded := pool.LoadBundle(scope, saved.manifest);
    RoundTripExactlyWhen(files, loaded.files);
  }

  lemma SparedIsLoadable(rows: Rows, scope: string, files: seq<File>, at: Sha -> int, live: set<Sha>, before: Before)
    requires DistinctRels(files) && (forall f | f in files :: f.rel == PROTO || SafeRel(f.rel))
    requires forall sha | sha in BodiesOf(files) :: sha in live
    ensures forall rel | rel in ManifestOf(files) ::
              SafeRel(rel) && Stores(Collected(PutAll(rows, scope, BodiesOf(files), at), scope, live, before), scope,
                                     ManifestOf(files)[rel])
  {
    hide SafeRel, BodiesOf, ManifestOf;
    forall rel | rel in ManifestOf(files)
      ensures SafeRel(rel) && ManifestOf(files)[rel] in BodiesOf(files)
    {
      ManifestNames(files, rel);
      ManifestStored(files, rel);
      var i :| 0 <= i < |files| && files[i].rel == rel;
      assert files[i] in files;
    }
  }

  /** A file called `__proto__` is saved without an error and never comes back. */
  lemma ProtoIsLost(rows: Rows, scope: string, text: Text)
    ensures ManifestOf([File(PROTO, text)]) == map[] && LoadedFrom(rows, scope, map[]) == map[]
    ensures !SameFiles([File(PROTO, text)], map[])
  {
    var files := [File(PROTO, text)];
    assert files[..0] == [];
    assert HasFile(files, PROTO) by { assert files[0].rel == PROTO; }
  }
}
