/**
 * Saves, restores, trims and sweeps of one repository's stored versions, interleaved
 * (packages/data-store/src/version-sweep.ts, content-store.ts, guard-store.ts).
 */
module VersionSweep {
  // Every database statement is one step, so `gc`'s SELECT and DELETE are two steps, a restore's read
  // and insert are two steps, and a trim's SELECT and DELETE are two steps: the code wraps none of these
  // pairs in a transaction. The clock is a number that only grows.
  //
  // The main result, `SweepsAreSafeExactlyWhen`, is exact: no surviving manifest can ever name
  // a missing body, over every run, if and only if
  //  - the two time windows (puts to row, manifest reads to cutoff) add up to at most the grace period,
  //  - no body is put again between a sweep's SELECT that chose it and that sweep's DELETE, and
  //  - a restore inserts its copy while the row it copies is still stored.

  import opened Common
  import opened ContentPool
  import opened Retention

  /** The two manifest tables that point into a repository's `guard:` pool. */
  datatype Table = ScenarioSets | SetupSets
  datatype Series = Series(table: Table, scope: string)

  /** Version ids order by time with a random tail; only their order matters here. */
  type VersionId = nat
  datatype Version = Version(series: Series, createdAt: int, files: set<Sha>)

  /** A sweep in progress: what it has read, the cutoff once taken, the shas its SELECT chose. */
  datatype Sweep = Sweep(start: int, unread: set<Table>, live: set<Sha>, cutoff: Cutoff, chosen: Chosen)
  datatype Cutoff = NotYet | At(moment: int)
  datatype Chosen = Unselected | Selected(dead: set<Sha>)

  datatype Restore = Restore(source: VersionId, version: Version)

  datatype State = State(
    now: int,
    scope: string,
    content: Rows,
    versions: map<VersionId, Version>,
    used: set<VersionId>,
    saves: map<nat, map<Sha, int>>,
    restores: map<nat, Restore>,
    trims: map<nat, set<VersionId>>,
    sweeps: map<nat, Sweep>)

  function Init(scope: string): State {
    State(0, scope, map[], map[], {}, map[], map[], map[], map[])
  }

  datatype Step =
    | Tick(elapsed: nat)
    | Put(save: nat, sha: Sha, body: Text)
    | InsertVersion(save: nat, id: VersionId, version: Version)
    | RestoreRead(restore: nat, source: VersionId)
    | RestoreInsert(restore: nat, id: VersionId, createdAt: int)
    | TrimSelect(trim: nat, series: Series)
    | TrimDelete(trim: nat)
    | SweepRead(sweep: nat, table: Table)
    | SweepTakeCutoff(sweep: nat)
    | GcSelect(sweep: nat)
    | GcDelete(sweep: nat)

  /** What the deployment is assumed to keep to: time windows, and two ordering rules. */
  datatype Discipline = Discipline(window: nat, delay: nat, gcUndisturbed: bool, restoreAtomic: bool)

  // --- Retention of one series -------------------------------------------------

  /** Newest first is (createdAt, id) descending. */
  predicate NewerThan(versions: map<VersionId, Version>, a: VersionId, b: VersionId)
    requires a in versions && b in versions
  {
    versions[a].createdAt > versions[b].createdAt || (versions[a].createdAt == versions[b].createdAt && a > b)
  }

  function Newer(versions: map<VersionId, Version>, id: VersionId): set<VersionId>
    requires id in versions
  {
    set other | other in versions && versions[other].series == versions[id].series && NewerThan(versions, other, id)
  }

  /** `idsNewestFirst.slice(keep)`: the ids with at least `keep` newer ones in their series. */
  function BeyondKeep(versions: map<VersionId, Version>, series: Series): set<VersionId> {
    set id | id in versions && versions[id].series == series && |Newer(versions, id)| >= KEEP
  }

  function TrimRows(versions: map<VersionId, Version>, beyond: set<VersionId>, now: int): map<VersionId, Version> {
    map id | id in versions && !(id in beyond && versions[id].createdAt < RetentionCutoff(now)) :: versions[id]
  }

  function FilesOf(versions: map<VersionId, Version>, table: Table): set<Sha> {
    set id, sha | id in versions && versions[id].series.table == table && sha in versions[id].files :: sha
  }

  // --- Steps -------------------------------------------------------------------

  ghost predicate Enabled(d: Discipline, s: State, step: Step) {
    match step
    case Tick(_) => true
    case Put(save, sha, _) =>
      d.gcUndisturbed ==> forall w | w in s.sweeps && s.sweeps[w].chosen.Selected? :: sha !in s.sweeps[w].chosen.dead
    case InsertVersion(save, id, version) =>
      && id !in s.used
      && version.createdAt <= s.now
      && save in s.saves
      && forall sha | sha in version.files :: sha in s.saves[save] && s.now <= s.saves[save][sha] + d.window
    case RestoreRead(restore, source) => restore !in s.restores && source in s.versions
    case RestoreInsert(restore, id, createdAt) =>
      && id !in s.used
      && createdAt <= s.now
      && restore in s.restores
      && (d.restoreAtomic ==> s.restores[restore].source in s.versions)
    case TrimSelect(trim, _) => trim !in s.trims
    case TrimDelete(trim) => trim in s.trims
    case SweepRead(sweep, table) => sweep in s.sweeps ==> table in s.sweeps[sweep].unread
    case SweepTakeCutoff(sweep) =>
      && sweep in s.sweeps
      && s.sweeps[sweep].unread == {}
      && s.sweeps[sweep].cutoff.NotYet?
      && s.now <= s.sweeps[sweep].start + d.delay
    case GcSelect(sweep) =>
      sweep in s.sweeps && s.sweeps[sweep].cutoff.At? && s.sweeps[sweep].chosen.Unselected?
    case GcDelete(sweep) => sweep in s.sweeps && s.sweeps[sweep].chosen.Selected?
  }

  function Next(s: State, step: Step): State {
    match step
    case Tick(elapsed) => s.(now := s.now + elapsed)
    case Put(save, sha, body) =>
      var puts := if save in s.saves then s.saves[save] else map[];
      s.(content := PutRow(s.content, Key(s.scope, sha), body, s.now), saves := s.saves[save := puts[sha := s.now]])
    case InsertVersion(_, id, version) =>
      s.(versions := s.versions[id := version], used := s.used + {id})
    case RestoreRead(restore, source) =>
      if source in s.versions then s.(restores := s.restores[restore := Restore(source, s.versions[source])]) else s
    case RestoreInsert(restore, id, createdAt) =>
      if restore in s.restores then
        s.(versions := s.versions[id := s.restores[restore].version.(createdAt := createdAt)], used := s.used + {id})
      else s
    case TrimSelect(trim, series) => s.(trims := s.trims[trim := BeyondKeep(s.versions, series)])
    case TrimDelete(trim) =>
      if trim in s.trims then
        s.(versions := TrimRows(s.versions, s.trims[trim], s.now), trims := s.trims - {trim})
      else s
    case SweepRead(sweep, table) =>
      var sw := if sweep in s.sweeps then s.sweeps[sweep]
          else Sweep(s.now, {ScenarioSets, SetupSets}, {}, NotYet, Unselected);
      s.(sweeps := s.sweeps[sweep := sw.(unread := sw.unread - {table}, live := sw.live + FilesOf(s.versions, table))])
    case SweepTakeCutoff(sweep) =>
      if sweep in s.sweeps then
        s.(sweeps := s.sweeps[sweep := s.sweeps[sweep].(cutoff := At(SweepCutoff(s.now)))])
      else s
    case GcSelect(sweep) =>
      if sweep in s.sweeps && s.sweeps[sweep].cutoff.At? then
        var sw := s.sweeps[sweep];
        s.(sweeps := s.sweeps[sweep :=
            sw.(chosen := Selected(DeadShas(s.content, s.scope, sw.live, Before(sw.cutoff.moment))))])
      else s
    case GcDelete(sweep) =>
      if sweep in s.sweeps && s.sweeps[sweep].chosen.Selected? then
        s.(content := DeleteShas(s.content, s.scope, s.sweeps[sweep].chosen.dead), sweeps := s.sweeps - {sweep})
      else s
  }

  ghost predicate Allowed(d: Discipline, s: State, steps: seq<Step>)
    decreases |steps|
  {
    steps == [] || (Enabled(d, s, steps[0]) && Allowed(d, Next(s, steps[0]), steps[1..]))
  }

  function After(s: State, steps: seq<Step>): State
    decreases |steps|
  {
    if steps == [] then s else After(Next(s, steps[0]), steps[1..])
  }

  // --- The property and its invariant -------------------------------------------

  ghost predicate Has(s: State, sha: Sha) { Key(s.scope, sha) in s.content }

  ghost predicate StampedSince(s: State, sha: Sha, moment: int) {
    Has(s, sha) && s.content[Key(s.scope, sha)].createdAt >= moment
  }

  /** No surviving manifest names a missing body. */
  ghost predicate NothingDangles(s: State) {
    forall id, sha | id in s.versions && sha in s.versions[id].files :: Has(s, sha)
  }

  /** A put that can no longer be followed by its row in time. */
  ghost predicate Expired(d: Discipline, s: State, putAt: int) { s.now > putAt + d.window }

  ghost predicate SavesProtected(d: Discipline, s: State) {
    forall save, sha | save in s.saves && sha in s.saves[save] ::
      s.saves[save][sha] <= s.now && (Expired(d, s, s.saves[save][sha]) || StampedSince(s, sha, s.saves[save][sha]))
  }

  /** What a sweep has read is in its live set, or was put too recently for its cutoff to reach. */
  ghost predicate SweepSees(d: Discipline, s: State, sw: Sweep) {
    && sw.start <= s.now
    && (forall id, sha | id in s.versions && s.versions[id].series.table !in sw.unread && sha in s.versions[id].files ::
          sha in sw.live || StampedSince(s, sha, sw.start - d.window))
    && (sw.cutoff.At? ==> sw.unread == {} && sw.cutoff.moment <= sw.start + d.delay - CONTENT_SWEEP_GRACE_MS
                          && sw.cutoff.moment <= s.now - CONTENT_SWEEP_GRACE_MS)
    && (sw.chosen.Selected? ==> SpareOf(d, s, sw.chosen.dead))
  }

  /** Nothing a row names or a live save still counts on is among the shas about to be deleted. */
  ghost predicate SpareOf(d: Discipline, s: State, dead: set<Sha>) {
    && (forall id, sha | id in s.versions && sha in s.versions[id].files :: sha !in dead)
    && (forall save, sha | save in s.saves && sha in s.saves[save] && sha in dead :: Expired(d, s, s.saves[save][sha]))
  }

  ghost predicate Inv(d: Discipline, s: State) {
    && NothingDangles(s)
    && SavesProtected(d, s)
    && (forall w | w in s.sweeps :: SweepSees(d, s, s.sweeps[w]))
    && s.versions.Keys <= s.used
    && (forall r | r in s.restores :: s.restores[r].source in s.used)
    && (forall r | r in s.restores && s.restores[r].source in s.versions ::
          s.versions[s.restores[r].source] == s.restores[r].version)
  }

  ghost predicate Good(d: Discipline) {
    d.gcUndisturbed && d.restoreAtomic && d.window + d.delay <= CONTENT_SWEEP_GRACE_MS
  }

  lemma PutKeepsInvariant(d: Discipline, s: State, save: nat, sha: Sha, body: Text)
    requires Good(d) && Inv(d, s) && Enabled(d, s, Put(save, sha, body))
    ensures Inv(d, Next(s, Put(save, sha, body)))
  {
    hide BeyondKeep, TrimRows, FilesOf, DeadShas, DeleteShas;
    var t := Next(s, Put(save, sha, body));
    forall other | Has(s, other)
      ensures Has(t, other)
      ensures t.content[Key(s.scope, other)].createdAt == s.now
                || t.content[Key(s.scope, other)] == s.content[Key(s.scope, other)]
    {
    }
    assert StampedSince(t, sha, s.now);
    assert SavesProtected(d, t);
    forall w | w in t.sweeps
      ensures SweepSees(d, t, t.sweeps[w])
    {
      assert SweepSees(d, s, s.sweeps[w]);
    }
  }

  lemma GcSelectKeepsInvariant(d: Discipline, s: State, sweep: nat)
    requires Good(d) && Inv(d, s) && Enabled(d, s, GcSelect(sweep))
    ensures Inv(d, Next(s, GcSelect(sweep)))
  {
    var t := Next(s, GcSelect(sweep));
    var sw := s.sweeps[sweep];
    assert SweepSees(d, s, sw);
    assert SpareOf(d, t, t.sweeps[sweep].chosen.dead);
    assert forall other | Has(s, other) :: Has(t, other);
    forall w | w in t.sweeps
      ensures SweepSees(d, t, t.sweeps[w])
    {
      assert w != sweep ==> SweepSees(d, s, s.sweeps[w]);
    }
  }

  lemma GcDeleteKeepsInvariant(d: Discipline, s: State, sweep: nat)
    requires Good(d) && Inv(d, s) && Enabled(d, s, GcDelete(sweep))
    ensures Inv(d, Next(s, GcDelete(sweep)))
  {
    var t := Next(s, GcDelete(sweep));
    assert SweepSees(d, s, s.sweeps[sweep]);
    forall other | Has(s, other) && other !in s.sweeps[sweep].chosen.dead
      ensures Has(t, other) && t.content[Key(s.scope, other)] == s.content[Key(s.scope, other)]
    {
    }
    forall w | w in t.sweeps
      ensures SweepSees(d, t, t.sweeps[w])
    {
      assert SweepSees(d, s, s.sweeps[w]);
    }
  }

  /** A row whose bodies are stored, recent enough for every sweep, and chosen by none, may be added. */
  lemma AddedRowKeepsInvariant(d: Discipline, s: State, id: VersionId, version: Version, t: State)
    requires Inv(d, s) && id !in s.used
    requires t == s.(versions := s.versions[id := version], used := s.used + {id})
    requires forall sha | sha in version.files :: Has(s, sha)
    requires forall w, sha | w in s.sweeps && sha in version.files ::
               && (version.series.table !in s.sweeps[w].unread ==>
                   sha in s.sweeps[w].live || StampedSince(s, sha, s.sweeps[w].start - d.window))
               && (s.sweeps[w].chosen.Selected? ==> sha !in s.sweeps[w].chosen.dead)
    ensures Inv(d, t)
  {
    assert forall sha | Has(s, sha) :: Has(t, sha);
    forall w | w in t.sweeps
      ensures SweepSees(d, t, t.sweeps[w])
    {
      assert SweepSees(d, s, s.sweeps[w]);
    }
  }

  lemma InsertKeepsInvariant(d: Discipline, s: State, save: nat, id: VersionId, version: Version)
    requires Good(d) && Inv(d, s) && Enabled(d, s, InsertVersion(save, id, version))
    ensures Inv(d, Next(s, InsertVersion(save, id, version)))
  {
    forall sha | sha in version.files
      ensures StampedSince(s, sha, s.now - d.window)
      ensures !Expired(d, s, s.saves[save][sha])
    {
    }
    forall w | w in s.sweeps ensures SweepSees(d, s, s.sweeps[w]) {}
    AddedRowKeepsInvariant(d, s, id, version, Next(s, InsertVersion(save, id, version)));
  }

  lemma RestoreKeepsInvariant(d: Discipline, s: State, restore: nat, id: VersionId, createdAt: int)
    requires Good(d) && Inv(d, s) && Enabled(d, s, RestoreInsert(restore, id, createdAt))
    ensures Inv(d, Next(s, RestoreInsert(restore, id, createdAt)))
  {
    var source := s.restores[restore].source;
    assert s.versions[source] == s.restores[restore].version;
    forall w | w in s.sweeps ensures SweepSees(d, s, s.sweeps[w]) {}
    AddedRowKeepsInvariant(d, s, id, s.restores[restore].version.(createdAt := createdAt),
                           Next(s, RestoreInsert(restore, id, createdAt)));
  }

  /** Time passing and rows going leave what a sweep knows true. */
  lemma FewerRowsLaterKeepSight(d: Discipline, s: State, t: State, sw: Sweep)
    requires SweepSees(d, s, sw)
    requires t.content == s.content && t.scope == s.scope && t.saves == s.saves && t.now >= s.now
    requires forall id | id in t.versions :: id in s.versions && t.versions[id] == s.versions[id]
    ensures SweepSees(d, t, sw)
  {
    assert forall sha, moment | StampedSince(s, sha, moment) :: StampedSince(t, sha, moment);
  }

  /** A table read makes its rows' bodies live. */
  lemma ReadSees(d: Discipline, s: State, t: State, sw: Sweep, table: Table)
    requires SweepSees(d, s, sw) && sw.cutoff.NotYet?
    requires t.content == s.content && t.scope == s.scope && t.saves == s.saves && t.now == s.now
    requires t.versions == s.versions
    ensures SweepSees(d, t, sw.(unread := sw.unread - {table}, live := sw.live + FilesOf(s.versions, table)))
  {
    FewerRowsLaterKeepSight(d, s, t, sw);
  }

  lemma FirstSight(d: Discipline, s: State)
    requires Inv(d, s)
    ensures SweepSees(d, s, Sweep(s.now, {ScenarioSets, SetupSets}, {}, NotYet, Unselected))
  {
    forall id | id in s.versions
      ensures s.versions[id].series.table in {ScenarioSets, SetupSets}
    {
      assert s.versions[id].series.table.ScenarioSets? || s.versions[id].series.table.SetupSets?;
    }
  }

  lemma UnreadIsOpen(d: Discipline, s: State, sweep: nat, table: Table)
    requires Inv(d, s) && sweep in s.sweeps && table in s.sweeps[sweep].unread
    ensures s.sweeps[sweep].cutoff.NotYet?
  {
    assert SweepSees(d, s, s.sweeps[sweep]);
  }

  lemma SweepReadKeepsInvariant(d: Discipline, s: State, sweep: nat, table: Table)
    requires Good(d) && Inv(d, s) && Enabled(d, s, SweepRead(sweep, table))
    ensures Inv(d, Next(s, SweepRead(sweep, table)))
  {
    hide FilesOf, BeyondKeep, TrimRows, DeadShas, DeleteShas, PutRow;
    var t := Next(s, SweepRead(sweep, table));
    assert forall sha | Has(s, sha) :: Has(t, sha);
    forall w | w in t.sweeps
      ensures SweepSees(d, t, t.sweeps[w])
    {
      if w != sweep { FewerRowsLaterKeepSight(d, s, t, s.sweeps[w]); }
      else if w in s.sweeps { UnreadIsOpen(d, s, w, table); ReadSees(d, s, t, s.sweeps[w], table); }
      else
        { FirstSight(d, s); ReadSees(d, s, t, Sweep(s.now, {ScenarioSets, SetupSets}, {}, NotYet, Unselected), table); }
    }
  }

  lemma FewerRowsLaterKeepInvariant(d: Discipline, s: State, t: State)
    requires Inv(d, s)
    requires t.content == s.content && t.scope == s.scope && t.saves == s.saves && t.now >= s.now
    requires t.sweeps == s.sweeps && t.used == s.used
    requires forall r | r in t.restores ::
               || (r in s.restores && t.restores[r] == s.restores[r])
               || (t.restores[r].source in s.versions && s.versions[t.restores[r].source] == t.restores[r].version)
    requires forall id | id in t.versions :: id in s.versions && t.versions[id] == s.versions[id]
    ensures Inv(d, t)
  {
    assert forall sha | Has(s, sha) :: Has(t, sha);
    forall w | w in t.sweeps
      ensures SweepSees(d, t, t.sweeps[w])
    {
      FewerRowsLaterKeepSight(d, s, t, s.sweeps[w]);
    }
  }

  lemma CutoffKeepsInvariant(d: Discipline, s: State, sweep: nat)
    requires Good(d) && Inv(d, s) && Enabled(d, s, SweepTakeCutoff(sweep))
    ensures Inv(d, Next(s, SweepTakeCutoff(sweep)))
  {
    var t := Next(s, SweepTakeCutoff(sweep));
    assert forall sha | Has(s, sha) :: Has(t, sha);
    assert SweepSees(d, s, s.sweeps[sweep]);
    forall w | w in t.sweeps
      ensures SweepSees(d, t, t.sweeps[w])
    {
      FewerRowsLaterKeepSight(d, s, t, s.sweeps[w]);
    }
  }

  /** One step of any participant keeps the invariant. */
  lemma StepKeepsInvariant(d: Discipline, s: State, step: Step)
    requires Good(d) && Inv(d, s) && Enabled(d, s, step)
    ensures Inv(d, Next(s, step))
  {
    match step
    case Tick(_) => FewerRowsLaterKeepInvariant(d, s, Next(s, step));
    case Put(save, sha, body) => PutKeepsInvariant(d, s, save, sha, body);
    case InsertVersion(save, id, version) => InsertKeepsInvariant(d, s, save, id, version);
    case RestoreRead(_, _) => FewerRowsLaterKeepInvariant(d, s, Next(s, step));
    case RestoreInsert(restore, id, createdAt) => RestoreKeepsInvariant(d, s, restore, id, createdAt);
    case TrimSelect(_, _) => FewerRowsLaterKeepInvariant(d, s, Next(s, step));
    case TrimDelete(_) => FewerRowsLaterKeepInvariant(d, s, Next(s, step));
    case SweepRead(sweep, table) => SweepReadKeepsInvariant(d, s, sweep, table);
    case SweepTakeCutoff(sweep) => CutoffKeepsInvariant(d, s, sweep);
    case GcSelect(sweep) => GcSelectKeepsInvariant(d, s, sweep);
    case GcDelete(sweep) => GcDeleteKeepsInvariant(d, s, sweep);
  }

  /** Safety over whole runs. */
  lemma {:induction false} RunKeepsInvariant(d: Discipline, s: State, steps: seq<Step>)
    requires Good(d) && Inv(d, s) && Allowed(d, s, steps)
    ensures Inv(d, After(s, steps))
    decreases |steps|
  {
    if steps != [] {
      StepKeepsInvariant(d, s, steps[0]);
      RunKeepsInvariant(d, Next(s, steps[0]), steps[1..]);
    }
  }

  // --- Each rule is needed ------------------------------------------------------

  ghost predicate Reaches(d: Discipline, from: State, to: State) {
    exists steps :: Allowed(d, from, steps) && After(from, steps) == to
  }

  lemma {:induction false} AppendStep(d: Discipline, from: State, steps: seq<Step>, step: Step)
    requires Allowed(d, from, steps) && Enabled(d, After(from, steps), step)
    ensures Allowed(d, from, steps + [step])
    ensures After(from, steps + [step]) == Next(After(from, steps), step)
    decreases |steps|
  {
    var longer := steps + [step];
    if steps == [] {
      assert longer[1..] == [];
    } else {
      AppendStep(d, Next(from, steps[0]), steps[1..], step);
      assert longer[1..] == steps[1..] + [step];
    }
  }

  lemma Take(d: Discipline, from: State, at: State, step: Step) returns (to: State)
    requires Reaches(d, from, at) && Enabled(d, at, step)
    ensures Reaches(d, from, to) && to == Next(at, step)
  {
    var steps :| Allowed(d, from, steps) && After(from, steps) == at;
    AppendStep(d, from, steps, step);
    to := Next(at, step);
  }

  /** A sweep reads both manifest tables at one moment. */
  lemma SweepReadsTables(d: Discipline, from: State, at: State) returns (to: State, live: set<Sha>)
    requires Reaches(d, from, at) && at.sweeps == map[]
    ensures live == FilesOf(at.versions, ScenarioSets) + FilesOf(at.versions, SetupSets)
    ensures Reaches(d, from, to) && to == at.(sweeps := map[0 := Sweep(at.now, {}, live, NotYet, Unselected)])
  {
    hide FilesOf, BeyondKeep, TrimRows, DeleteShas, DeadShas, PutRow;
    live := FilesOf(at.versions, ScenarioSets) + FilesOf(at.versions, SetupSets);
    to := Take(d, from, at, SweepRead(0, ScenarioSets));
    to := Take(d, from, to, SweepRead(0, SetupSets));
    assert to.sweeps[0].live == live && to.sweeps[0].unread == {};
  }

  lemma SweepTakesCutoff(d: Discipline, from: State, at: State, start: int, live: set<Sha>) returns (to: State)
    requires Reaches(d, from, at) && at.sweeps == map[0 := Sweep(start, {}, live, NotYet, Unselected)]
    requires at.now <= start + d.delay
    ensures Reaches(d, from, to)
    ensures to == at.(sweeps := map[0 := Sweep(start, {}, live, At(SweepCutoff(at.now)), Unselected)])
  {
    hide FilesOf, BeyondKeep, TrimRows, DeleteShas, DeadShas, PutRow;
    to := Take(d, from, at, SweepTakeCutoff(0));
  }

  /** Its cutoff taken in time, the sweep selects what is dead. */
  lemma SweepSelects(d: Discipline, from: State, at: State, start: int, live: set<Sha>)
      returns (to: State, dead: set<Sha>)
    requires Reaches(d, from, at) && at.sweeps == map[0 := Sweep(start, {}, live, NotYet, Unselected)]
    requires at.now <= start + d.delay
    ensures dead == DeadShas(at.content, at.scope, live, Before(SweepCutoff(at.now)))
    ensures Reaches(d, from, to)
    ensures to == at.(sweeps := map[0 := Sweep(start, {}, live, At(SweepCutoff(at.now)), Selected(dead))])
  {
    hide FilesOf, BeyondKeep, TrimRows, DeleteShas, DeadShas, PutRow;
    dead := DeadShas(at.content, at.scope, live, Before(SweepCutoff(at.now)));
    to := SweepTakesCutoff(d, from, at, start, live);
    to := Take(d, from, to, GcSelect(0));
  }

  lemma SweepDeletes(d: Discipline, from: State, at: State, dead: set<Sha>) returns (to: State)
    requires Reaches(d, from, at) && 0 in at.sweeps && at.sweeps[0].chosen == Selected(dead)
    ensures Reaches(d, from, to)
    ensures to == at.(content := DeleteShas(at.content, at.scope, dead), sweeps := at.sweeps - {0})
  {
    hide FilesOf, BeyondKeep, TrimRows, DeleteShas, DeadShas, PutRow;
    to := Take(d, from, at, GcDelete(0));
  }

  /** A body put and named by a new row, whatever a sweep has selected. */
  lemma PutAndNamed(d: Discipline, from: State, at: State) returns (to: State)
    requires !d.gcUndisturbed && Reaches(d, from, at) && at.used == {} && 1 !in at.saves && at.now >= 0
    ensures Reaches(d, from, to)
    ensures to == at.(content := PutRow(at.content, Key(at.scope, BODY), [], at.now),
                      saves := at.saves[1 := map[BODY := at.now]],
                      versions := at.versions[0 := Version(SERIES, 0, {BODY})], used := {0})
  {
    hide FilesOf, BeyondKeep, TrimRows, DeleteShas, DeadShas, PutRow;
    to := Take(d, from, at, Put(1, BODY, []));
    to := Take(d, from, to, InsertVersion(1, 0, Version(SERIES, 0, {BODY})));
  }

  const BODY := Sha256([])
  const SERIES := Series(ScenarioSets, "")

  lemma FirstPut(d: Discipline, scope: string) returns (s: State)
    ensures Reaches(d, Init(scope), s)
    ensures s == Init(scope).(content := map[Key(scope, BODY) := Stored([], 0)], saves := map[0 := map[BODY := 0]])
  {
    assert After(Init(scope), []) == Init(scope);
    s := Take(d, Init(scope), Init(scope), Put(0, BODY, []));
  }

  /** Windows adding up past the grace period: the row lands between a sweep's read and its cutoff. */
  lemma WindowsPastGraceDangle(d: Discipline, scope: string) returns (s: State)
    requires d.window + d.delay > CONTENT_SWEEP_GRACE_MS
    ensures Reaches(d, Init(scope), s) && !NothingDangles(s)
  {
    hide BeyondKeep, TrimRows, Allowed, After;
    var from := Init(scope);
    s := FirstPut(d, scope);
    s := Take(d, from, s, Tick(d.window));
    var live, dead;
    s, live := SweepReadsTables(d, from, s);
    s := Take(d, from, s, InsertVersion(0, 0, Version(SERIES, 0, {BODY})));
    s := Take(d, from, s, Tick(d.delay));
    s, dead := SweepSelects(d, from, s, d.window, live);
    assert Key(scope, BODY) in s.content;
    s := SweepDeletes(d, from, s, dead);
    assert BODY in s.versions[0].files && !Has(s, BODY);
  }

  /** A body put again between SELECT and DELETE: the new stamp is not looked at, and the DELETE takes it. */
  lemma DisturbedGcDangles(d: Discipline, scope: string) returns (s: State)
    requires !d.gcUndisturbed
    ensures Reaches(d, Init(scope), s) && !NothingDangles(s)
  {
    hide BeyondKeep, TrimRows;
    var from := Init(scope);
    s := FirstPut(d, scope);
    s := Take(d, from, s, Tick(CONTENT_SWEEP_GRACE_MS + 1));
    var live, dead;
    s, live := SweepReadsTables(d, from, s);
    s, dead := SweepSelects(d, from, s, s.now, live);
    assert Key(scope, BODY) in s.content;
    s := PutAndNamed(d, from, s);
    s := SweepDeletes(d, from, s, dead);
    assert BODY in s.versions[0].files && !Has(s, BODY);
  }

  /** Version 0 with `n` newer empty versions above it in its series. */
  ghost predicate Buried(at: State, s: State, n: nat)
    requires 0 in at.versions
  {
    && s == at.(versions := s.versions, used := s.used)
    && (forall id: nat :: id in s.versions <==> id <= n)
    && (forall id: nat :: id in s.used <==> id <= n)
    && s.versions[0] == at.versions[0]
    && (forall id: nat | 1 <= id <= n :: s.versions[id] == Version(SERIES, at.now, {}))
  }

  lemma {:induction false} BuryVersion(d: Discipline, from: State, at: State, n: nat) returns (s: State)
    requires Reaches(d, from, at) && 0 in at.saves && at.used == {0} && at.versions.Keys == {0}
    ensures Reaches(d, from, s) && Buried(at, s, n)
  {
    if n == 0 {
      s := at;
    } else {
      s := BuryVersion(d, from, at, n - 1);
      s := Take(d, from, s, InsertVersion(0, n, Version(SERIES, at.now, {})));
    }
  }

  lemma {:induction false} AtLeast(ids: set<VersionId>, n: nat)
    requires forall id: nat | 1 <= id <= n :: id in ids
    ensures |ids| >= n
  {
    if n > 0 { AtLeast(ids - {n}, n - 1); }
  }

  /** Ten newer versions and ninety days later, the first version is trimmed. */
  lemma TrimTakesBuried(d: Discipline, from: State, at: State, s: State) returns (t: State)
    requires Reaches(d, from, s) && 0 in at.versions && Buried(at, s, KEEP) && s.trims == map[]
    requires s.versions[0].series == SERIES && s.versions[0].createdAt < RetentionCutoff(s.now)
    ensures Reaches(d, from, t)
    ensures t.sweeps == s.sweeps && t.content == s.content && t.now == s.now && t.scope == s.scope
    ensures t.used == s.used && t.restores == s.restores
    ensures forall id | id in t.versions :: t.versions[id].files == {}
  {
    AtLeast(Newer(s.versions, 0), KEEP);
    t := Take(d, from, s, TrimSelect(0, SERIES));
    assert 0 in t.trims[0];
    t := Take(d, from, t, TrimDelete(0));
  }

  /** A restore has read its source, and the source is trimmed before it inserts. */
  lemma RestoreOutlivesSource(d: Discipline, scope: string) returns (s: State)
    ensures Reaches(d, Init(scope), s) && s.scope == scope && s.sweeps == map[]
    ensures s.content == map[Key(scope, BODY) := Stored([], 0)] && s.now == KEEP_DAYS * 24 * 60 * 60 * 1000 + 1
    ensures s.restores == map[0 := Restore(0, Version(SERIES, 0, {BODY}))]
    ensures (forall id | id in s.versions :: s.versions[id].files == {}) && KEEP + 1 !in s.used
  {
    hide BeyondKeep, TrimRows, FilesOf, DeadShas, DeleteShas;
    var from := Init(scope);
    s := FirstPut(d, scope);
    s := Take(d, from, s, InsertVersion(0, 0, Version(SERIES, 0, {BODY})));
    s := Take(d, from, s, RestoreRead(0, 0));
    s := Take(d, from, s, Tick(KEEP_DAYS * 24 * 60 * 60 * 1000 + 1));
    var buried := BuryVersion(d, from, s, KEEP);
    s := TrimTakesBuried(d, from, s, buried);
  }

  lemma NothingNamed(versions: map<VersionId, Version>, table: Table)
    requires forall id | id in versions :: versions[id].files == {}
    ensures FilesOf(versions, table) == {}
  {
  }

  /** A restore whose source is trimmed, and its bodies swept, between its read and its insert. */
  lemma StaleRestoreDangles(d: Discipline, scope: string) returns (s: State)
    requires !d.restoreAtomic
    ensures Reaches(d, Init(scope), s) && !NothingDangles(s)
  {
    hide BeyondKeep, TrimRows, FilesOf;
    var from := Init(scope);
    s := RestoreOutlivesSource(d, scope);
    NothingNamed(s.versions, ScenarioSets);
    NothingNamed(s.versions, SetupSets);
    var live, dead;
    s, live := SweepReadsTables(d, from, s);
    s, dead := SweepSelects(d, from, s, s.now, live);
    assert Key(scope, BODY) in s.content && BODY in dead;
    s := SweepDeletes(d, from, s, dead);
    s := Take(d, from, s, RestoreInsert(0, KEEP + 1, 0));
    assert BODY in s.versions[KEEP + 1].files && !Has(s, BODY);
  }

  ghost predicate SafeOverAllRuns(d: Discipline, scope: string) {
    forall steps | Allowed(d, Init(scope), steps) :: NothingDangles(After(Init(scope), steps))
  }

  /** The collector is safe over every run exactly under the two ordering rules and the grace period. */
  lemma SweepsAreSafeExactlyWhen(d: Discipline, scope: string)
    ensures SafeOverAllRuns(d, scope) <==>
            d.gcUndisturbed && d.restoreAtomic && d.window + d.delay <= CONTENT_SWEEP_GRACE_MS
  {
    if Good(d) {
      forall steps | Allowed(d, Init(scope), steps)
        ensures NothingDangles(After(Init(scope), steps))
      {
        RunKeepsInvariant(d, Init(scope), steps);
      }
    } else if d.window + d.delay > CONTENT_SWEEP_GRACE_MS {
      var _ := WindowsPastGraceDangle(d, scope);
    } else if !d.gcUndisturbed {
      var _ := DisturbedGcDangles(d, scope);
    } else {
      var _ := StaleRestoreDangles(d, scope);
    }
  }

  // --- Trimming: concurrent trims never reach the newest versions -----------------

  /** Among finitely many versions, those with fewer than `k` above them number at least min(k, size). */
  function Top(versions: map<VersionId, Version>, ids: set<VersionId>, k: nat): set<VersionId>
    requires ids <= versions.Keys
  {
    set id | id in ids && |Above(versions, ids, id)| < k
  }

  function Above(versions: map<VersionId, Version>, ids: set<VersionId>, id: VersionId): set<VersionId>
    requires ids <= versions.Keys && id in ids
  {
    set other | other in ids && NewerThan(versions, other, id)
  }

  lemma {:induction false} Oldest(versions: map<VersionId, Version>, ids: set<VersionId>) returns (oldest: VersionId)
    requires ids <= versions.Keys && ids != {}
    ensures oldest in ids && forall id | id in ids && id != oldest :: NewerThan(versions, id, oldest)
  {
    var id :| id in ids;
    if ids == {id} {
      oldest := id;
    } else {
      var rest := Oldest(versions, ids - {id});
      oldest := if NewerThan(versions, rest, id) then id else rest;
      forall other | other in ids && other != oldest
        ensures NewerThan(versions, other, oldest)
      {
        assert other == id || other in ids - {id};
      }
    }
  }

  lemma {:induction false} TopIsLarge(versions: map<VersionId, Version>, ids: set<VersionId>, k: nat)
    requires ids <= versions.Keys && |ids| >= k
    ensures |Top(versions, ids, k)| >= k
  {
    if |ids| == k {
      forall id | id in ids
        ensures |Above(versions, ids, id)| < k
      {
        SubsetSize(Above(versions, ids, id), ids - {id});
      }
      assert Top(versions, ids, k) == ids;
    } else {
      var oldest := Oldest(versions, ids);
      var rest := ids - {oldest};
      TopIsLarge(versions, rest, k);
      forall id | id in Top(versions, rest, k)
        ensures id in Top(versions, ids, k)
      {
        assert Above(versions, ids, id) == Above(versions, rest, id);
      }
      SubsetSize(Top(versions, rest, k), Top(versions, ids, k));
    }
  }

  /** Every id a pending trim will delete still has `KEEP` newer versions in its series. */
  ghost predicate TrimsSpareNewest(s: State) {
    && s.versions.Keys <= s.used
    && (forall trim | trim in s.trims :: s.trims[trim] <= s.used)
    && (forall trim, id | trim in s.trims && id in s.trims[trim] && id in s.versions :: |Newer(s.versions, id)| >= KEEP)
  }

  /** Deleting only versions that have `KEEP` newer ones leaves `KEEP` newer ones above every version that had them. */
  lemma TrimLeavesKeepNewer(versions: map<VersionId, Version>, beyond: set<VersionId>, now: int, id: VersionId)
    requires forall other | other in beyond && other in versions :: |Newer(versions, other)| >= KEEP
    requires id in versions && |Newer(versions, id)| >= KEEP
    requires id in TrimRows(versions, beyond, now)
    ensures |Newer(TrimRows(versions, beyond, now), id)| >= KEEP
  {
    var newer := Newer(versions, id);
    TopIsLarge(versions, newer, KEEP);
    forall top | top in Top(versions, newer, KEEP)
      ensures top in Newer(TrimRows(versions, beyond, now), id)
    {
      assert Newer(versions, top) == Above(versions, newer, top);
    }
    SubsetSize(Top(versions, newer, KEEP), Newer(TrimRows(versions, beyond, now), id));
  }

  lemma StepSparesNewest(d: Discipline, s: State, step: Step)
    requires TrimsSpareNewest(s) && Enabled(d, s, step)
    ensures TrimsSpareNewest(Next(s, step))
  {
    var t := Next(s, step);
    forall trim, id | trim in t.trims && id in t.trims[trim] && id in t.versions
      ensures |Newer(t.versions, id)| >= KEEP
    {
      if step.TrimDelete? {
        TrimLeavesKeepNewer(s.versions, s.trims[step.trim], s.now, id);
      } else if step.TrimSelect? {
        assert t.versions == s.versions;
      } else if id in s.versions {
        SubsetSize(Newer(s.versions, id), Newer(t.versions, id));
      }
    }
  }

  /**
   * However saves, restores and trims interleave, a trim's DELETE takes a version only when at least
   * ten newer ones of its series are stored at that moment and it is past the retention age.
   */
  lemma {:induction false} NewestVersionsSurvive(d: Discipline, scope: string, steps: seq<Step>, trim: nat)
    requires Allowed(d, Init(scope), steps)
    requires Enabled(d, After(Init(scope), steps), TrimDelete(trim))
    ensures var s := After(Init(scope), steps);
            forall id | id in s.versions && id !in Next(s, TrimDelete(trim)).versions ::
              |Newer(s.versions, id)| >= KEEP && s.versions[id].createdAt < RetentionCutoff(s.now)
  {
    TrimsSpareNewestThroughout(d, Init(scope), steps);
  }

  lemma {:induction false} TrimsSpareNewestThroughout(d: Discipline, s: State, steps: seq<Step>)
    requires TrimsSpareNewest(s) && Allowed(d, s, steps)
    ensures TrimsSpareNewest(After(s, steps))
    decreases |steps|
  {
    if steps != [] {
      StepSparesNewest(d, s, steps[0]);
      TrimsSpareNewestThroughout(d, Next(s, steps[0]), steps[1..]);
    }
  }
}
