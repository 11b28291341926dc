/**
 * The trims and sweeps of one repository, run in place with nothing between their statements
 * (packages/data-store/src/version-sweep.ts: `trimIds`, `trimGuardSeries`, `sweepRepoContent`, `sweepGuardSeries`).
 * `VersionSweep` interleaves the same statements with everyone else's.
 */
module VersionStore {
  import opened Common
  import opened ContentPool
  import opened Retention
  import opened VersionSweep

  /** The rows of one series, newest first, as the query's ORDER BY gives them. */
  ghost predicate NewestFirst(versions: map<VersionId, Version>, series: Series, ids: seq<VersionId>) {
    && (forall id :: id in ids <==> id in versions && versions[id].series == series)
    && (forall i, j | 0 <= i < j < |ids| :: NewerThan(versions, ids[i], ids[j]))
  }

  function SetOf(ids: seq<VersionId>): set<VersionId> { set id | id in ids }

  lemma SetGrows(front: seq<VersionId>, last: VersionId)
    ensures SetOf(front + [last]) == SetOf(front) + {last}
  {
  }

  lemma {:induction false} SizeOfDistinct(ids: seq<VersionId>)
    requires forall i, j | 0 <= i < j < |ids| :: ids[i] != ids[j]
    ensures |SetOf(ids)| == |ids|
  {
    if ids == [] {
      assert SetOf(ids) == {};
    } else {
      var front, last := ids[..|ids| - 1], ids[|ids| - 1];
      SizeOfDistinct(front);
      assert ids == front + [last];
      SetGrows(front, last);
      assert last !in front;
    }
  }

  /** Exactly the ids before one in the order are newer. */
  lemma NewerAreBefore(versions: map<VersionId, Version>, series: Series, ids: seq<VersionId>, k: nat)
    requires NewestFirst(versions, series, ids) && k < |ids|
    ensures ids[k] in versions && |Newer(versions, ids[k])| == k
  {
    assert ids[k] in ids;
    var before := ids[..k];
    forall id
      ensures id in Newer(versions, ids[k]) <==> id in before
    {
      if id in Newer(versions, ids[k]) {
        assert id in ids;
        var j :| 0 <= j < |ids| && ids[j] == id;
        assert j < k ==> before[j] == id;
      }
      if id in before {
        var j :| 0 <= j < k && ids[j] == id;
        assert ids[j] in ids;
      }
    }
    assert Newer(versions, ids[k]) == SetOf(before);
    SizeOfDistinct(before);
  }

  /** `slice(keep)` of the newest-first ids is the versions with at least `keep` newer ones. */
  lemma SliceIsBeyondKeep(versions: map<VersionId, Version>, series: Series, ids: seq<VersionId>)
    requires NewestFirst(versions, series, ids)
    ensures (set i | KEEP <= i < |ids| :: ids[i]) == BeyondKeep(versions, series)
  {
    forall id
      ensures id in BeyondKeep(versions, series) <==> exists i :: KEEP <= i < |ids| && ids[i] == id
    {
      if id in versions && versions[id].series == series {
        assert id in ids;
        var i :| 0 <= i < |ids| && ids[i] == id;
        NewerAreBefore(versions, series, ids, i);
        forall j | 0 <= j < |ids| && ids[j] == id
          ensures j == i
        {
          assert !NewerThan(versions, id, id);
        }
      } else {
        assert forall i | 0 <= i < |ids| :: ids[i] in ids;
      }
    }
  }

  /** The evidence a run's or a report's manifest names, by reference. */
  type EvidenceRow = map<string, string>

  function EvidenceShas(rows: seq<EvidenceRow>, shaOf: string -> Sha): set<Sha> {
    set row, path | row in rows && path in row :: shaOf(row[path])
  }

  /** A stored manifest of either table names the body. */
  ghost predicate Named(versions: map<VersionId, Version>, sha: Sha) {
    exists id :: id in versions && sha in versions[id].files
  }

  /** A stored run's or report's evidence refers to the body. */
  ghost predicate Cited(rows: seq<EvidenceRow>, shaOf: string -> Sha, sha: Sha) {
    exists i, path :: 0 <= i < |rows| && path in rows[i] && shaOf(rows[i][path]) == sha
  }

  /**
   * What a sweep at `now` leaves of the pools: everything but the repository's bodies of an hour's age and more
   * that nothing stored names; and nothing that is left has changed.
   */
  ghost predicate SweptAt(now: int, before: Rows, after: Rows, guardScope: string, evidenceScope: string,
                          versions: map<VersionId, Version>, runs: seq<EvidenceRow>, results: seq<EvidenceRow>,
                          shaOf: string -> Sha) {
    && (forall key :: key in after <==>
          && key in before
          && (before[key].createdAt < now - 3_600_000 ==>
                && (key.scope == guardScope ==> Named(versions, key.sha))
                && (key.scope == evidenceScope ==> Cited(runs, shaOf, key.sha) || Cited(results, shaOf, key.sha))))
    && (forall key | key in after :: after[key] == before[key])
  }

  lemma NamedInATable(versions: map<VersionId, Version>, sha: Sha)
    ensures Named(versions, sha) <==> sha in FilesOf(versions, ScenarioSets) + FilesOf(versions, SetupSets)
  {
    if Named(versions, sha) {
      var id :| id in versions && sha in versions[id].files;
      assert versions[id].series.table == ScenarioSets || versions[id].series.table == SetupSets;
    }
  }

  lemma CitedIsEvidence(rows: seq<EvidenceRow>, shaOf: string -> Sha, sha: Sha)
    ensures Cited(rows, shaOf, sha) <==> sha in EvidenceShas(rows, shaOf)
  {
    if sha in EvidenceShas(rows, shaOf) {
      var row, path :| row in rows && path in row && shaOf(row[path]) == sha;
      var i :| 0 <= i < |rows| && rows[i] == row;
      assert path in rows[i];
    }
  }

  ghost predicate AllNewer(versions: map<VersionId, Version>, id: VersionId, newer: set<VersionId>)
    requires id in versions
  {
    forall other | other in newer ::
      && other in versions && versions[other].series == versions[id].series
      && (versions[other].createdAt > versions[id].createdAt
          || (versions[other].createdAt == versions[id].createdAt && other > id))
  }

  /** The version has ten newer ones in its series and is past ninety days. */
  ghost predicate Outlived(versions: map<VersionId, Version>, id: VersionId, now: int)
    requires id in versions
  {
    && versions[id].createdAt < now - 7_776_000_000
    && exists newer: set<VersionId> :: AllNewer(versions, id, newer) && |newer| == 10
  }

  lemma {:induction false} SomeOf(ids: set<VersionId>, n: nat) returns (some: set<VersionId>)
    requires n <= |ids|
    ensures some <= ids && |some| == n
  {
    if n == 0 { return {}; }
    var rest := SomeOf(ids, n - 1);
    assert ids == rest + (ids - rest);
    var id :| id in ids && id !in rest;
    some := rest + {id};
  }

  lemma OutlivedIsBeyondKeep(versions: map<VersionId, Version>, id: VersionId, now: int)
    requires id in versions
    ensures Outlived(versions, id, now) <==>
            id in BeyondKeep(versions, versions[id].series) && versions[id].createdAt < RetentionCutoff(now)
  {
    if |Newer(versions, id)| >= 10 {
      var newer := SomeOf(Newer(versions, id), 10);
      assert AllNewer(versions, id, newer);
    }
    if Outlived(versions, id, now) {
      var newer: set<VersionId> :| AllNewer(versions, id, newer) && |newer| == 10;
      SubsetSize(newer, Newer(versions, id));
    }
  }

  /** A trim takes of its series exactly the versions with ten newer ones that are past ninety days. */
  lemma TrimTakesOutlived(versions: map<VersionId, Version>, series: Series, now: int, id: VersionId)
    requires id in versions
    ensures var after := TrimRows(versions, BeyondKeep(versions, series), now);
            && (id in after <==> !(versions[id].series == series && Outlived(versions, id, now)))
            && (id in after ==> after[id] == versions[id])
  {
    OutlivedIsBeyondKeep(versions, id, now);
  }

  class VersionTables {
    var content: Rows
    var versions: map<VersionId, Version>
    var runs: seq<EvidenceRow>
    var results: seq<EvidenceRow>

    /** Deletes what is both beyond the newest `KEEP` and past the retention age. */
    method TrimSeries(series: Series, idsNewestFirst: seq<VersionId>, now: int) returns (gone: nat)
      requires NewestFirst(versions, series, idsNewestFirst)
      modifies `versions
      ensures versions == TrimRows(old(versions), BeyondKeep(old(versions), series), now)
      ensures gone == |old(versions)| - |versions|
    {
      SliceIsBeyondKeep(versions, series, idsNewestFirst);
      var beyond := set i | KEEP <= i < |idsNewestFirst| :: idsNewestFirst[i];
      ghost var before := versions;
      if |idsNewestFirst| <= KEEP {
        assert beyond == {};
        assert versions == TrimRows(versions, {}, now);
        return 0;
      }
      var doomed := set id | id in beyond && versions[id].createdAt < RetentionCutoff(now);
      gone := |doomed|;
      versions := map id | id in versions && id !in doomed :: versions[id];
      assert versions.Keys == before.Keys - doomed;
    }

    /** Every body a surviving manifest of either table names. */
    method LiveShas() returns (live: set<Sha>)
      ensures live == FilesOf(versions, ScenarioSets) + FilesOf(versions, SetupSets)
    {
      live := {};
      var tables := [ScenarioSets, SetupSets];
      for t := 0 to |tables|
        invariant live == (if t > 0 then FilesOf(versions, ScenarioSets) else {})
                    + (if t > 1 then FilesOf(versions, SetupSets) else {})
      {
        live := AddTable(tables[t], live);
      }
    }

    method AddTable(table: Table, before: set<Sha>) returns (live: set<Sha>)
      ensures live == before + FilesOf(versions, table)
    {
      live := before;
      var rows := set id | id in versions && versions[id].series.table == table;
      while rows != {}
        invariant forall id | id in rows :: id in versions && versions[id].series.table == table
        invariant live <= before + FilesOf(versions, table) && before <= live
        invariant forall id, sha | id in versions && versions[id].series.table == table && id !in rows
                    && sha in versions[id].files :: sha in live
        decreases rows
      {
        var id :| id in rows;
        live := live + versions[id].files;
        rows := rows - {id};
      }
    }

    method EvidenceOf(rows: seq<EvidenceRow>, shaOf: string -> Sha, before: set<Sha>) returns (evidence: set<Sha>)
      ensures evidence == before + EvidenceShas(rows, shaOf)
    {
      evidence := before;
      for i := 0 to |rows|
        invariant evidence == before + EvidenceShas(rows[..i], shaOf)
      {
        assert rows[..i + 1] == rows[..i] + [rows[i]];
        evidence := evidence + set path | path in rows[i] :: shaOf(rows[i][path]);
      }
      assert rows[..|rows|] == rows;
    }

    /** Both pools against what survives; the cutoff is taken after everything was read. */
    method SweepContent(guardScope: string, evidenceScope: string, shaOf: string -> Sha, now: int)
      requires guardScope != evidenceScope
      modifies `content
      ensures SweptAt(now, old(content), content, guardScope, evidenceScope, versions, runs, results, shaOf)
    {
      hide FilesOf, EvidenceShas;
      var live := LiveShas();
      var evidence := EvidenceOf(runs, shaOf, {});
      evidence := EvidenceOf(results, shaOf, evidence);
      var before := Before(SweepCutoff(now));
      content := Collected(content, guardScope, live, before);
      content := Collected(content, evidenceScope, evidence, before);
      forall sha
        ensures sha in live <==> Named(versions, sha)
        ensures sha in evidence <==> Cited(runs, shaOf, sha) || Cited(results, shaOf, sha)
      {
        NamedInATable(versions, sha);
        CitedIsEvidence(runs, shaOf, sha);
        CitedIsEvidence(results, shaOf, sha);
      }
    }

    /** What a save does after its row lands: the pools are swept only when the trim took a version. */
    method SweepSeries(series: Series, idsNewestFirst: seq<VersionId>, guardScope: string, evidenceScope: string,
                       shaOf: string -> Sha, now: int)
      returns (gone: nat)
      requires NewestFirst(versions, series, idsNewestFirst) && guardScope != evidenceScope
      modifies `versions, `content
      ensures versions == TrimRows(old(versions), BeyondKeep(old(versions), series), now)
      ensures gone == |old(versions)| - |versions|
      ensures if gone == 0 then versions == old(versions) && content == old(content)
              else SweptAt(now, old(content), content, guardScope, evidenceScope, versions, runs, results, shaOf)
    {
      gone := TrimSeries(series, idsNewestFirst, now);
      TrimCounts(old(versions), versions, BeyondKeep(old(versions), series), now);
      if gone > 0 { SweepContent(guardScope, evidenceScope, shaOf, now); }
    }
  }

  lemma TrimCounts(before: map<VersionId, Version>, after: map<VersionId, Version>, beyond: set<VersionId>, now: int)
    requires after == TrimRows(before, beyond, now)
    ensures |before| - |after| == 0 <==> after == before
  {
    var lost := before.Keys - after.Keys;
    assert before.Keys == after.Keys + lost;
    if lost == {} { assert after == before; }
  }
}
