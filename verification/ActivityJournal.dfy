/**
 * The activity tables and the transactions on them (packages/data-store/src/session-run-store.ts).
 * Each database transaction is a function from the tables to the tables; the class `ActivityTables`
 * holds the tables and runs the transactions in place, against those functions.
 */
module ActivityJournal {
  import opened Common

  type RunId = nat
  type Process = nat

  datatype RunStatus = Running | Completed | Failed | Interrupted | Paused | Cancelled
  datatype SessionStatus = SessionRunning | SessionWaiting | SessionParked | SessionCompleted | SessionFailed
  datatype SessionEntry = SessionEntry(sessionId: string, status: SessionStatus)

  datatype Record = Record(
    status: RunStatus,
    gitRef: string,
    startedAt: int,
    finishedAt: Option<int>,
    error: Option<string>,
    endpoint: Option<string>,
    checklist: Option<string>,
    sessions: seq<SessionEntry>)

  /** `toPublicRunRecord`: what reaches a row or an event carries no endpoint. */
  function Public(record: Record): Record {
    record.(endpoint := None)
  }

  datatype Body = RunEvent(run: Record) | SessionEvent(sessionId: string, number: nat)

  /** One row of `activity_runs` with its `activity_events`, keyed by cursor. */
  datatype Row = Row(
    repoKey: string,
    record: Record,
    nextCursor: nat,
    owner: Option<Process>,
    lease: Option<int>,
    events: map<nat, Body>)

  type Rows = map<RunId, Row>

  const LEASE_MS: int := 60 * 1000

  // --- Transactions --------------------------------------------------------------

  function StartRecord(gitRef: string, now: int): Record {
    Record(Running, gitRef, now, None, None, None, None, [])
  }

  function CreatedRow(p: Process, repoKey: string, gitRef: string, now: int): Row {
    var record := StartRecord(gitRef, now);
    Row(repoKey, record, 1, Some(p), Some(now + LEASE_MS), map[0 := RunEvent(record)])
  }

  /** One journal entry at the row's cursor. */
  function Appended(row: Row, body: Body): Row {
    row.(events := row.events[row.nextCursor := body], nextCursor := row.nextCursor + 1)
  }

  function ResumedRecord(record: Record): Record {
    Public(record.(status := Running, finishedAt := None, error := None))
  }

  function ResumedRow(row: Row, p: Process, now: int): Row {
    var record := ResumedRecord(row.record);
    Appended(row, RunEvent(record)).(record := record, owner := Some(p), lease := Some(now + LEASE_MS))
  }

  function ParkLive(sessions: seq<SessionEntry>): seq<SessionEntry> {
    if sessions == [] then []
    else
      [if sessions[0].status.SessionRunning? || sessions[0].status.SessionWaiting?
       then sessions[0].(status := SessionParked) else sessions[0]] + ParkLive(sessions[1..])
  }

  function InterruptedRecord(record: Record, now: int): Record {
    Public(record.(status := Interrupted, finishedAt := Some(now), sessions := ParkLive(record.sessions)))
  }

  /** The sweep's row selection: running, lease run out, in scope, and not written by the sweeping process. */
  predicate Abandoned(row: Row, runId: RunId, repoKeys: Option<set<string>>, writing: set<RunId>, now: int) {
    && (repoKeys.Some? ==> row.repoKey in repoKeys.value)
    && row.record.status.Running?
    && row.lease.Some? && row.lease.value < now
    && runId !in writing
  }

  function RecoveredRow(row: Row, now: int): Row {
    var record := InterruptedRecord(row.record, now);
    Appended(row, RunEvent(record)).(record := record, owner := None, lease := None)
  }

  function Reconciled(rows: Rows, repoKeys: Option<set<string>>, writing: set<RunId>, now: int): Rows {
    map runId | runId in rows ::
      if Abandoned(rows[runId], runId, repoKeys, writing, now) then RecoveredRow(rows[runId], now) else rows[runId]
  }

  datatype WriteError = RunRemoved | LostLease | NotOwner | AlreadyTerminal

  /** The guard every queued write passes inside its transaction; `None` lets it through. */
  function WriteRefusal(rows: Rows, runId: RunId, repoKey: string, p: Process, owned: bool,
                        body: Body): Option<WriteError> {
    if runId !in rows || rows[runId].repoKey != repoKey then Some(RunRemoved)
    else if owned && rows[runId].owner != Some(p) then Some(LostLease)
    else if !owned && rows[runId].record.status.Running? then Some(NotOwner)
    else if !rows[runId].record.status.Running? && body.RunEvent? && body.run.status.Running? then Some(AlreadyTerminal)
    else None
  }

  function WrittenRow(row: Row, body: Body): Row {
    var appended := Appended(row, body);
    match body
    case SessionEvent(_, _) => appended
    case RunEvent(run) =>
      if run.status.Running? then appended.(record := run)
      else appended.(record := run, owner := None, lease := None)
  }

  function RenewedRow(row: Row, now: int): Row {
    row.(lease := Some(now + LEASE_MS))
  }

  // --- The journal's invariant ----------------------------------------------------

  /** The newest run snapshot among cursors below `n`. */
  function LatestRun(events: map<nat, Body>, n: nat): Option<Record> {
    if n == 0 then None
    else if n - 1 in events && events[n - 1].RunEvent? then Some(events[n - 1].run)
    else LatestRun(events, n - 1)
  }

  ghost predicate JournalValid(row: Row) {
    && (forall cursor: nat :: cursor in row.events <==> cursor < row.nextCursor)
    && LatestRun(row.events, row.nextCursor) == Some(row.record)
    && (row.owner.Some? <==> row.record.status.Running?)
    && (row.lease.Some? <==> row.record.status.Running?)
    && (forall cursor: nat | cursor in row.events && row.events[cursor].RunEvent? ::
        row.events[cursor].run.endpoint.None?)
  }

  /** Everything already journalled stays at its cursor. */
  ghost predicate JournalExtends(before: Row, after: Row) {
    && before.repoKey == after.repoKey
    && before.nextCursor <= after.nextCursor
    && forall cursor: nat | cursor in before.events ::
        cursor in after.events && after.events[cursor] == before.events[cursor]
  }

  lemma {:induction false} LatestRunIgnoresLater(events: map<nat, Body>, cursor: nat, body: Body, n: nat)
    requires n <= cursor
    ensures LatestRun(events[cursor := body], n) == LatestRun(events, n)
  {
    if n > 0 { LatestRunIgnoresLater(events, cursor, body, n - 1); }
  }

  lemma AppendKeepsJournal(row: Row, body: Body)
    requires JournalValid(row) && (body.RunEvent? ==> body.run.endpoint.None?)
    ensures JournalExtends(row, Appended(row, body))
    ensures forall cursor: nat :: cursor in Appended(row, body).events <==> cursor < row.nextCursor + 1
    ensures LatestRun(Appended(row, body).events, row.nextCursor + 1) ==
            if body.RunEvent? then Some(body.run) else Some(row.record)
    ensures forall cursor: nat | cursor in Appended(row, body).events && Appended(row, body).events[cursor].RunEvent? ::
              Appended(row, body).events[cursor].run.endpoint.None?
  {
    LatestRunIgnoresLater(row.events, row.nextCursor, body, row.nextCursor);
  }

  lemma CreatedRowIsValid(p: Process, repoKey: string, gitRef: string, now: int)
    ensures JournalValid(CreatedRow(p, repoKey, gitRef, now))
  {
    var row := CreatedRow(p, repoKey, gitRef, now);
    assert row.events[0] == RunEvent(row.record);
    assert forall cursor: nat :: cursor in row.events <==> cursor < 1;
    assert LatestRun(row.events, 1) == Some(row.record);
  }

  /** Create, resume, recovery, a queued write and a renewal each keep the journal. */
  lemma TransactionsKeepJournal(row: Row, p: Process, body: Body, now: int)
    requires JournalValid(row) && (body.RunEvent? ==> body.run.endpoint.None?)
    ensures JournalValid(ResumedRow(row, p, now)) && JournalExtends(row, ResumedRow(row, p, now))
    ensures JournalValid(RecoveredRow(row, now)) && JournalExtends(row, RecoveredRow(row, now))
    ensures !(!row.record.status.Running? && body.RunEvent? && body.run.status.Running?) ==>
              JournalValid(WrittenRow(row, body)) && JournalExtends(row, WrittenRow(row, body))
    ensures row.record.status.Running? ==>
              JournalValid(RenewedRow(row, now)) && JournalExtends(row, RenewedRow(row, now))
  {
    AppendKeepsJournal(row, body);
    AppendKeepsJournal(row, RunEvent(ResumedRecord(row.record)));
    AppendKeepsJournal(row, RunEvent(InterruptedRecord(row.record, now)));
  }

  /**
   * A sweep parks the live sessions of a run it recovers and touches no other.
   */
  lemma {:induction false} RecoveryParksSessions(sessions: seq<SessionEntry>)
    ensures |ParkLive(sessions)| == |sessions|
    ensures forall i | 0 <= i < |sessions| ::
              && ParkLive(sessions)[i].sessionId == sessions[i].sessionId
              && ParkLive(sessions)[i].status ==
                 (match sessions[i].status
                  case SessionRunning => SessionParked
                  case SessionWaiting => SessionParked
                  case other => other)
  {
    if sessions != [] { RecoveryParksSessions(sessions[1..]); }
  }

  /** A queued write goes through exactly when its run is stored in its repository, and its writer may write it. */
  lemma WriteGoesThroughExactlyWhen(rows: Rows, runId: RunId, repoKey: string, p: Process, owned: bool, body: Body)
    ensures WriteRefusal(rows, runId, repoKey, p, owned, body).None? <==>
              && runId in rows && rows[runId].repoKey == repoKey
              && (if owned then rows[runId].owner == Some(p) else !rows[runId].record.status.Running?)
              && (rows[runId].record.status.Running? || body.SessionEvent? || !body.run.status.Running?)
  {
  }

  /** A created run is running, with nothing in it yet, as the one entry of its journal says. */
  lemma CreateStarts(p: Process, repoKey: string, gitRef: string, now: int)
    ensures var row := CreatedRow(p, repoKey, gitRef, now);
            && row.repoKey == repoKey && row.owner == Some(p)
            && row.record == Record(Running, gitRef, now, None, None, None, None, [])
            && row.nextCursor == 1 && row.events == map[0 := RunEvent(row.record)]
  {
  }

  /** A recovered run reads as interrupted now, its live sessions as parked; what else its record says stands. */
  lemma RecoveryInterrupts(row: Row, now: int)
    ensures var record, after := row.record, RecoveredRow(row, now).record;
            && after.status == Interrupted && after.finishedAt == Some(now) && after.endpoint.None?
            && after.gitRef == record.gitRef && after.startedAt == record.startedAt
            && after.error == record.error && after.checklist == record.checklist
            && |after.sessions| == |record.sessions|
            && forall i | 0 <= i < |record.sessions| ::
                if record.sessions[i].status.SessionRunning? || record.sessions[i].status.SessionWaiting?
                then after.sessions[i] == SessionEntry(record.sessions[i].sessionId, SessionParked)
                else after.sessions[i] == record.sessions[i]
  {
    RecoveryParksSessions(row.record.sessions);
  }

  /**
   * A resume carries the run on: its sessions, its checklist and its whole journal stand, its ending and its error
   * are cleared, and the next entry says so.
   */
  lemma ResumeCarriesOn(row: Row, p: Process, now: int)
    requires JournalValid(row)
    ensures var record, after := row.record, ResumedRow(row, p, now);
            && after.record.status == Running && after.record.finishedAt.None? && after.record.error.None?
            && after.record.sessions == record.sessions && after.record.checklist == record.checklist
            && after.record.gitRef == record.gitRef && after.record.startedAt == record.startedAt
            && after.owner == Some(p) && after.nextCursor == row.nextCursor + 1
            && after.events.Keys == row.events.Keys + {row.nextCursor}
            && (forall cursor | cursor in row.events :: after.events[cursor] == row.events[cursor])
            && after.events[row.nextCursor] == RunEvent(after.record)
  {
  }

  // --- The tables, updated in place ------------------------------------------------

  class ActivityTables {
    var rows: Rows

    constructor ()
      ensures rows == map[]
    {
      rows := map[];
    }

    method Create(p: Process, runId: RunId, repoKey: string, gitRef: string, now: int)
      requires runId !in rows
      modifies this
      ensures rows == old(rows)[runId := CreatedRow(p, repoKey, gitRef, now)]
    {
      var record := StartRecord(gitRef, now);
      var row := Row(repoKey, record, 1, Some(p), Some(now + LEASE_MS), map[]);
      row := row.(events := row.events[0 := RunEvent(record)]);
      rows := rows[runId := row];
    }

    /** `None` is the source's `SessionRunNotFoundError`; nothing has changed then. */
    method Resume(p: Process, runId: RunId, repoKey: string, now: int) returns (resumed: Option<Record>)
      modifies this
      ensures resumed.None? <==> runId !in old(rows) || old(rows)[runId].repoKey != repoKey
      ensures resumed.None? ==> rows == old(rows)
      ensures resumed.Some? ==>
                && resumed.value == ResumedRecord(old(rows)[runId].record)
                && rows == old(rows)[runId := ResumedRow(old(rows)[runId], p, now)]
    {
      if runId !in rows || rows[runId].repoKey != repoKey {
        return None;
      }
      var row := rows[runId];
      var record := row.record.(status := Running);
      record := record.(finishedAt := None, error := None);
      var stored := Public(record);
      rows := rows[runId := row.(
        record := stored, nextCursor := row.nextCursor + 1, owner := Some(p), lease := Some(now + LEASE_MS),
        events := row.events[row.nextCursor := RunEvent(stored)])];
      resumed := Some(stored);
    }

    /** The sweep: every abandoned row, one after another, in one transaction. */
    method Reconcile(repoKeys: Option<set<string>>, writing: set<RunId>, now: int) returns (recovered: set<RunId>)
      modifies this
      ensures rows == Reconciled(old(rows), repoKeys, writing, now)
      ensures recovered == set runId | runId in old(rows) && Abandoned(old(rows)[runId], runId, repoKeys, writing, now)
    {
      var selected := set runId | runId in rows && Abandoned(rows[runId], runId, repoKeys, writing, now);
      recovered := {};
      while selected != {}
        invariant selected !! recovered
        invariant selected + recovered ==
                    set runId | runId in old(rows) && Abandoned(old(rows)[runId], runId, repoKeys, writing, now)
        invariant rows.Keys == old(rows).Keys
        invariant forall runId | runId in old(rows) ::
                    rows[runId] == if runId in recovered then RecoveredRow(old(rows)[runId], now) else old(rows)[runId]
        decreases selected
      {
        var runId :| runId in selected;
        var row := rows[runId];
        var record := row.record.(status := Interrupted, finishedAt := Some(now),
                                  sessions := ParkLive(row.record.sessions));
        var stored := Public(record);
        rows := rows[runId := row.(
          record := stored, owner := None, lease := None, nextCursor := row.nextCursor + 1,
          events := row.events[row.nextCursor := RunEvent(stored)])];
        recovered := recovered + {runId};
        selected := selected - {runId};
      }
    }

    /** One queued write's transaction: refused whole, or journalled with its snapshot. */
    method Write(runId: RunId, repoKey: string, p: Process, owned: bool, body: Body)
        returns (refused: Option<WriteError>)
      modifies this
      ensures refused == WriteRefusal(old(rows), runId, repoKey, p, owned, body)
      ensures rows == if refused.Some? then old(rows) else old(rows)[runId := WrittenRow(old(rows)[runId], body)]
    {
      if runId !in rows || rows[runId].repoKey != repoKey { return Some(RunRemoved); }
      var row := rows[runId];
      if owned && row.owner != Some(p) { return Some(LostLease); }
      if !owned && row.record.status.Running? { return Some(NotOwner); }
      if !row.record.status.Running? && body.RunEvent? && body.run.status.Running? { return Some(AlreadyTerminal); }
      row := row.(events := row.events[row.nextCursor := body], nextCursor := row.nextCursor + 1);
      if body.RunEvent? {
        row := row.(record := body.run);
        if !body.run.status.Running? {
          row := row.(owner := None, lease := None);
        }
      }
      rows := rows[runId := row];
      refused := None;
    }

    /** The heartbeat's UPDATE: renews by ownership, however late it arrives; false when no row matched. */
    method Renew(runId: RunId, p: Process, now: int) returns (renewed: bool)
      modifies this
      ensures renewed <==> runId in old(rows) && old(rows)[runId].owner == Some(p)
      ensures rows == if renewed then old(rows)[runId := RenewedRow(old(rows)[runId], now)] else old(rows)
    {
      renewed := runId in rows && rows[runId].owner == Some(p);
      if renewed {
        rows := rows[runId := rows[runId].(lease := Some(now + LEASE_MS))];
      }
    }
  }
}
