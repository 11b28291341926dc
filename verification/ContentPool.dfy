/**
 * The content-addressed pool (packages/data-store/src/content-store.ts): one row per
 * (scope, sha), written by `put`, read in batches by `getMany`, swept by `gc`.
 *
 * The statements the code issues are functions on the table's contents, so that the
 * concurrent protocol in `VersionSweep` interleaves exactly what the class executes.
 */
module ContentPool {
  /** A hash is modelled as the value it was taken of: injective by construction. */
  datatype Sha = Sha256(bytes: seq<int>)

  /** A string as its UTF-16 code units. */
  type Text = seq<nat>

  datatype Key = Key(scope: string, sha: Sha)
  datatype Stored = Stored(body: Text, createdAt: int)
  type Rows = map<Key, Stored>

  const CONTENT_READ_BATCH: nat := 500

  /** INSERT ... ON CONFLICT (scope, sha) DO UPDATE SET created_at: a present body is re-stamped, never rewritten. */
  function PutRow(rows: Rows, key: Key, body: Text, now: int): Rows {
    rows[key := if key in rows then rows[key].(createdAt := now) else Stored(body, now)]
  }

  datatype Before = Any | Before(moment: int)

  predicate OldEnough(stored: Stored, before: Before) {
    before.Any? || stored.createdAt < before.moment
  }

  /** The SELECT half of `gc`, less what is live: the shas the DELETE half will name. */
  function DeadShas(rows: Rows, scope: string, live: set<Sha>, before: Before): set<Sha> {
    set key | key in rows && key.scope == scope && OldEnough(rows[key], before) && key.sha !in live :: key.sha
  }

  /** The DELETE half of `gc`: it matches on scope and sha alone and does not look at `created_at` again. */
  function DeleteShas(rows: Rows, scope: string, dead: set<Sha>): Rows {
    map key | key in rows && !(key.scope == scope && key.sha in dead) :: rows[key]
  }

  /** A collection with nothing between its two statements. */
  function Collected(rows: Rows, scope: string, live: set<Sha>, before: Before): Rows {
    DeleteShas(rows, scope, DeadShas(rows, scope, live, before))
  }
}
