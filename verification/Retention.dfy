/** The retention numbers (packages/data-store/src/retention.ts), in milliseconds. */
module Retention {
  const KEEP: nat := 10
  const KEEP_DAYS: nat := 90
  const CONTENT_SWEEP_GRACE_MS: nat := 60 * 60 * 1000

  /** The moment before which a version is old enough to be trimmed. */
  function RetentionCutoff(now: int): int {
    now - KEEP_DAYS * 24 * 60 * 60 * 1000
  }

  /** The moment before which a body is old enough to be swept. */
  function SweepCutoff(now: int): int {
    now - CONTENT_SWEEP_GRACE_MS
  }
}
