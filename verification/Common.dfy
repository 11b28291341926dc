/** What several components share. */
module Common {
  datatype Option<+T> = None | Some(value: T)

  lemma SubsetSize<T>(a: set<T>, b: set<T>)
    requires a <= b
    ensures |a| <= |b|
  {
    assert b == a + (b - a);
  }

  /** Places below `n`, each after the one before. */
  ghost predicate Climbs(at: seq<nat>, n: nat) {
    && (forall k | 0 <= k < |at| :: at[k] < n)
    && (forall k, l | 0 <= k < l < |at| :: at[k] < at[l])
  }

  /** The places below `n` that are wanted, all of them, in turn. */
  ghost predicate Picks(at: seq<nat>, n: nat, wanted: nat -> bool) {
    Climbs(at, n) && forall i: nat | i < n :: i in at <==> wanted(i)
  }

  lemma NonePicked(wanted: nat -> bool)
    ensures Picks([], 0, wanted)
  {
  }

  lemma PicksOn(at: seq<nat>, n: nat, wanted: nat -> bool)
    requires Picks(at, n, wanted)
    ensures Picks(if wanted(n) then at + [n] else at, n + 1, wanted)
  {
  }

  lemma InLonger<T>(at: seq<T>, last: T)
    ensures forall i :: i in at + [last] <==> i in at || i == last
  {
  }
}
