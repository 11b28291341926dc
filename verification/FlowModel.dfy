/**
 * Claims, flows and what makes two flows the same contract
 * (packages/shared/src/guard/flows.ts, packages/guard-generator/src/flows.ts).
 *
 * Hashes are modelled as the values they are taken of: a fingerprint is the ordered list of claim ids.
 */
module FlowModel {
  import opened Common
  import opened Text

  /** One claim of an area's inventory. */
  datatype Claim = Claim(id: string, doc: string, title: string, sentences: seq<string>)

  datatype Milestone = Milestone(order: int, doc: string, claimId: string, claimTitle: string, sentences: seq<string>,
                                 note: string)

  /** A committed flow; its bindings are read off its milestones and are not kept apart. */
  datatype Flow = Flow(
    id: string,
    title: string,
    goal: string,
    startingState: Option<string>,
    milestones: seq<Milestone>,
    composedOf: seq<string>)

  datatype NoFlowClaim = NoFlowClaim(claimId: string, reason: string)

  // --- The claim index --------------------------------------------------------------

  /** `new Map(claims.map(c => [c.id, c]))`: of two claims with one id the later wins. */
  function FindClaim(claims: seq<Claim>, id: string): Option<Claim> {
    if claims == [] then None
    else if claims[|claims| - 1].id == id then Some(claims[|claims| - 1])
    else FindClaim(claims[..|claims| - 1], id)
  }

  /** The id as written, trimmed, else nothing. */
  function Snap(claims: seq<Claim>, ref: string): Option<Claim> { FindClaim(claims, Trim(ref)) }

  lemma {:induction false} FoundClaimIsListed(claims: seq<Claim>, id: string)
    ensures FindClaim(claims, id).Some? ==>
              FindClaim(claims, id).value in claims && FindClaim(claims, id).value.id == id
    ensures FindClaim(claims, id).Some? <==> exists i :: 0 <= i < |claims| && claims[i].id == id
  {
    if claims != [] {
      FoundClaimIsListed(claims[..|claims| - 1], id);
      assert claims == claims[..|claims| - 1] + [claims[|claims| - 1]];
    }
  }

  /** The last claim of the id, if the inventory has one. */
  lemma {:induction false} FindClaimIsLast(claims: seq<Claim>, id: string)
    ensures FindClaim(claims, id).None? <==> forall k | 0 <= k < |claims| :: claims[k].id != id
    ensures forall k | 0 <= k < |claims| && claims[k].id == id && forall l | k < l < |claims| :: claims[l].id != id ::
              FindClaim(claims, id) == Some(claims[k])
  {
    if claims != [] && claims[|claims| - 1].id != id {
      var front := claims[..|claims| - 1];
      FindClaimIsLast(front, id);
      assert forall k | 0 <= k < |front| :: front[k] == claims[k];
    }
  }

  // --- Contracts ----------------------------------------------------------------------

  function InsertByOrder(sorted: seq<Milestone>, m: Milestone): seq<Milestone> {
    if sorted == [] || sorted[|sorted| - 1].order <= m.order then sorted + [m]
    else InsertByOrder(sorted[..|sorted| - 1], m) + [sorted[|sorted| - 1]]
  }

  /** A stable sort by `order`. */
  function ByOrder(milestones: seq<Milestone>): seq<Milestone> {
    if milestones == [] then []
    else InsertByOrder(ByOrder(milestones[..|milestones| - 1]), milestones[|milestones| - 1])
  }

  /** By order and, of one order, by place. */
  predicate Precedes(milestones: seq<Milestone>, i: nat, j: nat)
    requires i < |milestones| && j < |milestones|
  {
    milestones[i].order < milestones[j].order || (milestones[i].order == milestones[j].order && i < j)
  }

  ghost predicate Ascends(milestones: seq<Milestone>, at: seq<nat>) {
    && (forall k | 0 <= k < |at| :: at[k] < |milestones|)
    && (forall k, l | 0 <= k < l < |at| :: Precedes(milestones, at[k], at[l]))
  }

  lemma AscendsOn(milestones: seq<Milestone>, at: seq<nat>, n: nat)
    requires Ascends(milestones, at) && n < |milestones| && (at == [] || Precedes(milestones, at[|at| - 1], n))
    ensures Ascends(milestones, at + [n])
  {
    forall k | 0 <= k < |at|
      ensures Precedes(milestones, at[k], n)
    {
      assert k < |at| - 1 ==> Precedes(milestones, at[k], at[|at| - 1]);
    }
  }

  lemma {:induction false} InsertPlaces(milestones: seq<Milestone>, sorted: seq<Milestone>, at: seq<nat>)
    returns (places: seq<nat>)
    requires milestones != [] && |sorted| == |at| && Ascends(milestones, at)
    requires forall k | 0 <= k < |at| :: at[k] < |milestones| - 1 && sorted[k] == milestones[at[k]]
    ensures |InsertByOrder(sorted, milestones[|milestones| - 1])| == |places| == |at| + 1
    ensures Ascends(milestones, places) && forall i :: i in places <==> i in at || i == |milestones| - 1
    ensures places[|at|] == |milestones| - 1 || (at != [] && places[|at|] == at[|at| - 1])
    ensures forall k | 0 <= k < |places| ::
              InsertByOrder(sorted, milestones[|milestones| - 1])[k] == milestones[places[k]]
  {
    hide Ascends;
    var n := |milestones| - 1;
    if sorted == [] || sorted[|sorted| - 1].order <= milestones[n].order {
      places := at + [n];
      AscendsOn(milestones, at, n);
      InLonger(at, n);
    } else {
      var front, last := at[..|at| - 1], at[|at| - 1];
      assert at == front + [last];
      LastAscends(milestones, front, last);
      var before := InsertPlaces(milestones, sorted[..|sorted| - 1], front);
      places := before + [last];
      AscendsOn(milestones, before, last);
      InLonger(before, last);
      InLonger(front, last);
    }
  }

  lemma LastAscends(milestones: seq<Milestone>, front: seq<nat>, last: nat)
    requires Ascends(milestones, front + [last])
    ensures Ascends(milestones, front) && last < |milestones|
    ensures front != [] ==> front[|front| - 1] < |milestones| && Precedes(milestones, front[|front| - 1], last)
  {
    var at := front + [last];
    assert forall k | 0 <= k < |front| :: at[k] == front[k];
    assert at[|front|] == last;
  }

  lemma StillAscends(milestones: seq<Milestone>, longer: seq<Milestone>, at: seq<nat>)
    requires Ascends(milestones, at) && milestones <= longer
    ensures Ascends(longer, at)
  {
    forall k, l | 0 <= k < l < |at|
      ensures Precedes(longer, at[k], at[l])
    {
      assert Precedes(milestones, at[k], at[l]);
    }
  }

  /** The sort is by order, stable, and loses nothing. */
  lemma {:induction false} ByOrderPlaces(milestones: seq<Milestone>) returns (at: seq<nat>)
    ensures |ByOrder(milestones)| == |at| == |milestones| && Ascends(milestones, at)
    ensures forall i: nat :: i in at <==> i < |milestones|
    ensures forall k | 0 <= k < |at| :: at[k] < |milestones| && ByOrder(milestones)[k] == milestones[at[k]]
  {
    at := [];
    if milestones != [] {
      hide Ascends;
      var front := milestones[..|milestones| - 1];
      var before := ByOrderPlaces(front);
      StillAscends(front, milestones, before);
      at := InsertPlaces(milestones, ByOrder(front), before);
      forall k | 0 <= k < |at|
        ensures at[k] < |milestones|
      {
        assert at[k] in at;
      }
    }
  }

  ghost predicate SameMilestones(a: seq<Milestone>, b: seq<Milestone>) { |a| == |b| && forall m :: m in a <==> m in b }

  ghost predicate DistinctSteps(milestones: seq<Milestone>) {
    forall i, j | 0 <= i < j < |milestones| :: milestones[i].order != milestones[j].order
  }

  ghost predicate Steps(milestones: seq<Milestone>) {
    forall i, j | 0 <= i < j < |milestones| :: milestones[i].order < milestones[j].order
  }

  lemma SortedSteps(milestones: seq<Milestone>)
    requires DistinctSteps(milestones)
    ensures Steps(ByOrder(milestones)) && SameMilestones(ByOrder(milestones), milestones)
  {
    var at := ByOrderPlaces(milestones);
    var sorted := ByOrder(milestones);
    forall k, l | 0 <= k < l < |sorted|
      ensures sorted[k].order < sorted[l].order
    {
      assert Precedes(milestones, at[k], at[l]);
    }
    forall m
      ensures m in sorted <==> m in milestones
    {
      if m in milestones {
        var i :| 0 <= i < |milestones| && milestones[i] == m;
        assert i in at;
      }
      if m in sorted { var k :| 0 <= k < |sorted| && sorted[k] == m; }
    }
  }

  lemma {:induction false} SameSteps(a: seq<Milestone>, b: seq<Milestone>)
    requires Steps(a) && Steps(b) && SameMilestones(a, b)
    ensures a == b
  {
    if a != [] {
      var n := |a| - 1;
      assert a[n] in b && b[n] in a;
      var i :| 0 <= i < |b| && b[i] == a[n];
      var j :| 0 <= j < |a| && a[j] == b[n];
      assert a[n] == b[n];
      forall m
        ensures m in a[..n] <==> m in b[..n]
      {
        LastIsApart(a, m);
        LastIsApart(b, m);
      }
      SameSteps(a[..n], b[..n]);
    }
  }

  lemma LastIsApart(milestones: seq<Milestone>, m: Milestone)
    requires milestones != [] && Steps(milestones)
    ensures m in milestones[..|milestones| - 1] <==> m in milestones && m != milestones[|milestones| - 1]
  {
    var n, front := |milestones| - 1, milestones[..|milestones| - 1];
    assert milestones == front + [milestones[n]];
    if m in front { var i :| 0 <= i < n && front[i] == m; }
  }

  /** The array's own order never matters to a fingerprint, as long as no two milestones share an order. */
  lemma ArrayOrderNeverMatters(a: seq<Milestone>, b: seq<Milestone>)
    requires DistinctSteps(a) && DistinctSteps(b) && SameMilestones(a, b)
    ensures Fingerprint(a) == Fingerprint(b)
  {
    SortedSteps(a);
    SortedSteps(b);
    SameSteps(ByOrder(a), ByOrder(b));
  }

  /** Where they do, it does. */
  lemma SharedOrderMatters(m: Milestone, n: Milestone)
    requires m.order == n.order && m.claimId != n.claimId
    ensures SameMilestones([m, n], [n, m]) && Fingerprint([m, n]) != Fingerprint([n, m])
  {
    InOrderStands([m, n]);
    InOrderStands([n, m]);
    assert ClaimIds([m, n])[0] == m.claimId && ClaimIds([n, m])[0] == n.claimId;
  }

  lemma {:induction false} InOrderStands(milestones: seq<Milestone>)
    requires forall i, j | 0 <= i < j < |milestones| :: milestones[i].order <= milestones[j].order
    ensures ByOrder(milestones) == milestones
  {
    if milestones != [] {
      InOrderStands(milestones[..|milestones| - 1]);
      assert milestones == milestones[..|milestones| - 1] + [milestones[|milestones| - 1]];
    }
  }

  function ClaimIds(milestones: seq<Milestone>): seq<string> {
    seq(|milestones|, i requires 0 <= i < |milestones| => milestones[i].claimId)
  }

  /** The fingerprint: the claims in path order. */
  function Fingerprint(milestones: seq<Milestone>): seq<string> { ClaimIds(ByOrder(milestones)) }

  /** What identity resolves on. */
  datatype Contract = Contract(path: seq<string>, startingState: Option<string>)

  function ContractOf(milestones: seq<Milestone>, startingState: Option<string>): Contract {
    Contract(Fingerprint(milestones), startingState)
  }

  ghost predicate Names(milestones: seq<Milestone>, claimId: string) {
    exists i :: 0 <= i < |milestones| && milestones[i].claimId == claimId
  }

  lemma {:induction false} InsertKeepsNames(sorted: seq<Milestone>, m: Milestone, claimId: string)
    ensures Names(InsertByOrder(sorted, m), claimId) <==> Names(sorted, claimId) || m.claimId == claimId
  {
    if sorted == [] || sorted[|sorted| - 1].order <= m.order {
      NamesAppend(sorted, m, claimId);
    } else {
      InsertKeepsNames(sorted[..|sorted| - 1], m, claimId);
      NamesAppend(InsertByOrder(sorted[..|sorted| - 1], m), sorted[|sorted| - 1], claimId);
      NamesAppend(sorted[..|sorted| - 1], sorted[|sorted| - 1], claimId);
      assert sorted == sorted[..|sorted| - 1] + [sorted[|sorted| - 1]];
    }
  }

  lemma NamesAppend(milestones: seq<Milestone>, m: Milestone, claimId: string)
    ensures Names(milestones + [m], claimId) <==> Names(milestones, claimId) || m.claimId == claimId
  {
    var all := milestones + [m];
    assert all[|milestones|] == m;
    assert forall i | 0 <= i < |milestones| :: all[i] == milestones[i];
  }

  lemma {:induction false} SortKeepsNames(milestones: seq<Milestone>, claimId: string)
    ensures Names(ByOrder(milestones), claimId) <==> Names(milestones, claimId)
  {
    if milestones != [] {
      var front, last := milestones[..|milestones| - 1], milestones[|milestones| - 1];
      SortKeepsNames(front, claimId);
      InsertKeepsNames(ByOrder(front), last, claimId);
      NamesAppend(front, last, claimId);
      assert milestones == front + [last];
    }
  }

  /** The fingerprint determines the claim set. */
  lemma FingerprintNames(milestones: seq<Milestone>, claimId: string)
    ensures claimId in Fingerprint(milestones) <==> Names(milestones, claimId)
  {
    SortKeepsNames(milestones, claimId);
    var sorted := ByOrder(milestones);
    if Names(sorted, claimId) {
      var i :| 0 <= i < |sorted| && sorted[i].claimId == claimId;
      assert ClaimIds(sorted)[i] == claimId;
    }
  }

  /** Numbered paths have one contract exactly when they walk the same claims in the same order from the same state. */
  lemma SameContractExactlyWhen(a: seq<Milestone>, b: seq<Milestone>, sa: Option<string>, sb: Option<string>)
    requires forall i | 0 <= i < |a| :: a[i].order == i + 1
    requires forall i | 0 <= i < |b| :: b[i].order == i + 1
    ensures ContractOf(a, sa) == ContractOf(b, sb) <==>
            |a| == |b| && (forall i | 0 <= i < |a| :: a[i].claimId == b[i].claimId) && sa == sb
  {
    hide ByOrder;
    InOrderStands(a);
    InOrderStands(b);
    assert forall i | 0 <= i < |a| :: ClaimIds(a)[i] == a[i].claimId;
    assert forall i | 0 <= i < |b| :: ClaimIds(b)[i] == b[i].claimId;
  }

  /** Two flows of one contract test the same claims. */
  lemma SameContractSameClaims(a: seq<Milestone>, b: seq<Milestone>, sa: Option<string>, sb: Option<string>,
                               claimId: string)
    requires ContractOf(a, sa) == ContractOf(b, sb)
    ensures Names(a, claimId) <==> Names(b, claimId)
  {
    FingerprintNames(a, claimId);
    FingerprintNames(b, claimId);
  }
}
