/**
 * The first half of a synthesis (packages/guard-generator/src/flows.ts: `partitionPriorFlows`, the area pass of
 * `synthesizeFlows`, `applySubsumption`).
 */
module FlowFold {
  // The committed corpus is dealt out to the areas, every area's session value is re-validated, and duplicate
  // drafts are subsumed. Whatever a session returns is data.

  import opened Common
  import opened Text
  import opened FlowModel
  import opened FlowValidation
  import opened FlowIdentity

  // --- Subsumption ----------------------------------------------------------------------

  datatype Dropped = Dropped(draft: Draft, supersededBy: string)

  function DroppedDrafts(dropped: seq<Dropped>): seq<Draft> {
    seq(|dropped|, i requires 0 <= i < |dropped| => dropped[i].draft)
  }

  predicate HasKey(drafts: seq<Draft>, key: Contract) { exists i :: 0 <= i < |drafts| && DraftKey(drafts[i]) == key }

  ghost predicate KeysDistinct(drafts: seq<Draft>) {
    forall i, j | 0 <= i < j < |drafts| :: DraftKey(drafts[i]) != DraftKey(drafts[j])
  }

  /** A draft's contract survives, in a draft that continues a flow if it does. */
  ghost predicate Survives(kept: seq<Draft>, d: Draft) {
    exists k :: 0 <= k < |kept| && DraftKey(kept[k]) == DraftKey(d) && (d.continues.Some? ==> kept[k].continues.Some?)
  }

  /**
   * One draft a contract survives; nothing is lost but duplicates; a draft that
   * continues a flow is never lost to one that does not.
   */
  ghost predicate Subsumes(drafts: seq<Draft>, kept: seq<Draft>, dropped: seq<Dropped>) {
    && KeysDistinct(kept)
    && multiset(drafts) == multiset(kept) + multiset(DroppedDrafts(dropped))
    && (forall i | 0 <= i < |drafts| :: Survives(kept, drafts[i]))
  }

  lemma DropOneMore(dropped: seq<Dropped>, d: Dropped)
    ensures DroppedDrafts(dropped + [d]) == DroppedDrafts(dropped) + [d.draft]
  {
  }

  lemma AllSurvive(front: seq<Draft>, d: Draft, before: seq<Draft>, after: seq<Draft>)
    requires forall i | 0 <= i < |front| :: Survives(before, front[i])
    requires forall x | Survives(before, x) :: Survives(after, x)
    requires Survives(after, d)
    ensures forall i | 0 <= i < |front + [d]| :: Survives(after, (front + [d])[i])
  {
  }

  lemma KeepDraft(front: seq<Draft>, d: Draft, kept: seq<Draft>, dropped: seq<Dropped>)
    requires Subsumes(front, kept, dropped) && !HasKey(kept, DraftKey(d))
    ensures Subsumes(front + [d], kept + [d], dropped)
  {
    var longer := kept + [d];
    forall x | Survives(kept, x)
      ensures Survives(longer, x)
    {
      var k :| 0 <= k < |kept| && DraftKey(kept[k]) == DraftKey(x) && (x.continues.Some? ==> kept[k].continues.Some?);
      assert longer[k] == kept[k];
    }
    assert longer[|kept|] == d;
    AllSurvive(front, d, kept, longer);
  }

  lemma DropDraft(front: seq<Draft>, d: Draft, kept: seq<Draft>, dropped: seq<Dropped>, at: nat, title: string)
    requires Subsumes(front, kept, dropped) && at < |kept| && DraftKey(kept[at]) == DraftKey(d)
    requires !(d.continues.Some? && kept[at].continues.None?)
    ensures Subsumes(front + [d], kept, dropped + [Dropped(d, title)])
  {
    DropOneMore(dropped, Dropped(d, title));
    AllSurvive(front, d, kept, kept);
  }

  lemma SwapDraft(front: seq<Draft>, d: Draft, kept: seq<Draft>, dropped: seq<Dropped>, at: nat, title: string)
    requires Subsumes(front, kept, dropped) && at < |kept| && DraftKey(kept[at]) == DraftKey(d)
    requires d.continues.Some? && kept[at].continues.None?
    ensures Subsumes(front + [d], kept[at := d], dropped + [Dropped(kept[at], title)])
  {
    var swapped := kept[at := d];
    DropOneMore(dropped, Dropped(kept[at], title));
    assert multiset(swapped) + multiset{kept[at]} == multiset(kept) + multiset{d};
    forall x | Survives(kept, x)
      ensures Survives(swapped, x)
    {
      var k :| 0 <= k < |kept| && DraftKey(kept[k]) == DraftKey(x) && (x.continues.Some? ==> kept[k].continues.Some?);
      assert DraftKey(swapped[k]) == DraftKey(x);
    }
    assert swapped[at] == d;
    AllSurvive(front, d, kept, swapped);
  }

  /** `seen` says where in `kept` each contract stands. */
  ghost predicate Indexed(seen: map<Contract, nat>, kept: seq<Draft>) {
    && (forall key | key in seen :: seen[key] < |kept| && DraftKey(kept[seen[key]]) == key)
    && (forall k | 0 <= k < |kept| :: DraftKey(kept[k]) in seen)
  }

  lemma NothingSubsumed()
    ensures Subsumes([], [], []) && Rightly([], [], [], [])
  {
  }

  // Which of several drafts of one contract stands.

  predicate Alike(drafts: seq<Draft>, i: nat, j: nat)
    requires i < |drafts| && j < |drafts|
  {
    DraftKey(drafts[i]) == DraftKey(drafts[j])
  }

  /** The first of its contract that continues a flow or, where none does, the first of its contract. */
  ghost predicate Chosen(drafts: seq<Draft>, i: nat) {
    && i < |drafts|
    && forall j | 0 <= j < |drafts| && j != i && Alike(drafts, i, j) ::
        if drafts[i].continues.Some? then j < i ==> drafts[j].continues.None? else drafts[j].continues.None? && i < j
  }

  ghost predicate FirstOfContract(drafts: seq<Draft>, i: nat) {
    i < |drafts| && forall j | 0 <= j < i :: !Alike(drafts, i, j)
  }

  /** The draft kept is the chosen one of the contract that first stands at `i`. */
  ghost predicate StandsFor(drafts: seq<Draft>, i: nat, d: Draft) {
    && FirstOfContract(drafts, i) && DraftKey(drafts[i]) == DraftKey(d)
    && exists c: nat :: Chosen(drafts, c) && drafts[c] == d
  }

  /** The draft was dropped for another of its contract, of this title. */
  ghost predicate DroppedFor(drafts: seq<Draft>, d: Dropped) {
    exists j :: 0 <= j < |drafts| && DraftKey(drafts[j]) == DraftKey(d.draft) && drafts[j].title == d.supersededBy
  }

  /** The chosen drafts are kept, in the order their contracts first stand. */
  ghost predicate Rightly(drafts: seq<Draft>, kept: seq<Draft>, dropped: seq<Dropped>, at: seq<nat>) {
    && Climbs(at, |drafts|) && |at| == |kept|
    && (forall k | 0 <= k < |kept| :: StandsFor(drafts, at[k], kept[k]))
    && (forall i | 0 <= i < |dropped| :: DroppedFor(drafts, dropped[i]))
  }

  ghost predicate KeepsChosen(drafts: seq<Draft>, kept: seq<Draft>, dropped: seq<Dropped>) {
    exists at :: Rightly(drafts, kept, dropped, at)
  }

  /** Another draft changes nothing for the contracts that are not its own. */
  lemma OtherContractsStand(front: seq<Draft>, d: Draft, i: nat, kept: Draft)
    requires StandsFor(front, i, kept) && DraftKey(d) != DraftKey(kept)
    ensures StandsFor(front + [d], i, kept)
  {
    hide ContractOf;
    var all := front + [d];
    var c: nat :| Chosen(front, c) && front[c] == kept;
    assert forall j | 0 <= j < |front| :: all[j] == front[j];
    forall j | 0 <= j < |all| && j != c && Alike(all, c, j)
      ensures if all[c].continues.Some? then j < c ==> all[j].continues.None? else all[j].continues.None? && c < j
    {
      assert j < |front| && Alike(front, c, j);
    }
    assert Chosen(all, c);
    forall j | 0 <= j < i
      ensures !Alike(all, i, j)
    {
      assert !Alike(front, i, j);
    }
  }

  /** Nor for its own, when one that stands is not outdone. */
  lemma OwnContractStands(front: seq<Draft>, d: Draft, i: nat, kept: Draft)
    requires StandsFor(front, i, kept) && DraftKey(d) == DraftKey(kept)
    requires !(d.continues.Some? && kept.continues.None?)
    ensures StandsFor(front + [d], i, kept)
  {
    hide ContractOf;
    var all := front + [d];
    var c: nat :| Chosen(front, c) && front[c] == kept;
    assert forall j | 0 <= j < |front| :: all[j] == front[j];
    forall j | 0 <= j < |all| && j != c && Alike(all, c, j)
      ensures if all[c].continues.Some? then j < c ==> all[j].continues.None? else all[j].continues.None? && c < j
    {
      if j < |front| { assert Alike(front, c, j); }
    }
    assert Chosen(all, c);
    forall j | 0 <= j < i
      ensures !Alike(all, i, j)
    {
      assert !Alike(front, i, j);
    }
  }

  /** One that continues a flow outdoes one that does not. */
  lemma ContinuingTakesOver(front: seq<Draft>, d: Draft, i: nat, kept: Draft)
    requires StandsFor(front, i, kept) && DraftKey(d) == DraftKey(kept)
    requires d.continues.Some? && kept.continues.None?
    ensures StandsFor(front + [d], i, d)
  {
    hide ContractOf;
    var all := front + [d];
    var c: nat :| Chosen(front, c) && front[c] == kept;
    assert forall j | 0 <= j < |front| :: all[j] == front[j];
    forall j | 0 <= j < |front| && Alike(all, |front|, j)
      ensures all[j].continues.None?
    {
      if j != c { assert Alike(front, c, j); }
    }
    assert Chosen(all, |front|) && all[|front|] == d;
    forall j | 0 <= j < i
      ensures !Alike(all, i, j)
    {
      assert !Alike(front, i, j);
    }
  }

  lemma NewContractStands(front: seq<Draft>, d: Draft, kept: seq<Draft>, dropped: seq<Dropped>)
    requires Subsumes(front, kept, dropped) && !HasKey(kept, DraftKey(d))
    ensures StandsFor(front + [d], |front|, d)
  {
    hide ContractOf;
    var all, n := front + [d], |front|;
    forall j | 0 <= j < n
      ensures !Alike(all, n, j) && !Alike(all, j, n)
    {
      assert Survives(kept, front[j]);
    }
    assert Chosen(all, n) && all[n] == d;
  }

  lemma StillDropped(front: seq<Draft>, d: Draft, dropped: seq<Dropped>)
    requires forall i | 0 <= i < |dropped| :: DroppedFor(front, dropped[i])
    ensures forall i | 0 <= i < |dropped| :: DroppedFor(front + [d], dropped[i])
  {
    hide ContractOf;
    var all := front + [d];
    forall i | 0 <= i < |dropped|
      ensures DroppedFor(all, dropped[i])
    {
      assert DroppedFor(front, dropped[i]);
      var j :| 0 <= j < |front| && DraftKey(front[j]) == DraftKey(dropped[i].draft)
            && front[j].title == dropped[i].supersededBy;
      assert all[j] == front[j];
    }
  }

  lemma KeepRightly(front: seq<Draft>, d: Draft, kept: seq<Draft>, dropped: seq<Dropped>, at: seq<nat>)
    requires Subsumes(front, kept, dropped) && !HasKey(kept, DraftKey(d)) && Rightly(front, kept, dropped, at)
    ensures Rightly(front + [d], kept + [d], dropped, at + [|front|])
  {
    NewContractStands(front, d, kept, dropped);
    StillDropped(front, d, dropped);
    hide Subsumes, StandsFor, DroppedFor, ContractOf;
    forall k | 0 <= k < |kept|
      ensures StandsFor(front + [d], at[k], kept[k])
    {
      assert DraftKey(kept[k]) != DraftKey(d);
      OtherContractsStand(front, d, at[k], kept[k]);
    }
  }

  lemma DropRightly(front: seq<Draft>, d: Draft, kept: seq<Draft>, dropped: seq<Dropped>, at: seq<nat>, k: nat)
    requires Rightly(front, kept, dropped, at) && KeysDistinct(kept)
    requires k < |kept| && DraftKey(kept[k]) == DraftKey(d) && !(d.continues.Some? && kept[k].continues.None?)
    ensures Rightly(front + [d], kept, dropped + [Dropped(d, kept[k].title)], at)
  {
    StillDropped(front, d, dropped);
    Superseded(front, d, at[k], kept[k], d);
    hide StandsFor, DroppedFor, ContractOf;
    forall l | 0 <= l < |kept|
      ensures StandsFor(front + [d], at[l], kept[l])
    {
      if l == k { OwnContractStands(front, d, at[l], kept[l]); }
      else { OtherContractsStand(front, d, at[l], kept[l]); }
    }
  }

  lemma SwapRightly(front: seq<Draft>, d: Draft, kept: seq<Draft>, dropped: seq<Dropped>, at: seq<nat>, k: nat)
    requires Rightly(front, kept, dropped, at) && KeysDistinct(kept)
    requires k < |kept| && DraftKey(kept[k]) == DraftKey(d) && d.continues.Some? && kept[k].continues.None?
    ensures Rightly(front + [d], kept[k := d], dropped + [Dropped(kept[k], d.title)], at)
  {
    StillDropped(front, d, dropped);
    assert DroppedFor(front + [d], Dropped(kept[k], d.title)) by { assert (front + [d])[|front|] == d; }
    hide StandsFor, DroppedFor, ContractOf;
    forall l | 0 <= l < |kept|
      ensures StandsFor(front + [d], at[l], kept[k := d][l])
    {
      if l == k { ContinuingTakesOver(front, d, at[l], kept[l]); }
      else { OtherContractsStand(front, d, at[l], kept[l]); }
    }
  }

  lemma Superseded(front: seq<Draft>, d: Draft, i: nat, winner: Draft, dropped: Draft)
    requires StandsFor(front, i, winner) && DraftKey(winner) == DraftKey(dropped)
    ensures DroppedFor(front + [d], Dropped(dropped, winner.title))
  {
    var c: nat :| Chosen(front, c) && front[c] == winner;
    assert (front + [d])[c] == winner;
  }

  lemma KeptApart(drafts: seq<Draft>, kept: seq<Draft>, dropped: seq<Dropped>)
    requires Subsumes(drafts, kept, dropped)
    ensures KeysDistinct(kept)
  {
  }

  method ApplySubsumption(drafts: seq<Draft>) returns (kept: seq<Draft>, dropped: seq<Dropped>)
    ensures Subsumes(drafts, kept, dropped) && KeepsChosen(drafts, kept, dropped)
  {
    hide Subsumes, Survives, ContractOf, Fingerprint, KeysDistinct, Rightly;
    kept, dropped := [], [];
    ghost var places: seq<nat> := [];
    var seen: map<Contract, nat> := map[];
    NothingSubsumed();
    for i := 0 to |drafts|
      invariant Subsumes(drafts[..i], kept, dropped) && Indexed(seen, kept)
      invariant Rightly(drafts[..i], kept, dropped, places)
    {
      var d := drafts[i];
      var key := DraftKey(d);
      assert drafts[..i + 1] == drafts[..i] + [d];
      if key !in seen {
        KeepDraft(drafts[..i], d, kept, dropped);
        KeepRightly(drafts[..i], d, kept, dropped, places);
        places := places + [i];
        seen, kept := seen[key := |kept|], kept + [d];
      } else {
        var at := seen[key];
        var prior := kept[at];
        KeptApart(drafts[..i], kept, dropped);
        if d.continues.Some? && prior.continues.None? {
          SwapDraft(drafts[..i], d, kept, dropped, at, d.title);
          SwapRightly(drafts[..i], d, kept, dropped, places, at);
          kept, dropped := kept[at := d], dropped + [Dropped(prior, d.title)];
        } else {
          DropDraft(drafts[..i], d, kept, dropped, at, prior.title);
          DropRightly(drafts[..i], d, kept, dropped, places, at);
          dropped := dropped + [Dropped(d, prior.title)];
        }
      }
    }
    assert drafts[..|drafts|] == drafts;
  }

  /** Subsumption loses no claim. */
  lemma SubsumptionKeepsClaims(drafts: seq<Draft>, kept: seq<Draft>, dropped: seq<Dropped>, id: string)
    requires Subsumes(drafts, kept, dropped) && InSomeFlow(drafts, id)
    ensures InSomeFlow(kept, id)
  {
    var i :| 0 <= i < |drafts| && Names(drafts[i].milestones, id);
    assert Survives(kept, drafts[i]);
    var k :| 0 <= k < |kept| && DraftKey(kept[k]) == DraftKey(drafts[i]);
    SameContractSameClaims(drafts[i].milestones, kept[k].milestones, drafts[i].startingState, kept[k].startingState,
                           id);
  }

  lemma KeptAreDrafts(drafts: seq<Draft>, kept: seq<Draft>, dropped: seq<Dropped>)
    requires Subsumes(drafts, kept, dropped)
    ensures forall k | 0 <= k < |kept| :: kept[k] in drafts
  {
    forall k | 0 <= k < |kept|
      ensures kept[k] in drafts
    {
      assert kept[k] in multiset(kept);
      assert kept[k] in multiset(drafts);
    }
  }

  // --- Where the committed corpus goes before the sessions -------------------------------------

  function AreaKey(area: Area): string {
    if area.chunk.None? then area.areaId else area.areaId + "#" + Decimal(area.chunk.value)
  }

  ghost predicate DistinctKeys(areas: seq<Area>) {
    forall i, j | 0 <= i < j < |areas| :: AreaKey(areas[i]) != AreaKey(areas[j])
  }

  /** The last unit holding a document. */
  function UnitOfDoc(areas: seq<Area>, doc: string): Option<string> {
    if areas == [] then None
    else if doc in areas[|areas| - 1].docs then Some(AreaKey(areas[|areas| - 1]))
    else UnitOfDoc(areas[..|areas| - 1], doc)
  }

  function ClaimsOfUnit(areas: seq<Area>, key: string): seq<Claim> {
    if areas == [] then []
    else if AreaKey(areas[|areas| - 1]) == key then areas[|areas| - 1].claims
    else ClaimsOfUnit(areas[..|areas| - 1], key)
  }

  datatype Place = EpicPass | Unit(key: string) | LeftCorpus | NoLiveClaim

  predicate SnapsAny(claims: seq<Claim>, milestones: seq<Milestone>) {
    exists i :: 0 <= i < |milestones| && Snap(claims, milestones[i].claimId).Some?
  }

  function PlaceOf(flow: Flow, areas: seq<Area>): Place {
    if flow.composedOf != [] then EpicPass
    else if flow.milestones == [] then LeftCorpus
    else
      var unit := UnitOfDoc(areas, flow.milestones[0].doc);
      if unit.None? then LeftCorpus
      else if SnapsAny(ClaimsOfUnit(areas, unit.value), flow.milestones) then Unit(unit.value)
      else NoLiveClaim
  }

  function Placed(previous: seq<Flow>, areas: seq<Area>, place: Place): seq<Flow> {
    if previous == [] then []
    else
      var last := previous[|previous| - 1];
      Placed(previous[..|previous| - 1], areas, place) + (if PlaceOf(last, areas) == place then [last] else [])
  }

  lemma {:induction false} PlacedAre(previous: seq<Flow>, areas: seq<Area>, place: Place)
    ensures forall f :: f in Placed(previous, areas, place) <==> f in previous && PlaceOf(f, areas) == place
  {
    hide PlaceOf;
    if previous != [] {
      PlacedAre(previous[..|previous| - 1], areas, place);
      assert previous == previous[..|previous| - 1] + [previous[|previous| - 1]];
    }
  }

  lemma {:induction false} PlacedDistinct(previous: seq<Flow>, areas: seq<Area>, place: Place)
    requires DistinctIds(previous)
    ensures DistinctIds(Placed(previous, areas, place))
  {
    hide PlaceOf;
    if previous != [] {
      var front, last := previous[..|previous| - 1], previous[|previous| - 1];
      PlacedDistinct(front, areas, place);
      PlacedAre(front, areas, place);
      var placed := Placed(front, areas, place);
      forall i | 0 <= i < |placed|
        ensures placed[i].id != last.id
      {
        assert placed[i] in front;
      }
    }
  }

  function Listed(byUnit: map<string, seq<Flow>>, key: string): seq<Flow> {
    if key in byUnit then byUnit[key] else []
  }

  datatype RetiredRecord = RetiredRecord(flow: Flow, reason: string)

  function RetiredFlows(retired: seq<RetiredRecord>): seq<Flow> {
    seq(|retired|, i requires 0 <= i < |retired| => retired[i].flow)
  }

  function RetirementReason(place: Place): Option<string> {
    match place
    case LeftCorpus => Some("its documents are no longer in the corpus")
    case NoLiveClaim => Some("none of its claims is in the live claim inventory")
    case _ => None
  }

  /** The deterministic retirements, in corpus order. */
  function RetiredAtOnce(previous: seq<Flow>, areas: seq<Area>): seq<RetiredRecord> {
    if previous == [] then []
    else
      var last := previous[|previous| - 1];
      var reason := RetirementReason(PlaceOf(last, areas));
      RetiredAtOnce(previous[..|previous| - 1], areas)
      + (if reason.Some? then [RetiredRecord(last, reason.value)] else [])
  }

  lemma {:induction false} RetiredAtOnceAre(previous: seq<Flow>, areas: seq<Area>)
    ensures forall f :: f in RetiredFlows(RetiredAtOnce(previous, areas)) <==>
              f in previous && RetirementReason(PlaceOf(f, areas)).Some?
    ensures DistinctIds(previous) ==> DistinctIds(RetiredFlows(RetiredAtOnce(previous, areas)))
  {
    hide PlaceOf, RetirementReason;
    if previous != [] {
      var front, last := previous[..|previous| - 1], previous[|previous| - 1];
      RetiredAtOnceAre(front, areas);
      assert previous == front + [last];
      var before, after := RetiredAtOnce(front, areas), RetiredAtOnce(previous, areas);
      var flows := RetiredFlows(before);
      assert RetiredFlows(after) == if RetirementReason(PlaceOf(last, areas)).Some? then flows + [last] else flows;
      if DistinctIds(previous) {
        assert forall i | 0 <= i < |front| :: front[i] == previous[i];
        forall k | 0 <= k < |flows|
          ensures flows[k].id != last.id
        {
          assert flows[k] in front;
        }
      }
    }
  }

  /** Each committed flow goes to its unit, to the epic pass, or straight to retirement. */
  method PartitionPriorFlows(previous: seq<Flow>, areas: seq<Area>)
    returns (byUnit: map<string, seq<Flow>>, epics: seq<Flow>, retired: seq<RetiredRecord>)
    ensures forall key :: Listed(byUnit, key) == Placed(previous, areas, Unit(key))
    ensures epics == Placed(previous, areas, EpicPass)
    ensures retired == RetiredAtOnce(previous, areas)
  {
    hide PlaceOf, RetirementReason, Placed, RetiredAtOnce;
    byUnit, epics, retired := map[], [], [];
    NonePlaced(areas);
    for i := 0 to |previous|
      invariant forall key :: Listed(byUnit, key) == Placed(previous[..i], areas, Unit(key))
      invariant epics == Placed(previous[..i], areas, EpicPass)
      invariant retired == RetiredAtOnce(previous[..i], areas)
    {
      var flow := previous[i];
      OneMorePlaced(previous, areas, i);
      var place := PlaceOf(flow, areas);
      var reason := RetirementReason(place);
      if place.EpicPass? { epics := epics + [flow]; }
      if place.Unit? { byUnit := byUnit[place.key := Listed(byUnit, place.key) + [flow]]; }
      if reason.Some? { retired := retired + [RetiredRecord(flow, reason.value)]; }
    }
    assert previous[..|previous|] == previous;
  }

  lemma NonePlaced(areas: seq<Area>)
    ensures forall place :: Placed([], areas, place) == []
    ensures RetiredAtOnce([], areas) == []
  {
  }

  lemma OneMorePlaced(previous: seq<Flow>, areas: seq<Area>, i: nat)
    requires i < |previous|
    ensures forall place :: Placed(previous[..i + 1], areas, place) ==
                            Placed(previous[..i], areas, place)
                            + (if PlaceOf(previous[i], areas) == place then [previous[i]] else [])
    ensures var reason := RetirementReason(PlaceOf(previous[i], areas));
            RetiredAtOnce(previous[..i + 1], areas) ==
            RetiredAtOnce(previous[..i], areas)
            + (if reason.Some? then [RetiredRecord(previous[i], reason.value)] else [])
  {
    hide PlaceOf, RetirementReason;
    assert previous[..i + 1][..i] == previous[..i];
  }

  // --- The areas ----------------------------------------------------------------------------

  /** The committed no-flow decisions a unit is briefed with. */
  function NoFlowOfUnit(prior: seq<NoFlowClaim>, areas: seq<Area>, docOf: string -> string,
                        key: string): seq<NoFlowClaim> {
    if prior == [] then []
    else
      var last := prior[|prior| - 1];
      NoFlowOfUnit(prior[..|prior| - 1], areas, docOf, key)
      + (if UnitOfDoc(areas, docOf(last.claimId)) == Some(key) && Snap(ClaimsOfUnit(areas, key), last.claimId).Some?
         then [last] else [])
  }

  /** What a synthesis works from; `results` holds the area sessions that answered. */
  datatype Inputs = Inputs(
    areas: seq<Area>,
    previous: seq<Flow>,
    previousNoFlow: seq<NoFlowClaim>,
    docOf: string -> string,
    results: map<string, FlowSet>)

  /** What the fold makes of a session value for one area. */
  function AreaValue(input: Inputs, area: Area, data: FlowSet): Validation {
    Validate(area, data, Placed(input.previous, input.areas, Unit(AreaKey(area))), false,
             NoFlowOfUnit(input.previousNoFlow, input.areas, input.docOf, AreaKey(area)))
  }

  /** An area settles when its session answered and the fold accepts the answer. */
  function Outcome(input: Inputs, area: Area): Option<Validation> {
    if AreaKey(area) !in input.results then None
    else
      var v := AreaValue(input, area, input.results[AreaKey(area)]);
      if FoldAccepts(v) then Some(v) else None
  }

  predicate Settles(input: Inputs, area: Area) { Outcome(input, area).Some? }

  type Outcomes = seq<Option<Validation>>

  // What the first `n` outcomes come to.

  function Gathered(outcomes: Outcomes, n: nat): seq<Draft>
    requires n <= |outcomes|
  {
    if n == 0 then []
    else Gathered(outcomes, n - 1) + (if outcomes[n - 1].Some? then outcomes[n - 1].value.flows else [])
  }

  function GatheredNoFlow(outcomes: Outcomes, n: nat): seq<NoFlowClaim>
    requires n <= |outcomes|
  {
    if n == 0 then []
    else GatheredNoFlow(outcomes, n - 1) + (if outcomes[n - 1].Some? then outcomes[n - 1].value.noFlow else [])
  }

  function CarriedFlows(input: Inputs, outcomes: Outcomes, n: nat): seq<Flow>
    requires n <= |outcomes| == |input.areas|
  {
    if n == 0 then []
    else CarriedFlows(input, outcomes, n - 1)
         + (if outcomes[n - 1].Some? then []
            else Placed(input.previous, input.areas, Unit(AreaKey(input.areas[n - 1]))))
  }

  function DocSet(docs: seq<string>): set<string> { set d | d in docs }

  function CarriedDocs(areas: seq<Area>, outcomes: Outcomes, n: nat): set<string>
    requires n <= |outcomes| == |areas|
  {
    if n == 0 then {}
    else CarriedDocs(areas, outcomes, n - 1) + (if outcomes[n - 1].Some? then {} else DocSet(areas[n - 1].docs))
  }

  /** Why each flow was retired, the last reason given winning. */
  function NoteReasons(reasons: map<string, string>, retired: seq<Retirement>): map<string, string> {
    if retired == [] then reasons
    else NoteReasons(reasons, retired[..|retired| - 1])[retired[|retired| - 1].id := retired[|retired| - 1].reason]
  }

  function AreaReasons(outcomes: Outcomes, n: nat): map<string, string>
    requires n <= |outcomes|
  {
    if n == 0 then map[]
    else if outcomes[n - 1].Some? then NoteReasons(AreaReasons(outcomes, n - 1), outcomes[n - 1].value.retired)
    else AreaReasons(outcomes, n - 1)
  }

  ghost predicate DraftsSound(drafts: seq<Draft>) {
    forall i | 0 <= i < |drafts| :: drafts[i].milestones != [] && drafts[i].composedRefs == []
  }

  lemma {:induction false} ComposedDraftsSound(area: Area, flows: seq<SynthFlow>)
    ensures DraftsSound(DraftsOf(area, flows))
  {
    if flows != [] { ComposedDraftsSound(area, flows[..|flows| - 1]); }
  }

  method FoldArea(input: Inputs, byUnit: map<string, seq<Flow>>, area: Area) returns (outcome: Option<Validation>)
    requires forall key :: Listed(byUnit, key) == Placed(input.previous, input.areas, Unit(key))
    ensures outcome == Outcome(input, area)
  {
    hide Validate;
    var key := AreaKey(area);
    if key !in input.results { return None; }
    var v := ValidateAreaSynthesis(area, input.results[key], Listed(byUnit, key), false,
                                   NoFlowOfUnit(input.previousNoFlow, input.areas, input.docOf, key));
    outcome := if v.unknown == [] && v.uncovered == [] then Some(v) else None;
  }

  /** Every area's outcome, in order. */
  method FoldAreas(input: Inputs, byUnit: map<string, seq<Flow>>) returns (outcomes: Outcomes)
    requires forall key :: Listed(byUnit, key) == Placed(input.previous, input.areas, Unit(key))
    ensures |outcomes| == |input.areas|
              && forall i | 0 <= i < |outcomes| :: outcomes[i] == Outcome(input, input.areas[i])
  {
    hide Outcome, Placed;
    outcomes := [];
    for n := 0 to |input.areas|
      invariant |outcomes| == n && forall i | 0 <= i < n :: outcomes[i] == Outcome(input, input.areas[i])
    {
      var outcome := FoldArea(input, byUnit, input.areas[n]);
      outcomes := outcomes + [outcome];
    }
  }

  method SettleAreas(input: Inputs, byUnit: map<string, seq<Flow>>, outcomes: Outcomes)
    returns (drafts: seq<Draft>, noFlow: seq<NoFlowClaim>, carried: seq<Flow>, carriedDocs: set<string>,
             reasons: map<string, string>)
    requires |outcomes| == |input.areas|
    requires forall key :: Listed(byUnit, key) == Placed(input.previous, input.areas, Unit(key))
    ensures drafts == Gathered(outcomes, |outcomes|) && noFlow == GatheredNoFlow(outcomes, |outcomes|)
    ensures carried == CarriedFlows(input, outcomes, |outcomes|)
    ensures carriedDocs == CarriedDocs(input.areas, outcomes, |outcomes|)
    ensures reasons == AreaReasons(outcomes, |outcomes|)
  {
    hide Placed;
    drafts, noFlow, carried, carriedDocs, reasons := [], [], [], {}, map[];
    for n := 0 to |outcomes|
      invariant drafts == Gathered(outcomes, n) && noFlow == GatheredNoFlow(outcomes, n)
      invariant carried == CarriedFlows(input, outcomes, n) && carriedDocs == CarriedDocs(input.areas, outcomes, n)
      invariant reasons == AreaReasons(outcomes, n)
    {
      var outcome := outcomes[n];
      if outcome.Some? {
        drafts, noFlow := drafts + outcome.value.flows, noFlow + outcome.value.noFlow;
        reasons := NoteReasons(reasons, outcome.value.retired);
      } else {
        carried := carried + Listed(byUnit, AreaKey(input.areas[n]));
        carriedDocs := carriedDocs + DocSet(input.areas[n].docs);
      }
    }
  }

  // --- What the area pass keeps ------------------------------------------------------------

  ghost predicate Covers(v: Validation, claims: seq<Claim>) {
    forall claim | claim in claims :: InSomeFlow(v.flows, claim.id) || InNoFlow(v.noFlow, claim.id)
  }

  /** What the rest of the fold relies on: every settled value has real drafts and accounts for its whole inventory. */
  ghost predicate OutcomesSound(areas: seq<Area>, outcomes: Outcomes) {
    && |outcomes| == |areas|
    && forall i | 0 <= i < |outcomes| && outcomes[i].Some? ::
        DraftsSound(outcomes[i].value.flows) && Covers(outcomes[i].value, areas[i].claims)
  }

  lemma FoldedAreSound(input: Inputs, outcomes: Outcomes)
    requires |outcomes| == |input.areas|
               && forall i | 0 <= i < |outcomes| :: outcomes[i] == Outcome(input, input.areas[i])
    ensures OutcomesSound(input.areas, outcomes)
  {
    hide Outcome, DraftsSound, Covers;
    forall i | 0 <= i < |outcomes| && outcomes[i].Some?
      ensures DraftsSound(outcomes[i].value.flows) && Covers(outcomes[i].value, input.areas[i].claims)
    {
      SettledSound(input, input.areas[i]);
      SettledCovers(input, input.areas[i]);
    }
  }

  /** Everything a settled area says is among what was gathered. */
  lemma {:induction false} GatheredHolds(outcomes: Outcomes, n: nat, i: nat)
    requires i < n <= |outcomes| && outcomes[i].Some?
    ensures forall d | d in outcomes[i].value.flows :: d in Gathered(outcomes, n)
    ensures forall d | d in outcomes[i].value.noFlow :: d in GatheredNoFlow(outcomes, n)
  {
    if i < n - 1 { GatheredHolds(outcomes, n - 1, i); }
  }

  lemma {:induction false} GatheredSound(outcomes: Outcomes, n: nat)
    requires n <= |outcomes| && forall i | 0 <= i < n && outcomes[i].Some? :: DraftsSound(outcomes[i].value.flows)
    ensures DraftsSound(Gathered(outcomes, n))
  {
    if n > 0 { GatheredSound(outcomes, n - 1); }
  }

  lemma SettledSound(input: Inputs, area: Area)
    requires Settles(input, area)
    ensures DraftsSound(Outcome(input, area).value.flows)
  {
    hide Validate, FoldAccepts, Placed, NoFlowOfUnit;
    ValidatedSound(area, input.results[AreaKey(area)], Placed(input.previous, input.areas, Unit(AreaKey(area))),
                   NoFlowOfUnit(input.previousNoFlow, input.areas, input.docOf, AreaKey(area)));
  }

  lemma ValidatedSound(area: Area, data: FlowSet, prior: seq<Flow>, priorNoFlow: seq<NoFlowClaim>)
    ensures DraftsSound(Validate(area, data, prior, false, priorNoFlow).flows)
  {
    hide DraftsOf, Continued, ReEmitted, RetiredOut, RetireIssues, ContinueIssues, FlowIssues, NoFlowIssues, NoFlowOut,
         Unmentioned, DecidedClaims, UncoveredClaims, UnaccountedFlows, AssignedClaims, Exists;
    ComposedDraftsSound(area, data.flows);
  }

  /** A settled area's claims are each in a draft or in a no-flow decision. */
  lemma SettledCovers(input: Inputs, area: Area)
    requires Settles(input, area)
    ensures Covers(Outcome(input, area).value, area.claims)
  {
    hide Validate, Placed, NoFlowOfUnit;
    forall claim | claim in area.claims
      ensures InSomeFlow(Outcome(input, area).value.flows, claim.id)
                || InNoFlow(Outcome(input, area).value.noFlow, claim.id)
    {
      AcceptedValueCoversOnce(area, input.results[AreaKey(area)],
                              Placed(input.previous, input.areas, Unit(AreaKey(area))), false,
                              NoFlowOfUnit(input.previousNoFlow, input.areas, input.docOf, AreaKey(area)), claim);
    }
  }

  /** And so they are gathered. */
  lemma GatheredCovers(areas: seq<Area>, outcomes: Outcomes, i: nat, claim: Claim)
    requires OutcomesSound(areas, outcomes) && i < |outcomes| && outcomes[i].Some? && claim in areas[i].claims
    ensures InSomeFlow(Gathered(outcomes, |outcomes|), claim.id)
              || InNoFlow(GatheredNoFlow(outcomes, |outcomes|), claim.id)
  {
    hide Gathered, GatheredNoFlow, DraftsSound;
    var v := outcomes[i].value;
    GatheredHolds(outcomes, |outcomes|, i);
    if InSomeFlow(v.flows, claim.id) { SomeFlowWidens(v.flows, Gathered(outcomes, |outcomes|), claim.id); }
    else { NoFlowWidens(v.noFlow, GatheredNoFlow(outcomes, |outcomes|), claim.id); }
  }

  lemma SomeFlowWidens(a: seq<Draft>, b: seq<Draft>, id: string)
    requires InSomeFlow(a, id) && forall d | d in a :: d in b
    ensures InSomeFlow(b, id)
  {
    var i :| 0 <= i < |a| && Names(a[i].milestones, id);
    assert a[i] in b;
    var k :| 0 <= k < |b| && b[k] == a[i];
  }

  lemma NoFlowWidens(a: seq<NoFlowClaim>, b: seq<NoFlowClaim>, id: string)
    requires InNoFlow(a, id) && forall d | d in a :: d in b
    ensures InNoFlow(b, id)
  {
    var i :| 0 <= i < |a| && Trim(a[i].claimId) == id;
    assert a[i] in b;
    var k :| 0 <= k < |b| && b[k] == a[i];
  }

  /** Two committed flows sent to different places are different flows. */
  lemma PlacesApart(previous: seq<Flow>, areas: seq<Area>, f: Flow, g: Flow)
    requires DistinctIds(previous) && f in previous && g in previous && PlaceOf(f, areas) != PlaceOf(g, areas)
    ensures f.id != g.id
  {
    var i :| 0 <= i < |previous| && previous[i] == f;
    var j :| 0 <= j < |previous| && previous[j] == g;
  }

  lemma ConcatDistinct(a: seq<Flow>, b: seq<Flow>)
    requires DistinctIds(a) && DistinctIds(b)
    requires forall f, g | f in a && g in b :: f.id != g.id
    ensures DistinctIds(a + b)
  {
  }

  ghost predicate UnitAmong(input: Inputs, outcomes: Outcomes, n: nat, place: Place)
    requires n <= |outcomes| == |input.areas|
  {
    exists i :: 0 <= i < n && outcomes[i].None? && place == Unit(AreaKey(input.areas[i]))
  }

  /** The carried flows are exactly the committed flows of the units that did not settle. */
  lemma {:induction false} CarriedAre(input: Inputs, outcomes: Outcomes, n: nat)
    requires n <= |outcomes| == |input.areas|
    ensures forall f :: f in CarriedFlows(input, outcomes, n) <==>
              f in input.previous && UnitAmong(input, outcomes, n, PlaceOf(f, input.areas))
  {
    hide PlaceOf, Placed, AreaKey;
    if n > 0 {
      CarriedAre(input, outcomes, n - 1);
      PlacedAre(input.previous, input.areas, Unit(AreaKey(input.areas[n - 1])));
    }
  }

  /** No flow is carried twice. */
  lemma {:induction false} CarriedDistinct(input: Inputs, outcomes: Outcomes, n: nat)
    requires n <= |outcomes| == |input.areas| && DistinctIds(input.previous) && DistinctKeys(input.areas)
    ensures DistinctIds(CarriedFlows(input, outcomes, n))
  {
    hide PlaceOf, Placed, AreaKey;
    if n > 0 {
      CarriedDistinct(input, outcomes, n - 1);
      CarriedAre(input, outcomes, n - 1);
      var unit := Unit(AreaKey(input.areas[n - 1]));
      var placed, front := Placed(input.previous, input.areas, unit), CarriedFlows(input, outcomes, n - 1);
      PlacedAre(input.previous, input.areas, unit);
      PlacedDistinct(input.previous, input.areas, unit);
      forall f, g | f in front && g in placed
        ensures f.id != g.id
      {
        PlacesApart(input.previous, input.areas, f, g);
      }
      ConcatDistinct(front, placed);
    }
  }
}
