/**
 * What the passes of a synthesis make of what they are given, read off it
 * (packages/guard-generator/src/flows.ts: `partitionPriorFlows`, `buildEpicDrafts`, `synthesizeFlows`).
 */
module FlowReadings {
  import opened Common
  import opened Text
  import opened FlowModel
  import opened FlowValidation
  import opened FlowIdentity
  import opened FlowFold
  import opened FlowEpics
  import opened FlowCorpus

  // --- Where a committed flow and a committed decision go ------------------------------------------

  /** The unit at `k` is the last that holds the document. */
  ghost predicate LastHolding(areas: seq<Area>, k: nat, doc: string) {
    k < |areas| && doc in areas[k].docs && forall j | k < j < |areas| :: doc !in areas[j].docs
  }

  /** The unit at `k` is the last of that key. */
  ghost predicate LastOfKey(areas: seq<Area>, k: nat, key: string) {
    k < |areas| && AreaKey(areas[k]) == key && forall j | k < j < |areas| :: AreaKey(areas[j]) != key
  }

  ghost predicate Holds(areas: seq<Area>, doc: string) { exists k :: 0 <= k < |areas| && doc in areas[k].docs }

  /** A milestone names a claim of the inventory. */
  ghost predicate Walks(claims: seq<Claim>, milestones: seq<Milestone>) {
    exists i :: 0 <= i < |milestones| && !NamesNone(claims, milestones[i].claimId)
  }

  lemma {:induction false} UnitOfDocIs(areas: seq<Area>, doc: string)
    ensures UnitOfDoc(areas, doc).None? <==> !Holds(areas, doc)
    ensures forall k: nat | LastHolding(areas, k, doc) :: UnitOfDoc(areas, doc) == Some(AreaKey(areas[k]))
    ensures Holds(areas, doc) ==> exists k: nat :: LastHolding(areas, k, doc)
  {
    hide AreaKey;
    if areas != [] {
      var n, front := |areas| - 1, areas[..|areas| - 1];
      UnitOfDocIs(front, doc);
      assert forall j | 0 <= j < n :: front[j] == areas[j];
      if doc in areas[n].docs { assert LastHolding(areas, n, doc); }
      else {
        assert forall k: nat :: LastHolding(areas, k, doc) <==> LastHolding(front, k, doc);
        if Holds(areas, doc) {
          var k :| 0 <= k < |areas| && doc in areas[k].docs;
          assert doc in front[k].docs;
        }
      }
    }
  }

  lemma {:induction false} ClaimsOfUnitAre(areas: seq<Area>, key: string)
    ensures forall k: nat | LastOfKey(areas, k, key) :: ClaimsOfUnit(areas, key) == areas[k].claims
    ensures (forall k | 0 <= k < |areas| :: AreaKey(areas[k]) != key) ==> ClaimsOfUnit(areas, key) == []
  {
    hide AreaKey;
    if areas != [] {
      var front, last := areas[..|areas| - 1], areas[|areas| - 1];
      assert areas == front + [last];
      ClaimsOfUnitAre(front, key);
      LastOfKeyGrows(front, last, key);
    }
  }

  lemma LastOfKeyGrows(front: seq<Area>, last: Area, key: string)
    ensures forall k: nat :: LastOfKey(front + [last], k, key) <==>
              if AreaKey(last) == key then k == |front| else LastOfKey(front, k, key)
  {
    hide AreaKey;
    var all := front + [last];
    assert all[|front|] == last && forall j | 0 <= j < |front| :: all[j] == front[j];
  }

  lemma WalksIs(claims: seq<Claim>, milestones: seq<Milestone>)
    ensures SnapsAny(claims, milestones) <==> Walks(claims, milestones)
  {
    hide Snap, NamesNone;
    forall i | 0 <= i < |milestones|
      ensures Snap(claims, milestones[i].claimId).None? <==> NamesNone(claims, milestones[i].claimId)
    {
      SnapOrNone(claims, milestones[i].claimId);
    }
  }

  /**
   * An epic goes to the epic pass; any other flow to the last unit that holds the document of its first milestone,
   * unless no unit does, or it walks no claim of that unit's.
   */
  lemma PlaceExactly(flow: Flow, areas: seq<Area>)
    ensures PlaceOf(flow, areas) == EpicPass <==> flow.composedOf != []
    ensures PlaceOf(flow, areas) == LeftCorpus <==>
              flow.composedOf == [] && (flow.milestones == [] || !Holds(areas, flow.milestones[0].doc))
    ensures flow.composedOf == [] && flow.milestones != [] ==>
              forall k: nat, u: nat | k < |areas| && u < |areas| && LastHolding(areas, k, flow.milestones[0].doc)
                                      && LastOfKey(areas, u, AreaKey(areas[k])) ::
                PlaceOf(flow, areas) ==
                    if Walks(areas[u].claims, flow.milestones) then Unit(AreaKey(areas[k])) else NoLiveClaim
  {
    hide AreaKey, UnitOfDoc, ClaimsOfUnit, SnapsAny, Walks, Holds, LastHolding, LastOfKey;
    if flow.composedOf == [] && flow.milestones != [] {
      var doc := flow.milestones[0].doc;
      UnitOfDocIs(areas, doc);
      forall k: nat, u: nat | k < |areas| && u < |areas| && LastHolding(areas, k, doc)
                              && LastOfKey(areas, u, AreaKey(areas[k]))
        ensures PlaceOf(flow, areas) ==
                if Walks(areas[u].claims, flow.milestones) then Unit(AreaKey(areas[k])) else NoLiveClaim
      {
        LastIsOne(areas, k, doc, u);
        ClaimsOfUnitAre(areas, AreaKey(areas[k]));
        WalksIs(areas[u].claims, flow.milestones);
      }
    }
  }

  lemma LastIsOne(areas: seq<Area>, k: nat, doc: string, u: nat)
    requires LastHolding(areas, k, doc) && LastOfKey(areas, u, AreaKey(areas[k]))
    ensures k < |areas| && u < |areas| && Holds(areas, doc)
  {
  }

  /** The decisions a unit is briefed with: those on claims of its inventory whose document it is the last to hold. */
  lemma {:induction false} NoFlowOfUnitAre(prior: seq<NoFlowClaim>, areas: seq<Area>, docOf: string -> string,
                                           k: nat, u: nat, n: NoFlowClaim)
    requires k < |areas| && LastOfKey(areas, u, AreaKey(areas[k]))
    ensures n in NoFlowOfUnit(prior, areas, docOf, AreaKey(areas[k])) <==>
            && n in prior && !NamesNone(areas[u].claims, n.claimId)
            && exists h: nat :: LastHolding(areas, h, docOf(n.claimId)) && AreaKey(areas[h]) == AreaKey(areas[k])
  {
    hide AreaKey, UnitOfDoc, ClaimsOfUnit, Snap, NamesNone, LastHolding, LastOfKey, Holds;
    if prior != [] {
      var front, last := prior[..|prior| - 1], prior[|prior| - 1];
      NoFlowOfUnitAre(front, areas, docOf, k, u, n);
      assert prior == front + [last];
      UnitOfDocIs(areas, docOf(last.claimId));
      ClaimsOfUnitAre(areas, AreaKey(areas[k]));
      InRange(areas, u, AreaKey(areas[k]));
      SnapOrNone(areas[u].claims, last.claimId);
    }
  }

  lemma InRange(areas: seq<Area>, u: nat, key: string)
    requires LastOfKey(areas, u, key)
    ensures u < |areas|
  {
  }

  /**
   * An area's session value is read leniently, against the committed flows that go to its unit and the committed
   * decisions it is briefed with, and settles the area exactly when the fold accepts it.
   */
  lemma AreaIsFoldedAgainst(input: Inputs, area: Area) returns (prior: seq<Flow>, decisions: seq<NoFlowClaim>)
    ensures forall f :: f in prior <==> f in input.previous && PlaceOf(f, input.areas) == Unit(AreaKey(area))
    ensures decisions == NoFlowOfUnit(input.previousNoFlow, input.areas, input.docOf, AreaKey(area))
    ensures Outcome(input, area).Some? <==>
            && AreaKey(area) in input.results
            && FoldAccepts(Validate(area, input.results[AreaKey(area)], prior, false, decisions))
    ensures Outcome(input, area).Some? ==>
              Outcome(input, area).value == Validate(area, input.results[AreaKey(area)], prior, false, decisions)
  {
    hide PlaceOf, Validate, AreaKey, NoFlowOfUnit;
    prior := Placed(input.previous, input.areas, Unit(AreaKey(area)));
    PlacedAre(input.previous, input.areas, Unit(AreaKey(area)));
    decisions := NoFlowOfUnit(input.previousNoFlow, input.areas, input.docOf, AreaKey(area));
  }

  // --- References of an epic -----------------------------------------------------------------------------

  lemma {:induction false} NoLowerCase(n: nat)
    ensures Upper(Decimal(n)) == Decimal(n) && Decimal(n) != ""
    ensures forall i | 0 <= i < |Decimal(n)| :: '0' <= Decimal(n)[i] <= '9'
  {
    if n >= 10 { NoLowerCase(n / 10); }
  }

  lemma NoSpaceAround(s: string)
    requires s != "" && !IsSpace(s[0]) && !IsSpace(s[|s| - 1])
    ensures Trim(s) == s
  {
  }

  /** A flow is named by its label in either case, and by no other label. */
  lemma LabelNamesInEitherCase(i: nat, j: nat, n: nat)
    requires i < n
    ensures (FlowAt("F" + Decimal(j + 1), n) == Some(i) <==> i == j)
    ensures (FlowAt("f" + Decimal(j + 1), n) == Some(i) <==> i == j)
  {
    NoLowerCase(j + 1);
    var digits := Decimal(j + 1);
    assert ("F" + digits)[|digits|] == digits[|digits| - 1] && ("f" + digits)[|digits|] == digits[|digits| - 1];
    NoSpaceAround("F" + digits);
    NoSpaceAround("f" + digits);
    assert Upper("F" + digits) == "F" + Upper(digits) && Upper("f" + digits) == "F" + Upper(digits);
    FlowAtIsTheLabelled("F" + digits, n, i);
    FlowAtIsTheLabelled("f" + digits, n, i);
    if Label(i) == Label(j) { LabelsDiffer(i, j); }
  }

  /** The reference is the first to name its flow. */
  ghost function NamesFirst(composedOf: seq<string>, n: nat): nat -> bool {
    (i: nat) => i < |composedOf| && FlowAt(composedOf[i], n).Some?
                && forall j | 0 <= j < i :: FlowAt(composedOf[j], n) != FlowAt(composedOf[i], n)
  }

  /** An epic's flows are those it names, each once, in the order first named. */
  lemma {:induction false} RefsAt(composedOf: seq<string>, n: nat, m: nat) returns (at: seq<nat>)
    requires m <= |composedOf|
    ensures |RefsOf(composedOf[..m], n)| == |at| && Picks(at, m, NamesFirst(composedOf, n))
    ensures forall k | 0 <= k < |at| ::
              at[k] < m && FlowAt(composedOf[at[k]], n) == Some(RefsOf(composedOf[..m], n)[k])
  {
    hide Picks, FlowAt;
    at := [];
    if m == 0 {
      NonePicked(NamesFirst(composedOf, n));
    } else {
      at := RefsAt(composedOf, n, m - 1);
      PicksOn(at, m - 1, NamesFirst(composedOf, n));
      var front := composedOf[..m - 1];
      assert composedOf[..m][..m - 1] == front;
      RefsAre(front, n);
      if FlowAt(composedOf[m - 1], n).Some? { NamedBefore(composedOf, n, m - 1); }
      if NamesFirst(composedOf, n)(m - 1) { at := at + [m - 1]; }
    }
  }

  lemma NamedBefore(composedOf: seq<string>, n: nat, m: nat)
    requires m < |composedOf| && FlowAt(composedOf[m], n).Some?
    ensures NamesFlow(composedOf[..m], n, FlowAt(composedOf[m], n).value) <==>
            exists j :: 0 <= j < m && FlowAt(composedOf[j], n) == FlowAt(composedOf[m], n)
  {
    hide FlowAt;
    var front := composedOf[..m];
    if j :| 0 <= j < m && FlowAt(composedOf[j], n) == FlowAt(composedOf[m], n) {
      assert FlowAt(front[j], n) == Some(FlowAt(composedOf[m], n).value);
    }
  }

  // --- Epics -----------------------------------------------------------------------------------------------

  /** The milestone names an inventory claim of the chained flows. */
  ghost function SnapsInside(claims: seq<Claim>, allowed: set<string>, ms: seq<SynthMilestone>): nat -> bool {
    (i: nat) => i < |ms| && !NamesNone(claims, ms[i].claimId) && Trim(ms[i].claimId) in allowed
  }

  lemma WithinIs(claims: seq<Claim>, allowed: set<string>, ref: string)
    ensures Within(claims, allowed, ref) <==> !NamesNone(claims, ref) && Trim(ref) in allowed
  {
    SnapOrNone(claims, ref);
  }

  /** An epic's entries are its milestones on claims of the flows it chains, in the order given. */
  lemma {:induction false} SnappedInsideAt(claims: seq<Claim>, allowed: set<string>, ms: seq<SynthMilestone>, n: nat)
    returns (at: seq<nat>)
    requires n <= |ms|
    ensures |SnapWithin(claims, allowed, ms[..n])| == |at| && Picks(at, n, SnapsInside(claims, allowed, ms))
    ensures forall k | 0 <= k < |at| ::
              var e := SnapWithin(claims, allowed, ms[..n])[k];
              && at[k] < n && e.order == ms[at[k]].order && e.note == ms[at[k]].note
              && e.claim in claims && e.claim.id == Trim(ms[at[k]].claimId)
  {
    hide Trim, Snap, NamesNone, Picks, Within;
    at := [];
    if n == 0 {
      NonePicked(SnapsInside(claims, allowed, ms));
    } else {
      at := SnappedInsideAt(claims, allowed, ms, n - 1);
      PicksOn(at, n - 1, SnapsInside(claims, allowed, ms));
      SnapOrNone(claims, ms[n - 1].claimId);
      WithinIs(claims, allowed, ms[n - 1].claimId);
      WithinSnaps(claims, allowed, ms[n - 1].claimId);
      assert ms[..n][..n - 1] == ms[..n - 1];
      if SnapsInside(claims, allowed, ms)(n - 1) { at := at + [n - 1]; }
    }
  }

  lemma WithinSnaps(claims: seq<Claim>, allowed: set<string>, ref: string)
    ensures Within(claims, allowed, ref) ==> Snap(claims, ref).Some?
  {
  }

  /** The epic chains two flows at least, through two of their claims at least. */
  ghost function Chains(epics: seq<SynthEpic>, flows: seq<Draft>, claims: seq<Claim>): nat -> bool {
    (i: nat) => i < |epics|
                && |EpicDraft(epics[i], flows, claims).composedRefs| >= 2
                && |EpicDraft(epics[i], flows, claims).milestones| >= 2
  }

  /**
   * The epics composed are those that chain flows, in the order given, each with its own text and what it continues.
   */
  lemma {:induction false} EpicsAt(epics: seq<SynthEpic>, flows: seq<Draft>, claims: seq<Claim>, n: nat)
    returns (at: seq<nat>)
    requires n <= |epics|
    ensures |EpicsOf(epics[..n], flows, claims)| == |at| && Picks(at, n, Chains(epics, flows, claims))
    ensures forall k | 0 <= k < |at| :: at[k] < n &&
              var d, epic := EpicsOf(epics[..n], flows, claims)[k], epics[at[k]];
              && d.title == NormalizeText(epic.title) && d.goal == NormalizeText(epic.goal)
              && d.startingState == epic.startingState && d.continues == epic.id
              && d.composedRefs == RefsOf(epic.composedOf, |flows|)
              && d.milestones == Ordered(SnapWithin(claims, Allowed(flows, d.composedRefs), epic.milestones))
  {
    hide NormalizeText, Ordered, SnapWithin, Picks, RefsOf, Allowed;
    at := [];
    if n == 0 {
      NonePicked(Chains(epics, flows, claims));
    } else {
      at := EpicsAt(epics, flows, claims, n - 1);
      PicksOn(at, n - 1, Chains(epics, flows, claims));
      assert epics[..n][..n - 1] == epics[..n - 1];
      if Chains(epics, flows, claims)(n - 1) { at := at + [n - 1]; }
    }
  }

  /**
   * An epic speaks true when every flow it names is one of the drafts, and it either chains at least two and names
   * only claims of theirs, or names at most one flow at all.
   */
  ghost predicate SpeaksTrue(epic: SynthEpic, flows: seq<Draft>, claims: seq<Claim>) {
    var refs := RefsOf(epic.composedOf, |flows|);
    && (forall i | 0 <= i < |epic.composedOf| :: FlowAt(epic.composedOf[i], |flows|).Some?)
    && (if |refs| >= 2
        then forall i | 0 <= i < |epic.milestones| ::
            SnapsInside(claims, Allowed(flows, refs), epic.milestones)(i)
        else |epic.composedOf| < 2)
  }

  lemma {:induction false} RefIssuesAre(composedOf: seq<string>, n: nat)
    ensures RefIssues(composedOf, n) == [] <==> forall i | 0 <= i < |composedOf| :: FlowAt(composedOf[i], n).Some?
  {
    hide FlowAt;
    if composedOf != [] {
      var front, last := composedOf[..|composedOf| - 1], composedOf[|composedOf| - 1];
      RefIssuesAre(front, n);
      assert forall i | 0 <= i < |front| :: front[i] == composedOf[i];
      assert forall i | 0 <= i < |composedOf| :: i < |front| || composedOf[i] == last;
    }
  }

  lemma {:induction false} OutsideAre(claims: seq<Claim>, allowed: set<string>, ms: seq<SynthMilestone>)
    ensures Outside(claims, allowed, ms) == [] <==>
            forall i | 0 <= i < |ms| :: Within(claims, allowed, ms[i].claimId)
  {
    hide Within;
    if ms != [] {
      var front, last := ms[..|ms| - 1], ms[|ms| - 1];
      OutsideAre(claims, allowed, front);
      assert forall i | 0 <= i < |front| :: front[i] == ms[i];
      assert forall i | 0 <= i < |ms| :: i < |front| || ms[i] == last;
    }
  }

  lemma OneEpicIssuesAre(epic: SynthEpic, flows: seq<Draft>, claims: seq<Claim>)
    ensures OneEpicIssues(epic, flows, claims) == [] <==> SpeaksTrue(epic, flows, claims)
  {
    hide RefIssues, Outside, RefsOf, Allowed, FlowAt, Within, NamesNone, Trim;
    var refs := RefsOf(epic.composedOf, |flows|);
    RefIssuesAre(epic.composedOf, |flows|);
    OutsideAre(claims, Allowed(flows, refs), epic.milestones);
    forall i | 0 <= i < |epic.milestones|
      ensures Within(claims, Allowed(flows, refs), epic.milestones[i].claimId) <==>
              SnapsInside(claims, Allowed(flows, refs), epic.milestones)(i)
    {
      WithinIs(claims, Allowed(flows, refs), epic.milestones[i].claimId);
    }
  }

  lemma {:induction false} EpicIssuesAre(epics: seq<SynthEpic>, flows: seq<Draft>, claims: seq<Claim>)
    ensures EpicIssues(epics, flows, claims) == [] <==>
            forall i | 0 <= i < |epics| :: SpeaksTrue(epics[i], flows, claims)
  {
    hide OneEpicIssues, SpeaksTrue;
    if epics != [] {
      var front, last := epics[..|epics| - 1], epics[|epics| - 1];
      EpicIssuesAre(front, flows, claims);
      OneEpicIssuesAre(last, flows, claims);
      assert forall i | 0 <= i < |front| :: front[i] == epics[i];
      assert forall i | 0 <= i < |epics| :: i < |front| || epics[i] == last;
    }
  }

  /**
   * The epic pass runs exactly when two drafts are of different areas, and its session's answer is accepted exactly
   * when every epic speaks true, none continues what another does, and each retirement may stand.
   */
  lemma EpicsAcceptedExactlyWhen(drafts: seq<Draft>, claims: seq<Claim>, prior: seq<Flow>, data: EpicSet)
    ensures SeveralAreas(drafts) <==> exists i, j :: 0 <= i < j < |drafts| && drafts[i].areaId != drafts[j].areaId
    ensures EpicsAccepted(drafts, claims, prior, data) <==>
            && (forall i | 0 <= i < |data.epics| :: SpeaksTrue(data.epics[i], drafts, claims))
            && ContinuedOnce(EpicsOf(data.epics, drafts, claims), prior)
            && RetirementsMayStand(data.retired, Loosen(EpicsOf(data.epics, drafts, claims), prior), prior)
  {
    hide SpeaksTrue, ContinuedOnce, RetirementsMayStand, EpicsOf, EpicIssues, ContinueIssues, RetireIssues, Loosen;
    SeveralAreasAre(drafts);
    EpicIssuesAre(data.epics, drafts, claims);
    ContinueIssuesAre(EpicsOf(data.epics, drafts, claims), prior);
    RetireIssuesAre(data.retired, EpicsOf(data.epics, drafts, claims), prior);
  }

  lemma SeveralAreasAre(drafts: seq<Draft>)
    ensures SeveralAreas(drafts) <==> exists i, j :: 0 <= i < j < |drafts| && drafts[i].areaId != drafts[j].areaId
  {
    var ids := set d | d in drafts :: d.areaId;
    if i, j :| 0 <= i < j < |drafts| && drafts[i].areaId != drafts[j].areaId {
      assert {drafts[i].areaId, drafts[j].areaId} <= ids;
      SubsetSize({drafts[i].areaId, drafts[j].areaId}, ids);
    } else if drafts != [] {
      assert ids == {drafts[0].areaId} by {
        assert drafts[0] in drafts;
        forall d | d in drafts
          ensures d.areaId == drafts[0].areaId
        {
          var k :| 0 <= k < |drafts| && drafts[k] == d;
        }
      }
    }
  }

  // --- What is written ------------------------------------------------------------------------------------

  /** The milestone as committed, its sentences those of the last live claim of its id, if there is one. */
  ghost predicate ReadAgain(before: Milestone, after: Milestone, live: seq<Claim>) {
    && after == before.(sentences := after.sentences)
    && (NamesNone(live, before.claimId) ==> after.sentences == before.sentences)
    && forall k | 0 <= k < |live| && live[k].id == Trim(before.claimId)
                  && forall l | k < l < |live| :: live[l].id != Trim(before.claimId) ::
        after.sentences == live[k].sentences
  }

  lemma RereadIs(m: Milestone, live: seq<Claim>)
    ensures ReadAgain(m, Reread(m, live), live)
  {
    SnapOrNone(live, m.claimId);
    FindClaimIsLast(live, Trim(m.claimId));
  }

  /**
   * A draft that is new or amends a flow is written as it is, and one that remaps a flow is written as the flow was
   * committed, its sentences read again. An epic draft's composition is the ids its flows are written under.
   */
  lemma WrittenFollowsItsDraft(input: Inputs, t: Trace, s: Synthesis, n: nat)
    requires Ran(input, t) && ReportsFlows(input, t, s) && n < |t.out|
    ensures var f, d, v := s.flows[n], AllDrafts(t)[n], t.verdicts[n];
            var prev := Reconcilable(input, t.carried);
            && (v.New? || v.prior < |prev|)
            && (!v.Remap? ==> f.title == d.title && f.goal == d.goal && f.startingState == d.startingState
                              && f.milestones == d.milestones)
            && (!v.New? ==> f.id == prev[v.prior].id)
            && (v.Remap? ==>
                && f.title == prev[v.prior].title && f.goal == prev[v.prior].goal
                && f.startingState == prev[v.prior].startingState && |f.milestones| == |prev[v.prior].milestones|
                && forall i | 0 <= i < |f.milestones| ::
                    ReadAgain(prev[v.prior].milestones[i], f.milestones[i], AllClaims(input.areas)))
            && (if d.composedRefs == [] then f.composedOf == (if v.Remap? then prev[v.prior].composedOf else [])
                else |f.composedOf| == |d.composedRefs| && forall k | 0 <= k < |d.composedRefs| ::
                    d.composedRefs[k] < |t.out| && f.composedOf[k] == s.flows[d.composedRefs[k]].id)
  {
    hide Subsumes, EpicSound, Gathered, CarriedOver, Reconcilable, VerdictsFit, StatementsHonoured, ClaimsOnce,
         Unambiguous, ReadAgain, Reread;
    var prev := Reconcilable(input, t.carried);
    assert Becomes(prev, Ids(input.previous), AllClaims(input.areas), ToFlow(AllDrafts(t)[n]), t.verdicts[n], t.out[n]);
    assert s.flows[n] == Recomposed(t.out, AllDrafts(t), n);
    if t.verdicts[n].Remap? {
      forall i | 0 <= i < |prev[t.verdicts[n].prior].milestones|
        ensures ReadAgain(prev[t.verdicts[n].prior].milestones[i],
                          Reread(prev[t.verdicts[n].prior].milestones[i], AllClaims(input.areas)),
                          AllClaims(input.areas))
      {
        RereadIs(prev[t.verdicts[n].prior].milestones[i], AllClaims(input.areas));
      }
    }
    var refs := AllDrafts(t)[n].composedRefs;
    forall k | 0 <= k < |refs|
      ensures refs[k] < |t.out| && s.flows[refs[k]].id == t.out[refs[k]].id
    {
      assert refs[k] in refs;
      assert s.flows[refs[k]] == Recomposed(t.out, AllDrafts(t), refs[k]);
    }
  }

  // --- Decisions -------------------------------------------------------------------------------------------

  /** The area at `i` did not settle and holds the document. */
  ghost predicate Unsettled(areas: seq<Area>, outcomes: Outcomes, i: nat, doc: string) {
    i < |areas| && i < |outcomes| && outcomes[i].None? && doc in areas[i].docs
  }

  lemma {:induction false} CarriedDocsAre(areas: seq<Area>, outcomes: Outcomes, n: nat, doc: string)
    requires n <= |outcomes| == |areas|
    ensures doc in CarriedDocs(areas, outcomes, n) <==> exists i: nat :: i < n && Unsettled(areas, outcomes, i, doc)
  {
    if n > 0 {
      CarriedDocsAre(areas, outcomes, n - 1, doc);
      assert Unsettled(areas, outcomes, n - 1, doc) <==> outcomes[n - 1].None? && doc in areas[n - 1].docs;
      forall i: nat | i < n && Unsettled(areas, outcomes, i, doc)
        ensures doc in CarriedDocs(areas, outcomes, n)
      {
        assert i < n - 1 || i == n - 1;
      }
    }
  }

  lemma {:induction false} OfDocsAre(decisions: seq<NoFlowClaim>, docOf: string -> string, docs: set<string>,
                                     id: string)
    ensures Emitted(OfDocs(decisions, docOf, docs), id) <==> Emitted(decisions, id) && docOf(id) in docs
  {
    hide Emitted;
    if decisions == [] { NothingEmitted(id); }
    else {
      var front, last := decisions[..|decisions| - 1], decisions[|decisions| - 1];
      OfDocsAre(front, docOf, docs, id);
      FlowValidation.EmittedGrows(front, last, id);
      FlowValidation.EmittedGrows(OfDocs(front, docOf, docs), last, id);
      assert decisions == front + [last];
      assert docOf(last.claimId) !in docs ==> OfDocs(decisions, docOf, docs) == OfDocs(front, docOf, docs);
    }
  }

  /** The area at `i` settled, and its value decides the claim. */
  ghost predicate SettledOn(outcomes: Outcomes, i: nat, id: string) {
    i < |outcomes| && outcomes[i].Some? && Emitted(outcomes[i].value.noFlow, id)
  }

  lemma {:induction false} GatheredNoFlowIs(outcomes: Outcomes, n: nat, id: string)
    requires n <= |outcomes|
    ensures Emitted(GatheredNoFlow(outcomes, n), id) <==>
            exists i: nat :: i < n && SettledOn(outcomes, i, id)
  {
    hide Emitted;
    if n > 0 {
      GatheredNoFlowIs(outcomes, n - 1, id);
      if outcomes[n - 1].Some? {
        EmittedInTwo(GatheredNoFlow(outcomes, n - 1), outcomes[n - 1].value.noFlow, id);
      } else { assert GatheredNoFlow(outcomes, n) == GatheredNoFlow(outcomes, n - 1); }
      forall i: nat | i < n && SettledOn(outcomes, i, id)
        ensures Emitted(GatheredNoFlow(outcomes, n), id)
      {
        assert i < n - 1 || i == n - 1;
      }
      if Emitted(GatheredNoFlow(outcomes, n), id) && !Emitted(GatheredNoFlow(outcomes, n - 1), id) {
        assert SettledOn(outcomes, n - 1, id);
      }
    } else { NothingEmitted(id); }
  }

  lemma NothingEmitted(id: string)
    ensures !Emitted([], id)
  {
  }

  lemma EmittedInTwo(a: seq<NoFlowClaim>, b: seq<NoFlowClaim>, id: string)
    ensures Emitted(a + b, id) <==> Emitted(a, id) || Emitted(b, id)
  {
    var all := a + b;
    assert forall i | 0 <= i < |a| :: all[i] == a[i];
    assert forall i | 0 <= i < |b| :: all[|a| + i] == b[i];
    if Emitted(all, id) {
      var i :| 0 <= i < |all| && all[i].claimId == id;
      if i >= |a| { assert b[i - |a|].claimId == id; } else { assert a[i].claimId == id; }
    }
  }

  /**
   * A claim is decided in the written corpus exactly when a settled area decides it, or it was decided before and its
   * document is in an area that did not settle.
   */
  lemma DecidedExactlyWhen(input: Inputs, t: Trace, s: Synthesis, id: string)
    requires |t.outcomes| == |input.areas| && ReportsNoFlow(input, t, s)
    ensures Emitted(s.noFlow, id) <==>
            || (exists i: nat :: i < |t.outcomes| && SettledOn(t.outcomes, i, id))
            || (Emitted(input.previousNoFlow, id)
                && exists i: nat :: i < |t.outcomes| && Unsettled(input.areas, t.outcomes, i, input.docOf(id)))
  {
    hide Emitted, Unsettled, SettledOn;
    var n := |t.outcomes|;
    var carried := OfDocs(input.previousNoFlow, input.docOf, CarriedDocs(input.areas, t.outcomes, n));
    FirstDecisionsKeep(GatheredNoFlow(t.outcomes, n) + carried, id);
    EmittedInTwo(GatheredNoFlow(t.outcomes, n), carried, id);
    GatheredNoFlowIs(t.outcomes, n, id);
    OfDocsAre(input.previousNoFlow, input.docOf, CarriedDocs(input.areas, t.outcomes, n), id);
    CarriedDocsAre(input.areas, t.outcomes, n, input.docOf(id));
  }

  /** The decision is the first on its claim. */
  ghost function DecidesFirst(decisions: seq<NoFlowClaim>): nat -> bool {
    (i: nat) => i < |decisions| && !Emitted(decisions[..i], decisions[i].claimId)
  }

  /** Of several decisions on a claim the first stands, as it is and in its place. */
  lemma {:induction false} FirstDecisionsAt(decisions: seq<NoFlowClaim>, n: nat) returns (at: seq<nat>)
    requires n <= |decisions|
    ensures |FirstDecisions(decisions[..n])| == |at| && Picks(at, n, DecidesFirst(decisions))
    ensures forall k | 0 <= k < |at| :: at[k] < n && FirstDecisions(decisions[..n])[k] == decisions[at[k]]
  {
    hide Picks, Emitted;
    at := [];
    if n == 0 {
      NonePicked(DecidesFirst(decisions));
    } else {
      at := FirstDecisionsAt(decisions, n - 1);
      PicksOn(at, n - 1, DecidesFirst(decisions));
      assert decisions[..n][..n - 1] == decisions[..n - 1];
      FirstDecisionsKeep(decisions[..n - 1], decisions[n - 1].claimId);
      if DecidesFirst(decisions)(n - 1) { at := at + [n - 1]; }
    }
  }

  // --- Reasons ----------------------------------------------------------------------------------------------

  /** The retirements the first `n` areas gave, in order. */
  ghost function GivenByAreas(outcomes: Outcomes, n: nat): seq<Retirement>
    requires n <= |outcomes|
  {
    if n == 0 then []
    else GivenByAreas(outcomes, n - 1) + (if outcomes[n - 1].Some? then outcomes[n - 1].value.retired else [])
  }

  /** A continuation dropped as a duplicate gives its flow a reason too. */
  ghost function GivenByDuplicates(dropped: seq<Dropped>): seq<Retirement> {
    if dropped == [] then []
    else
      var last := dropped[|dropped| - 1];
      GivenByDuplicates(dropped[..|dropped| - 1])
      + if last.draft.continues.None? then []
        else [Retirement(last.draft.continues.value, "its milestones are identical to \"" + last.supersededBy
                                                     + "\", which continues another flow")]
  }

  /** All of them, the epic pass's last. */
  ghost function AllGiven(t: Trace): seq<Retirement> {
    GivenByAreas(t.outcomes, |t.outcomes|) + GivenByDuplicates(t.dropped)
    + if t.pass.Composed? then t.pass.retired else []
  }

  ghost predicate LastGiven(given: seq<Retirement>, k: nat, id: string) {
    k < |given| && given[k].id == id && forall l | k < l < |given| :: given[l].id != id
  }

  lemma {:induction false} NoteInTwo(reasons: map<string, string>, a: seq<Retirement>, b: seq<Retirement>)
    ensures NoteReasons(reasons, a + b) == NoteReasons(NoteReasons(reasons, a), b)
  {
    if b == [] { assert a + b == a; }
    else {
      assert (a + b)[..|a + b| - 1] == a + b[..|b| - 1];
      NoteInTwo(reasons, a, b[..|b| - 1]);
    }
  }

  lemma {:induction false} AreaReasonsAre(outcomes: Outcomes, n: nat)
    requires n <= |outcomes|
    ensures AreaReasons(outcomes, n) == NoteReasons(map[], GivenByAreas(outcomes, n))
  {
    if n > 0 {
      AreaReasonsAre(outcomes, n - 1);
      if outcomes[n - 1].Some? { NoteInTwo(map[], GivenByAreas(outcomes, n - 1), outcomes[n - 1].value.retired); }
      else { assert GivenByAreas(outcomes, n) == GivenByAreas(outcomes, n - 1); }
    }
  }

  lemma {:induction false} DroppedReasonsAre(reasons: map<string, string>, dropped: seq<Dropped>)
    ensures NoteDropped(reasons, dropped) == NoteReasons(reasons, GivenByDuplicates(dropped))
  {
    if dropped != [] {
      var front, last := dropped[..|dropped| - 1], dropped[|dropped| - 1];
      DroppedReasonsAre(reasons, front);
      if last.draft.continues.Some? {
        var given := GivenByDuplicates(dropped);
        assert given[..|given| - 1] == GivenByDuplicates(front);
      } else { assert GivenByDuplicates(dropped) == GivenByDuplicates(front); }
    }
  }

  lemma {:induction false} LastReasonStands(given: seq<Retirement>, id: string)
    ensures id in NoteReasons(map[], given) <==> RetiredIn(given, id)
    ensures forall k: nat | LastGiven(given, k, id) ::
              id in NoteReasons(map[], given) && NoteReasons(map[], given)[id] == given[k].reason
  {
    if given != [] {
      var n, front := |given| - 1, given[..|given| - 1];
      LastReasonStands(front, id);
      assert given == front + [given[n]];
      RetiredInGrows(front, given[n], id);
      assert forall l | 0 <= l < n :: front[l] == given[l];
      assert given[n].id != id ==> forall k: nat :: LastGiven(given, k, id) <==> LastGiven(front, k, id);
    }
  }

  /**
   * Why a flow is retired: because its documents or its claims are gone; otherwise for the last reason a session or
   * the subsumption gave, and where none did, because nothing continues it.
   */
  lemma RetirementSaysWhy(input: Inputs, t: Trace, s: Synthesis, i: nat)
    requires ReportsReasons(input, t, s) && i < |s.retired|
    ensures var r := s.retired[i]; var place := PlaceOf(r.flow, input.areas);
            || (place == LeftCorpus && r.reason == "its documents are no longer in the corpus")
            || (place == NoLiveClaim && r.reason == "none of its claims is in the live claim inventory")
            || (IsOrphan(Reconcilable(input, t.carried), t.claimed, r.flow)
                && (forall k: nat | LastGiven(AllGiven(t), k, r.flow.id) :: r.reason == AllGiven(t)[k].reason)
                && (!RetiredIn(AllGiven(t), r.flow.id) ==>
                    r.reason == if r.flow.composedOf == [] then "no flow of the re-synthesized area continues it"
                                else if t.pass.Skipped?
                                then "fewer than two areas produced flows, so no epic chains them"
                                else "no epic of the re-composed pass continues it"))
  {
    hide PlaceOf, Reconcilable, AllReasons, RetiredAtOnce, Orphans, AllGiven;
    var once := RetiredAtOnce(input.previous, input.areas);
    if i < |once| {
      AtOnceSaysWhy(input.previous, input.areas, once[i]);
    } else {
      var reasons := AllReasons(t.outcomes, t.dropped, t.pass);
      var prev := Reconcilable(input, t.carried);
      OrphansSayWhy(prev, t.claimed, reasons, t.pass.Skipped?, s.retired[i]);
      ReasonsAreGiven(t);
      LastReasonStands(AllGiven(t), s.retired[i].flow.id);
    }
  }

  lemma ReasonsAreGiven(t: Trace)
    ensures AllReasons(t.outcomes, t.dropped, t.pass) == NoteReasons(map[], AllGiven(t))
  {
    hide NoteReasons, NoteDropped, AreaReasons, GivenByAreas, GivenByDuplicates;
    var areas, dropped := GivenByAreas(t.outcomes, |t.outcomes|), GivenByDuplicates(t.dropped);
    AreaReasonsAre(t.outcomes, |t.outcomes|);
    DroppedReasonsAre(AreaReasons(t.outcomes, |t.outcomes|), t.dropped);
    NoteInTwo(map[], areas, dropped);
    if t.pass.Composed? { NoteInTwo(map[], areas + dropped, t.pass.retired); }
    else { assert areas + dropped + [] == areas + dropped; }
  }

  lemma {:induction false} AtOnceSaysWhy(previous: seq<Flow>, areas: seq<Area>, r: RetiredRecord)
    requires r in RetiredAtOnce(previous, areas)
    ensures var place := PlaceOf(r.flow, areas);
            || (place == LeftCorpus && r.reason == "its documents are no longer in the corpus")
            || (place == NoLiveClaim && r.reason == "none of its claims is in the live claim inventory")
  {
    hide PlaceOf;
    if r in RetiredAtOnce(previous[..|previous| - 1], areas) { AtOnceSaysWhy(previous[..|previous| - 1], areas, r); }
  }

  lemma {:induction false} OrphansSayWhy(prev: seq<Flow>, claimed: set<nat>, reasons: map<string, string>,
                                         skipped: bool, r: RetiredRecord)
    requires r in Orphans(prev, claimed, reasons, skipped)
    ensures IsOrphan(prev, claimed, r.flow)
    ensures r.reason == if r.flow.id in reasons then reasons[r.flow.id]
                        else if r.flow.composedOf == [] then "no flow of the re-synthesized area continues it"
                        else if skipped then "fewer than two areas produced flows, so no epic chains them"
                        else "no epic of the re-composed pass continues it"
  {
    var front, last := prev[..|prev| - 1], prev[|prev| - 1];
    if r in Orphans(front, claimed, reasons, skipped) {
      OrphansSayWhy(front, claimed, reasons, skipped, r);
      var p :| 0 <= p < |front| && p !in claimed && front[p] == r.flow;
      assert prev[p] == r.flow;
    } else { assert prev[|front|] == r.flow; }
  }
}
