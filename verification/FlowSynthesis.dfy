/**
 * A whole synthesis (packages/guard-generator/src/flows.ts, `synthesizeFlows`): the area pass, the epic pass,
 * identity and the written corpus, in one method. The sessions are arbitrary.
 */
module FlowSynthesis {
  import opened Common
  import opened Text
  import opened FlowModel
  import opened FlowValidation
  import opened FlowIdentity
  import opened FlowFold
  import opened FlowEpics
  import opened FlowCorpus
  import opened FlowComposition

  /** Everything up to the epic pass. */
  method RunAreaPass(input: Inputs)
    returns (outcomes: Outcomes, drafts: seq<Draft>, dropped: seq<Dropped>, noFlow: seq<NoFlowClaim>,
             carried: seq<Flow>,
             epics: seq<Flow>, atOnce: seq<RetiredRecord>, reasons: map<string, string>)
    ensures |outcomes| == |input.areas|
              && forall i | 0 <= i < |outcomes| :: outcomes[i] == Outcome(input, input.areas[i])
    ensures OutcomesSound(input.areas, outcomes) && Subsumes(Gathered(outcomes, |outcomes|), drafts, dropped)
    ensures KeepsChosen(Gathered(outcomes, |outcomes|), drafts, dropped)
    ensures noFlow == GatheredNoFlow(outcomes, |outcomes|)
              + OfDocs(input.previousNoFlow, input.docOf, CarriedDocs(input.areas, outcomes, |outcomes|))
    ensures carried == CarriedFlows(input, outcomes, |outcomes|)
    ensures epics == Placed(input.previous, input.areas, EpicPass)
    ensures atOnce == RetiredAtOnce(input.previous, input.areas)
    ensures reasons == NoteDropped(AreaReasons(outcomes, |outcomes|), dropped)
  {
    hide KeepsChosen, Outcome, OutcomesSound, Subsumes, Gathered, GatheredNoFlow, CarriedFlows, CarriedDocs, Placed,
         PlaceOf,
         RetiredAtOnce, AreaReasons, NoteDropped, OfDocs;
    var byUnit;
    byUnit, epics, atOnce := PartitionPriorFlows(input.previous, input.areas);
    outcomes := FoldAreas(input, byUnit);
    FoldedAreSound(input, outcomes);
    var gathered, carriedDocs;
    gathered, noFlow, carried, carriedDocs, reasons := SettleAreas(input, byUnit, outcomes);
    noFlow := noFlow + OfDocs(input.previousNoFlow, input.docOf, carriedDocs);
    drafts, dropped := ApplySubsumption(gathered);
    reasons := NoteDropped(reasons, dropped);
  }

  /** What the epic pass comes to: skipped for want of two areas, else what its session's answer was worth. */
  ghost predicate EpicPassed(input: Inputs, session: seq<Draft> -> Option<EpicSet>, drafts: seq<Draft>,
                             pass: EpicResult) {
    && (pass.Skipped? <==> !SeveralAreas(drafts))
    && (pass.Composed? <==>
          SeveralAreas(drafts) && session(drafts).Some?
          && EpicsAccepted(drafts, AllClaims(input.areas), Placed(input.previous, input.areas, EpicPass),
                           session(drafts).value))
    && (pass.Composed? ==>
          ComposedFrom(drafts, AllClaims(input.areas), Placed(input.previous, input.areas, EpicPass),
                       session(drafts).value, pass))
    && forall d | d in EpicsIn(pass) :: EpicSound(drafts, AllClaims(input.areas), d)
  }

  /** The area pass, then the epic pass over its drafts. */
  method RunPasses(input: Inputs, session: seq<Draft> -> Option<EpicSet>)
    returns (outcomes: Outcomes, drafts: seq<Draft>, dropped: seq<Dropped>, noFlow: seq<NoFlowClaim>,
             carried: seq<Flow>,
             pass: EpicResult, atOnce: seq<RetiredRecord>, reasons: map<string, string>)
    ensures |outcomes| == |input.areas|
              && forall i | 0 <= i < |outcomes| :: outcomes[i] == Outcome(input, input.areas[i])
    ensures OutcomesSound(input.areas, outcomes) && Subsumes(Gathered(outcomes, |outcomes|), drafts, dropped)
    ensures KeepsChosen(Gathered(outcomes, |outcomes|), drafts, dropped)
    ensures EpicPassed(input, session, drafts, pass)
    ensures noFlow == GatheredNoFlow(outcomes, |outcomes|)
              + OfDocs(input.previousNoFlow, input.docOf, CarriedDocs(input.areas, outcomes, |outcomes|))
    ensures carried == CarriedOver(input, outcomes, pass) && atOnce == RetiredAtOnce(input.previous, input.areas)
    ensures reasons == AllReasons(outcomes, dropped, pass)
  {
    hide KeepsChosen, Outcome, OutcomesSound, Subsumes, Gathered, GatheredNoFlow, CarriedFlows, CarriedDocs, OfDocs,
         Placed,
         RetiredAtOnce, AreaReasons,
         NoteDropped, SeveralAreas, EpicsAccepted, EpicSound, ComposedFrom, NoteReasons;
    var epics;
    outcomes, drafts, dropped, noFlow, carried, epics, atOnce, reasons := RunAreaPass(input);
    pass := RunEpicPass(drafts, AllClaims(input.areas), epics, session);
    if pass.Refused? { carried := carried + epics; }
    if pass.Composed? { reasons := NoteReasons(reasons, pass.retired); }
  }

  /** The passes as they went: what each area and the epic session came to, and how the new flows were named. */
  ghost predicate Passed(input: Inputs, session: seq<Draft> -> Option<EpicSet>, slug: string -> string, t: Trace) {
    && |t.outcomes| == |input.areas|
        && (forall i | 0 <= i < |t.outcomes| :: t.outcomes[i] == Outcome(input, input.areas[i]))
    && KeepsChosen(Gathered(t.outcomes, |t.outcomes|), t.drafts, t.dropped)
    && EpicPassed(input, session, t.drafts, t.pass)
    && NamedFrom(input, slug, t)
  }

  method SynthesizeFlows(input: Inputs, session: seq<Draft> -> Option<EpicSet>, slug: string -> string)
      returns (s: Synthesis, ghost t: Trace)
    requires ValidCorpus(input.previous)
    ensures Passed(input, session, slug, t) && Ran(input, t) && ReportsFlows(input, t, s) && ReportsRetired(input, t, s)
    ensures ReportsNoFlow(input, t, s) && ReportsReasons(input, t, s)
    ensures DistinctKeys(input.areas) ==> ValidCorpus(s.flows)
    ensures forall f | f in input.previous :: GoesOneWay(s, f)
    ensures forall m | 0 <= m < |s.flows| :: WrittenAsReported(input, s, s.flows[m])
    ensures forall id | id in s.added :: id !in Ids(input.previous)
    ensures forall i | 0 <= i < |input.areas| && Settles(input, input.areas[i]) ::
              forall claim | claim in input.areas[i].claims ::
                  CoveredBy(s.flows, claim.id) || InNoFlow(s.noFlow, claim.id)
    ensures forall m | 0 <= m < |s.flows| ::
              (forall id | id in s.flows[m].composedOf :: NamesWritten(s.flows, id))
                  || CompositionAsCommitted(input, s, s.flows[m])
  {
    hide KeepsChosen, Subsumes, EpicSound, Identified, Gathered, GatheredNoFlow, CarriedOver, CarriedDocs,
         RetiredAtOnce,
         RetiredFlows, PlaceOf,
         Without, Outcome, OutcomesSound, GoesOneWay, WrittenAsReported, CompositionAsCommitted, NamesWritten,
             CoveredBy, InNoFlow, IdsWhere,
         IdList, ValidCorpus, DistinctKeys, ReportsRetired, NamedInOrder, AllReasons, Orphans, ComposedFrom;
    var outcomes, drafts, dropped, noFlow, carried, pass, atOnce, reasons := RunPasses(input, session);
    var live := AllClaims(input.areas);
    assert forall d | d in EpicsIn(pass) :: EpicSound(drafts, live, d);
    hide EpicPassed;
    var all := drafts + EpicsIn(pass);
    var prev := Without(input.previous, Ids(carried) + Ids(RetiredFlows(atOnce)));
    assert prev == Reconcilable(input, carried);
    CanReconcile(input, outcomes, pass, carried);
    var out, verdicts, claimed, kept, amended, added := Identify(prev, Ids(input.previous), live, all, slug);
    t := Trace(outcomes, drafts, dropped, pass, carried, verdicts, claimed, out);
    assert Ran(input, t);
    DraftsStand(input, t);
    Counts(input, t);
    var next := Recompose(out, all);
    var decisions := DedupeNoFlowClaims(noFlow);
    var retired := atOnce + Orphans(prev, claimed, reasons, pass.Skipped?);
    s := Synthesis(next + carried, decisions, kept, amended, added, IdList(carried), retired);
    assert ReportsFlows(input, t, s);
    assert ReportsNoFlow(input, t, s) && ReportsReasons(input, t, s);
    RetiredAdd(input, t, s, reasons);
    AllHold(input, t, s);
  }

  lemma CanReconcile(input: Inputs, outcomes: Outcomes, pass: EpicResult, carried: seq<Flow>)
    requires |outcomes| == |input.areas| && ValidCorpus(input.previous) && carried == CarriedOver(input, outcomes, pass)
    ensures DistinctIds(Reconcilable(input, carried))
    ensures forall f | f in Reconcilable(input, carried) :: f.id in Ids(input.previous)
  {
    hide Reconcilable, CarriedOver;
    CarriedOverAre(input, outcomes, pass);
    ReconcilableAre(input, carried);
  }

  lemma Counts(input: Inputs, t: Trace)
    requires Ran(input, t)
    ensures |t.out| == |AllDrafts(t)| == |t.verdicts|
  {
    hide Subsumes, EpicSound, Gathered, CarriedOver, Reconcilable, ClaimsOnce, VerdictsFit, StatementsHonoured,
         Unambiguous, Becomes;
  }

  lemma RetiredAdd(input: Inputs, t: Trace, s: Synthesis, reasons: map<string, string>)
    requires s.retired == RetiredAtOnce(input.previous, input.areas)
                          + Orphans(Reconcilable(input, t.carried), t.claimed, reasons, t.pass.Skipped?)
    ensures ReportsRetired(input, t, s)
  {
    hide RetiredAtOnce, Orphans, Reconcilable, IsOrphan;
    OrphansAre(Reconcilable(input, t.carried), t.claimed, reasons, t.pass.Skipped?);
    var once, late := RetiredAtOnce(input.previous, input.areas),
        Orphans(Reconcilable(input, t.carried), t.claimed, reasons, t.pass.Skipped?);
    assert RetiredFlows(s.retired) == RetiredFlows(once) + RetiredFlows(late);
  }

  lemma AllHold(input: Inputs, t: Trace, s: Synthesis)
    requires ValidCorpus(input.previous)
    requires |t.outcomes| == |input.areas| && Ran(input, t) && ReportsFlows(input, t, s) && ReportsRetired(input, t, s)
    requires ReportsNoFlow(input, t, s)
    ensures DistinctKeys(input.areas) ==> ValidCorpus(s.flows)
    ensures forall f | f in input.previous :: GoesOneWay(s, f)
    ensures forall m | 0 <= m < |s.flows| :: WrittenAsReported(input, s, s.flows[m])
    ensures forall id | id in s.added :: id !in Ids(input.previous)
    ensures forall i | 0 <= i < |input.areas| && t.outcomes[i].Some? ::
              forall claim | claim in input.areas[i].claims ::
                  CoveredBy(s.flows, claim.id) || InNoFlow(s.noFlow, claim.id)
    ensures forall m | 0 <= m < |s.flows| ::
              (forall id | id in s.flows[m].composedOf :: NamesWritten(s.flows, id))
                  || CompositionAsCommitted(input, s, s.flows[m])
  {
    hide *;
    if DistinctKeys(input.areas) { WrittenIsValid(input, t, s); }
    CorpusDistinct(input.previous);
    forall f | f in input.previous ensures GoesOneWay(s, f) { EveryFlowGoesOneWay(input, t, s, f); }
    forall m | 0 <= m < |s.flows| ensures WrittenAsReported(input, s, s.flows[m]) {
      EveryFlowIsReported(input, t, s, m);
    }
    forall id | id in s.added ensures id !in Ids(input.previous) { AddedIsNew(input, t, s, id); }
    forall i, claim | 0 <= i < |input.areas| && t.outcomes[i].Some? && claim in input.areas[i].claims
      ensures CoveredBy(s.flows, claim.id) || InNoFlow(s.noFlow, claim.id)
    {
      CoverageSurvives(input, t, s, i, claim);
    }
    forall m | 0 <= m < |s.flows|
      ensures (forall id | id in s.flows[m].composedOf :: NamesWritten(s.flows, id))
                || CompositionAsCommitted(input, s, s.flows[m])
    {
      CompositionIsWritten(input, t, s, m);
    }
  }
}
