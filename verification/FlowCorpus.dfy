/**
 * What one synthesis writes (packages/guard-generator/src/flows.ts, `synthesizeFlows`): the epic pass, identity
 * against the committed corpus, the orphans, the no-flow decisions, and the corpus that is written.
 *
 * Proved of every trace of a run: all written ids are distinct, and none that is added is an id of the corpus the run
 * started from; each flow of that corpus ends kept, amended, carried or retired, and only one of them; each claim of a
 * settled area ends in a written flow or a no-flow decision.
 */
module FlowCorpus {
  import opened Common
  import opened Text
  import opened FlowModel
  import opened FlowValidation
  import opened FlowIdentity
  import opened FlowFold
  import opened FlowEpics

  // --- The epic pass ------------------------------------------------------------------

  predicate SeveralAreas(drafts: seq<Draft>) { |set d | d in drafts :: d.areaId| > 1 }

  function AllClaims(areas: seq<Area>): seq<Claim> {
    if areas == [] then [] else AllClaims(areas[..|areas| - 1]) + areas[|areas| - 1].claims
  }

  predicate EpicsAccepted(drafts: seq<Draft>, claims: seq<Claim>, prior: seq<Flow>, data: EpicSet) {
    var built := EpicsOf(data.epics, drafts, claims);
    && EpicIssues(data.epics, drafts, claims) == [] && ContinueIssues(built, prior, false) == []
    && RetireIssues(data.retired, prior, Continued(built, prior), ReEmitted(Loosen(built, prior)), false) == []
  }

  /** What the pass comes to: skipped for want of two areas, refused, or a set of epics. */
  datatype EpicResult = Skipped | Refused | Composed(epics: seq<Draft>, dropped: seq<Dropped>, retired: seq<Retirement>)

  /** The epics are those the answer composes, duplicates subsumed; its retirements stand where they may. */
  ghost predicate ComposedFrom(drafts: seq<Draft>, claims: seq<Claim>, prior: seq<Flow>, data: EpicSet,
                               pass: EpicResult)
    requires pass.Composed?
  {
    var built := EpicsOf(data.epics, drafts, claims);
    && Subsumes(Loosen(built, prior), pass.epics, pass.dropped)
    && KeepsChosen(Loosen(built, prior), pass.epics, pass.dropped)
    && pass.retired == RetiredOut(data.retired, prior, Continued(built, prior), ReEmitted(Loosen(built, prior)), false)
  }

  method RunEpicPass(drafts: seq<Draft>, claims: seq<Claim>, prior: seq<Flow>, session: seq<Draft> -> Option<EpicSet>)
      returns (pass: EpicResult)
    ensures pass.Skipped? <==> !SeveralAreas(drafts)
    ensures pass.Composed? <==>
              SeveralAreas(drafts) && session(drafts).Some?
                  && EpicsAccepted(drafts, claims, prior, session(drafts).value)
    ensures pass.Composed? ==>
              && ComposedFrom(drafts, claims, prior, session(drafts).value, pass)
              && forall d | d in pass.epics :: EpicSound(drafts, claims, d)
  {
    hide EpicsOf, EpicIssues, ContinueIssues, RetireIssues, Continued, ReEmitted, Loosen, Subsumes, EpicSound,
         RetiredOut;
    if !SeveralAreas(drafts) { return Skipped; }
    var answer := session(drafts);
    if answer.None? { return EpicResult.Refused; }
    var built, retired, unknown := BuildEpicDrafts(answer.value, drafts, claims, prior);
    if unknown != [] { return EpicResult.Refused; }
    var epics, dropped := ApplySubsumption(built);
    KeptAreDrafts(built, epics, dropped);
    pass := Composed(epics, dropped, retired);
  }

  function EpicsIn(pass: EpicResult): seq<Draft> { if pass.Composed? then pass.epics else [] }

  // --- Identity -------------------------------------------------------------------------

  function ToFlow(d: Draft): Flow { Flow("", d.title, d.goal, d.startingState, d.milestones, []) }

  function ToFlows(drafts: seq<Draft>): seq<Flow> {
    seq(|drafts|, i requires 0 <= i < |drafts| => ToFlow(drafts[i]))
  }

  function ContinuesOf(drafts: seq<Draft>): seq<Option<string>> {
    seq(|drafts|, i requires 0 <= i < |drafts| => drafts[i].continues)
  }

  function Ids(flows: seq<Flow>): set<string> { set f | f in flows :: f.id }

  /** The committed flows none of the given ids names, in order. */
  function Without(previous: seq<Flow>, gone: set<string>): seq<Flow> {
    if previous == [] then []
    else
      Without(previous[..|previous| - 1], gone)
      + (if previous[|previous| - 1].id in gone then [] else [previous[|previous| - 1]])
  }

  lemma {:induction false} WithoutIs(previous: seq<Flow>, gone: set<string>)
    ensures forall f :: f in Without(previous, gone) <==> f in previous && f.id !in gone
  {
    if previous != [] {
      WithoutIs(previous[..|previous| - 1], gone);
      assert previous == previous[..|previous| - 1] + [previous[|previous| - 1]];
    }
  }

  lemma {:induction false} WithoutDistinct(previous: seq<Flow>, gone: set<string>)
    requires DistinctIds(previous)
    ensures DistinctIds(Without(previous, gone))
  {
    if previous != [] {
      var front, last := previous[..|previous| - 1], previous[|previous| - 1];
      WithoutDistinct(front, gone);
      WithoutIs(front, gone);
      var kept := Without(front, gone);
      forall i | 0 <= i < |kept|
        ensures kept[i].id != last.id
      {
        assert kept[i] in front;
      }
    }
  }

  /** Each draft under its verdict, all ids distinct, none of a new flow in use before. */
  ghost predicate Identified(prev: seq<Flow>, used: set<string>, live: seq<Claim>, drafts: seq<Draft>,
                             verdicts: seq<Verdict>, claimed: set<nat>, out: seq<Flow>)
  {
    && Resolves(prev, ToFlows(drafts), ContinuesOf(drafts), verdicts, claimed)
    && |out| == |drafts| && DistinctIds(out)
    && forall n | 0 <= n < |out| :: Becomes(prev, used, live, ToFlow(drafts[n]), verdicts[n], out[n])
  }

  method Identify(prev: seq<Flow>, used: set<string>, live: seq<Claim>, drafts: seq<Draft>, slug: string -> string)
    returns (out: seq<Flow>, verdicts: seq<Verdict>, claimed: set<nat>, kept: seq<string>, amended: seq<string>,
             added: seq<string>)
    requires DistinctIds(prev) && forall f | f in prev :: f.id in used
    ensures Identified(prev, used, live, drafts, verdicts, claimed, out)
    ensures |out| == |verdicts| == |drafts| && NamedInOrder(used, slug, ToFlows(drafts), verdicts, out, |out|)
    ensures kept == IdsWhere(out, verdicts, Remap(0)) && amended == IdsWhere(out, verdicts, Amended(0))
    ensures added == IdsWhere(out, verdicts, New)
  {
    hide VerdictsFit, StatementsHonoured, ClaimsOnce, Unambiguous, Becomes, NamedInOrder;
    var next := ToFlows(drafts);
    verdicts, claimed := ResolveIdentity(prev, next, ContinuesOf(drafts));
    out, kept, amended, added := AssignIds(prev, used, next, verdicts, claimed, live, slug);
  }

  /** The digest references become the composed flows' final ids. */
  function Recomposed(out: seq<Flow>, drafts: seq<Draft>, n: nat): Flow
    requires n < |out| == |drafts|
    requires forall r | r in drafts[n].composedRefs :: r < |out|
  {
    var refs := drafts[n].composedRefs;
    if refs == [] then out[n]
    else out[n].(composedOf := seq(|refs|, k requires 0 <= k < |refs| => assert refs[k] in refs; out[refs[k]].id))
  }

  ghost predicate RefsInside(drafts: seq<Draft>) {
    forall n | 0 <= n < |drafts| :: forall r | r in drafts[n].composedRefs :: r < |drafts|
  }

  method Recompose(out: seq<Flow>, drafts: seq<Draft>) returns (next: seq<Flow>)
    requires |out| == |drafts| && RefsInside(drafts)
    ensures |next| == |out| && forall n | 0 <= n < |out| :: next[n] == Recomposed(out, drafts, n)
  {
    next := out;
    for n := 0 to |out|
      invariant |next| == |out|
      invariant forall m | n <= m < |out| :: next[m] == out[m]
      invariant forall m | 0 <= m < n :: next[m] == Recomposed(out, drafts, m)
    {
      var refs := drafts[n].composedRefs;
      if refs != [] {
        assert forall m | 0 <= m < |out| :: next[m].id == out[m].id;
        assert forall k | 0 <= k < |refs| :: refs[k] in refs;
        var ids := seq(|refs|, k requires 0 <= k < |refs| => next[refs[k]].id);
        assert ids == Recomposed(out, drafts, n).composedOf;
        next := next[n := next[n].(composedOf := ids)];
      }
    }
  }

  /** The flows no verdict names, each retired with the model's reason, else the engine's. */
  function Orphans(prev: seq<Flow>, claimed: set<nat>, reasons: map<string, string>,
                   skipped: bool): seq<RetiredRecord> {
    if prev == [] then []
    else
      var last := prev[|prev| - 1];
      Orphans(prev[..|prev| - 1], claimed, reasons, skipped)
      + (if |prev| - 1 in claimed then []
         else [RetiredRecord(last, if last.id in reasons then reasons[last.id] else EngineReason(last, skipped))])
  }

  function EngineReason(flow: Flow, skipped: bool): string {
    if flow.composedOf == [] then "no flow of the re-synthesized area continues it"
    else if skipped then "fewer than two areas produced flows, so no epic chains them"
    else "no epic of the re-composed pass continues it"
  }

  lemma {:induction false} OrphansAre(prev: seq<Flow>, claimed: set<nat>, reasons: map<string, string>, skipped: bool)
    ensures forall f :: f in RetiredFlows(Orphans(prev, claimed, reasons, skipped)) <==> IsOrphan(prev, claimed, f)
  {
    hide EngineReason;
    if prev != [] {
      var front, last := prev[..|prev| - 1], prev[|prev| - 1];
      OrphansAre(front, claimed, reasons, skipped);
      var before, after := Orphans(front, claimed, reasons, skipped), Orphans(prev, claimed, reasons, skipped);
      assert RetiredFlows(after) == if |front| in claimed then RetiredFlows(before) else RetiredFlows(before) + [last];
      forall f
        ensures IsOrphan(prev, claimed, f) <==> IsOrphan(front, claimed, f) || (|front| !in claimed && f == last)
      {
        if IsOrphan(front, claimed, f) {
          var p :| 0 <= p < |front| && p !in claimed && front[p] == f;
          assert prev[p] == f;
        }
        if |front| !in claimed && f == last { assert prev[|front|] == f; }
        if IsOrphan(prev, claimed, f) {
          var p :| 0 <= p < |prev| && p !in claimed && prev[p] == f;
          assert p < |front| ==> front[p] == f;
        }
      }
    }
  }

  ghost predicate IsOrphan(prev: seq<Flow>, claimed: set<nat>, f: Flow) {
    exists p :: 0 <= p < |prev| && p !in claimed && prev[p] == f
  }

  // --- No-flow decisions ----------------------------------------------------------------------

  function OfDocs(decisions: seq<NoFlowClaim>, docOf: string -> string, docs: set<string>): seq<NoFlowClaim> {
    if decisions == [] then []
    else
      var last := decisions[|decisions| - 1];
      OfDocs(decisions[..|decisions| - 1], docOf, docs) + (if docOf(last.claimId) in docs then [last] else [])
  }

  /** One entry a claim: the first reason wins. */
  function FirstDecisions(decisions: seq<NoFlowClaim>): seq<NoFlowClaim> {
    if decisions == [] then []
    else
      var front, last := FirstDecisions(decisions[..|decisions| - 1]), decisions[|decisions| - 1];
      if Emitted(front, last.claimId) then front else front + [last]
  }

  method DedupeNoFlowClaims(decisions: seq<NoFlowClaim>) returns (out: seq<NoFlowClaim>)
    ensures out == FirstDecisions(decisions)
  {
    out := [];
    var seen: set<string> := {};
    for i := 0 to |decisions|
      invariant out == FirstDecisions(decisions[..i])
      invariant forall id :: id in seen <==> Emitted(out, id)
    {
      assert decisions[..i + 1][..i] == decisions[..i];
      if decisions[i].claimId in seen { continue; }
      EmittedGrows(out, decisions[i]);
      seen := seen + {decisions[i].claimId};
      out := out + [decisions[i]];
    }
    assert decisions[..|decisions|] == decisions;
  }

  lemma EmittedGrows(out: seq<NoFlowClaim>, d: NoFlowClaim)
    ensures forall id :: Emitted(out + [d], id) <==> Emitted(out, id) || id == d.claimId
  {
    var all := out + [d];
    assert all[|out|] == d;
    assert forall i | 0 <= i < |out| :: all[i] == out[i];
  }

  /** No decided claim is lost to the deduplication, and none is decided twice. */
  lemma {:induction false} FirstDecisionsKeep(decisions: seq<NoFlowClaim>, id: string)
    ensures Emitted(FirstDecisions(decisions), id) <==> Emitted(decisions, id)
    ensures forall i, j | 0 <= i < j < |FirstDecisions(decisions)| ::
              FirstDecisions(decisions)[i].claimId != FirstDecisions(decisions)[j].claimId
  {
    if decisions != [] {
      var front, last := decisions[..|decisions| - 1], decisions[|decisions| - 1];
      FirstDecisionsKeep(front, id);
      FirstDecisionsKeep(front, last.claimId);
      EmittedGrows(FirstDecisions(front), last);
      EmittedGrows(front, last);
      assert decisions == front + [last];
    }
  }

  // --- The whole run ----------------------------------------------------------------------------

  datatype Synthesis = Synthesis(
    flows: seq<Flow>,
    noFlow: seq<NoFlowClaim>,
    kept: seq<string>,
    amended: seq<string>,
    added: seq<string>,
    carried: seq<string>,
    retired: seq<RetiredRecord>)

  /** What the passes of one synthesis come to on the way. */
  datatype Trace = Trace(
    outcomes: Outcomes, drafts: seq<Draft>, dropped: seq<Dropped>, pass: EpicResult, carried: seq<Flow>,
    verdicts: seq<Verdict>, claimed: set<nat>, out: seq<Flow>)

  function AllDrafts(t: Trace): seq<Draft> { t.drafts + EpicsIn(t.pass) }

  function AtOnce(input: Inputs): seq<Flow> { RetiredFlows(RetiredAtOnce(input.previous, input.areas)) }

  /** The flows the sessions were asked to reconcile. */
  function Reconcilable(input: Inputs, carried: seq<Flow>): seq<Flow> {
    Without(input.previous, Ids(carried) + Ids(AtOnce(input)))
  }

  function CarriedOver(input: Inputs, outcomes: Outcomes, pass: EpicResult): seq<Flow>
    requires |outcomes| == |input.areas|
  {
    CarriedFlows(input, outcomes, |outcomes|)
    + (if pass.Refused? then Placed(input.previous, input.areas, EpicPass) else [])
  }

  /** The schema gives every flow a milestone; the fold gives every flow its own id. */
  ghost predicate ValidCorpus(flows: seq<Flow>) {
    DistinctIds(flows) && forall f | f in flows :: f.milestones != []
  }

  ghost predicate Ran(input: Inputs, t: Trace) {
    && OutcomesSound(input.areas, t.outcomes)
    && Subsumes(Gathered(t.outcomes, |t.outcomes|), t.drafts, t.dropped)
    && (forall d | d in EpicsIn(t.pass) :: EpicSound(t.drafts, AllClaims(input.areas), d))
    && t.carried == CarriedOver(input, t.outcomes, t.pass)
    && Identified(Reconcilable(input, t.carried), Ids(input.previous), AllClaims(input.areas), AllDrafts(t),
                  t.verdicts, t.claimed, t.out)
  }

  /** The new flows were named in order, from this slug. */
  ghost predicate NamedFrom(input: Inputs, slug: string -> string, t: Trace) {
    && |AllDrafts(t)| == |t.out| == |t.verdicts|
    && NamedInOrder(Ids(input.previous), slug, ToFlows(AllDrafts(t)), t.verdicts, t.out, |t.out|)
  }

  // --- Every committed flow goes one way -------------------------------------------------------

  lemma SameIdSameFlow(flows: seq<Flow>, f: Flow, g: Flow)
    requires DistinctIds(flows) && f in flows && g in flows && f.id == g.id
    ensures f == g
  {
  }

  lemma IdsAre(flows: seq<Flow>, id: string)
    ensures id in Ids(flows) <==> exists f :: f in flows && f.id == id
  {
  }

  ghost predicate GoneFrom(input: Inputs, carried: seq<Flow>, f: Flow) { f in carried || f in AtOnce(input) }

  /** The reconcilable flows are the rest, by flow as by id. */
  lemma ReconcilableAre(input: Inputs, carried: seq<Flow>)
    requires DistinctIds(input.previous) && forall f | f in carried :: f in input.previous
    ensures forall f :: f in Reconcilable(input, carried) <==> f in input.previous && !GoneFrom(input, carried, f)
    ensures DistinctIds(Reconcilable(input, carried))
  {
    hide Without, RetiredAtOnce, RetiredFlows;
    var gone := Ids(carried) + Ids(AtOnce(input));
    WithoutIs(input.previous, gone);
    WithoutDistinct(input.previous, gone);
    RetiredAtOnceAre(input.previous, input.areas);
    forall f | f in input.previous
      ensures f.id in gone <==> GoneFrom(input, carried, f)
    {
      if f.id in gone {
        var g :| (g in carried || g in AtOnce(input)) && g.id == f.id;
        SameIdSameFlow(input.previous, f, g);
      }
    }
  }

  /** What is carried was committed, and was not retired at once. */
  lemma CarriedOverAre(input: Inputs, outcomes: Outcomes, pass: EpicResult)
    requires |outcomes| == |input.areas| && DistinctIds(input.previous)
    ensures forall f | f in CarriedOver(input, outcomes, pass) :: f in input.previous && f !in AtOnce(input)
    ensures DistinctKeys(input.areas) ==> DistinctIds(CarriedOver(input, outcomes, pass))
  {
    hide AreaKey, Placed, CarriedFlows, RetiredAtOnce, RetiredFlows, PlaceOf, DistinctKeys;
    CarriedAre(input, outcomes, |outcomes|);
    if DistinctKeys(input.areas) { CarriedDistinct(input, outcomes, |outcomes|); }
    PlacedAre(input.previous, input.areas, EpicPass);
    PlacedDistinct(input.previous, input.areas, EpicPass);
    RetiredAtOnceAre(input.previous, input.areas);
    var units, epics := CarriedFlows(input, outcomes, |outcomes|), Placed(input.previous, input.areas, EpicPass);
    forall f, g | f in units && g in epics
      ensures f.id != g.id
    {
      PlacesApart(input.previous, input.areas, f, g);
    }
    if pass.Refused? && DistinctKeys(input.areas) { ConcatDistinct(units, epics); }
  }

  ghost predicate Verdicted(prev: seq<Flow>, verdicts: seq<Verdict>, kind: Verdict, f: Flow) {
    exists n :: 0 <= n < |verdicts| && IsVerdictOn(prev, verdicts[n], kind, f)
  }

  predicate IsVerdictOn(prev: seq<Flow>, v: Verdict, kind: Verdict, f: Flow) {
    SameKind(v, kind) && !v.New? && v.prior < |prev| && prev[v.prior] == f
  }

  lemma {:induction false} IdsWhereAre(out: seq<Flow>, verdicts: seq<Verdict>, kind: Verdict, id: string)
    requires |out| == |verdicts|
    ensures id in IdsWhere(out, verdicts, kind) <==>
              exists n :: 0 <= n < |out| && SameKind(verdicts[n], kind) && out[n].id == id
  {
    if out != [] {
      var front, fv := out[..|out| - 1], verdicts[..|out| - 1];
      IdsWhereAre(front, fv, kind, id);
      if exists n :: 0 <= n < |out| && SameKind(verdicts[n], kind) && out[n].id == id {
        var n :| 0 <= n < |out| && SameKind(verdicts[n], kind) && out[n].id == id;
        assert n < |front| ==> SameKind(fv[n], kind) && front[n].id == id;
      }
      if id in IdsWhere(front, fv, kind) {
        var n :| 0 <= n < |front| && SameKind(fv[n], kind) && front[n].id == id;
        assert SameKind(verdicts[n], kind) && out[n].id == id;
      }
    }
  }

  /** A committed flow's id is reported kept (or amended) exactly when a verdict keeps (or amends) that flow. */
  lemma ReportedByVerdict(previous: seq<Flow>, prev: seq<Flow>, used: set<string>, live: seq<Claim>, drafts: seq<Draft>,
                          verdicts: seq<Verdict>, claimed: set<nat>, out: seq<Flow>, kind: Verdict, f: Flow)
    requires Identified(prev, used, live, drafts, verdicts, claimed, out) && DistinctIds(previous)
    requires (forall g | g in prev :: g in previous) && f in previous && !kind.New?
    ensures f.id in IdsWhere(out, verdicts, kind) <==> Verdicted(prev, verdicts, kind, f)
  {
    hide Resolves, IdsWhere, Refreshed, ToFlow;
    VerdictCount(prev, drafts, verdicts, claimed);
    IdsWhereAre(out, verdicts, kind, f.id);
    if f.id in IdsWhere(out, verdicts, kind) {
      var n :| 0 <= n < |out| && SameKind(verdicts[n], kind) && out[n].id == f.id;
      InheritedId(prev, used, live, ToFlow(drafts[n]), verdicts[n], out[n]);
      assert prev[verdicts[n].prior] in prev;
      SameIdSameFlow(previous, f, prev[verdicts[n].prior]);
      assert IsVerdictOn(prev, verdicts[n], kind, f);
    }
    if Verdicted(prev, verdicts, kind, f) {
      var n :| 0 <= n < |verdicts| && IsVerdictOn(prev, verdicts[n], kind, f);
      InheritedId(prev, used, live, ToFlow(drafts[n]), verdicts[n], out[n]);
    }
  }

  lemma VerdictCount(prev: seq<Flow>, drafts: seq<Draft>, verdicts: seq<Verdict>, claimed: set<nat>)
    requires Resolves(prev, ToFlows(drafts), ContinuesOf(drafts), verdicts, claimed)
    ensures |verdicts| == |drafts|
  {
  }

  lemma InheritedId(prev: seq<Flow>, used: set<string>, live: seq<Claim>, next: Flow, v: Verdict, out: Flow)
    requires Becomes(prev, used, live, next, v, out) && !v.New?
    ensures v.prior < |prev| && out.id == prev[v.prior].id
  {
  }

  function Count(b: bool): nat { if b then 1 else 0 }

  /** Two positions of one flow are the same position. */
  lemma OnePosition(prev: seq<Flow>, p: nat, q: nat)
    requires DistinctIds(prev) && p < |prev| && q < |prev| && prev[p] == prev[q]
    ensures p == q
  {
  }

  lemma ClaimedGoesByVerdict(prev: seq<Flow>, verdicts: seq<Verdict>, claimed: set<nat>, p: nat)
    requires ClaimsOnce(prev, verdicts, claimed) && DistinctIds(prev) && p < |prev| && p in claimed
    ensures Verdicted(prev, verdicts, Remap(0), prev[p]) != Verdicted(prev, verdicts, Amended(0), prev[p])
    ensures !IsOrphan(prev, claimed, prev[p])
  {
    var n :| 0 <= n < |verdicts| && Claims(verdicts[n], p);
    assert IsVerdictOn(prev, verdicts[n], if verdicts[n].Remap? then Remap(0) else Amended(0), prev[p]);
    forall m, kind | 0 <= m < |verdicts| && IsVerdictOn(prev, verdicts[m], kind, prev[p])
      ensures m == n
    {
      OnePosition(prev, p, verdicts[m].prior);
    }
    forall q | 0 <= q < |prev| && prev[q] == prev[p]
      ensures q == p
    {
      OnePosition(prev, p, q);
    }
  }

  lemma UnclaimedIsOrphaned(prev: seq<Flow>, verdicts: seq<Verdict>, claimed: set<nat>, p: nat, kind: Verdict)
    requires ClaimsOnce(prev, verdicts, claimed) && DistinctIds(prev) && p < |prev| && p !in claimed
    ensures IsOrphan(prev, claimed, prev[p]) && !Verdicted(prev, verdicts, kind, prev[p])
  {
    if Verdicted(prev, verdicts, kind, prev[p]) {
      var n :| 0 <= n < |verdicts| && IsVerdictOn(prev, verdicts[n], kind, prev[p]);
      OnePosition(prev, p, verdicts[n].prior);
    }
  }

  /** A reconcilable flow is kept, amended or orphaned, and only one of them. */
  lemma OneVerdictAFlow(prev: seq<Flow>, verdicts: seq<Verdict>, claimed: set<nat>, f: Flow)
    requires ClaimsOnce(prev, verdicts, claimed) && DistinctIds(prev)
    ensures Count(Verdicted(prev, verdicts, Remap(0), f)) + Count(Verdicted(prev, verdicts, Amended(0), f))
              + Count(IsOrphan(prev, claimed, f))
            == Count(f in prev)
  {
    if f in prev {
      hide ClaimsOnce, IsOrphan, Verdicted;
      var p :| 0 <= p < |prev| && prev[p] == f;
      if p in claimed { ClaimedGoesByVerdict(prev, verdicts, claimed, p); }
      else {
        UnclaimedIsOrphaned(prev, verdicts, claimed, p, Remap(0));
        UnclaimedIsOrphaned(prev, verdicts, claimed, p, Amended(0));
      }
    }
  }

  function IdList(flows: seq<Flow>): seq<string> { seq(|flows|, i requires 0 <= i < |flows| => flows[i].id) }

  ghost predicate ReportsFlows(input: Inputs, t: Trace, s: Synthesis) {
    && |AllDrafts(t)| == |t.out| == |t.verdicts|
    && RefsInside(AllDrafts(t))
    && |s.flows| == |t.out| + |t.carried|
    && (forall n | 0 <= n < |t.out| :: s.flows[n] == Recomposed(t.out, AllDrafts(t), n))
    && (forall n | |t.out| <= n < |s.flows| :: s.flows[n] == t.carried[n - |t.out|])
    && s.kept == IdsWhere(t.out, t.verdicts, Remap(0)) && s.amended == IdsWhere(t.out, t.verdicts, Amended(0))
    && s.added == IdsWhere(t.out, t.verdicts, New) && s.carried == IdList(t.carried)
  }

  ghost predicate ReportsRetired(input: Inputs, t: Trace, s: Synthesis) {
    forall f :: f in RetiredFlows(s.retired) <==>
        f in AtOnce(input) || IsOrphan(Reconcilable(input, t.carried), t.claimed, f)
  }

  /** The reason a subsumed continuation is retired for. */
  function NoteDropped(reasons: map<string, string>, dropped: seq<Dropped>): map<string, string> {
    if dropped == [] then reasons
    else
      var front, last := NoteDropped(reasons, dropped[..|dropped| - 1]), dropped[|dropped| - 1];
      if last.draft.continues.None? then front
      else
        front[last.draft.continues.value :=
            "its milestones are identical to \"" + last.supersededBy + "\", which continues another flow"]
  }

  /** Every reason the sessions and the subsumption gave, a later one over an earlier. */
  function AllReasons(outcomes: Outcomes, dropped: seq<Dropped>, pass: EpicResult): map<string, string> {
    var reasons := NoteDropped(AreaReasons(outcomes, |outcomes|), dropped);
    if pass.Composed? then NoteReasons(reasons, pass.retired) else reasons
  }

  /** The retirements, in order, each with its reason. */
  ghost predicate ReportsReasons(input: Inputs, t: Trace, s: Synthesis) {
    s.retired == RetiredAtOnce(input.previous, input.areas)
                 + Orphans(Reconcilable(input, t.carried), t.claimed, AllReasons(t.outcomes, t.dropped, t.pass),
                           t.pass.Skipped?)
  }

  ghost predicate ReportsNoFlow(input: Inputs, t: Trace, s: Synthesis)
    requires |t.outcomes| == |input.areas|
  {
    s.noFlow == FirstDecisions(GatheredNoFlow(t.outcomes, |t.outcomes|)
                               + OfDocs(input.previousNoFlow, input.docOf,
                                        CarriedDocs(input.areas, t.outcomes, |t.outcomes|)))
  }

  ghost predicate GoesOneWay(s: Synthesis, f: Flow) {
    Count(f.id in s.kept) + Count(f.id in s.amended) + Count(f.id in s.carried)
    + Count(f.id in IdList(RetiredFlows(s.retired))) == 1
  }

  lemma IdListHas(flows: seq<Flow>, f: Flow, previous: seq<Flow>)
    requires DistinctIds(previous) && f in previous && forall g | g in flows :: g in previous
    ensures f.id in IdList(flows) <==> f in flows
  {
    if f.id in IdList(flows) {
      var i :| 0 <= i < |flows| && flows[i].id == f.id;
      assert flows[i] in flows;
      SameIdSameFlow(previous, f, flows[i]);
    }
    if f in flows {
      var i :| 0 <= i < |flows| && flows[i] == f;
      assert IdList(flows)[i] == f.id;
    }
  }

  /** Every committed flow ends kept, amended, carried or retired, and in one of them only. */
  lemma EveryFlowGoesOneWay(input: Inputs, t: Trace, s: Synthesis, f: Flow)
    requires DistinctIds(input.previous) && f in input.previous
    requires Ran(input, t) && ReportsFlows(input, t, s) && ReportsRetired(input, t, s)
    ensures GoesOneWay(s, f)
  {
    hide Subsumes, EpicSound, CarriedOver, Recomposed, IdsWhere, VerdictsFit, StatementsHonoured, Unambiguous, AtOnce,
         Without, Ids, IsOrphan, IdList, RetiredFlows;
    var prev := Reconcilable(input, t.carried);
    CarriedOverAre(input, t.outcomes, t.pass);
    ReconcilableAre(input, t.carried);
    RetiredAtOnceAre(input.previous, input.areas);
    ReportedByVerdict(input.previous, prev, Ids(input.previous), AllClaims(input.areas), AllDrafts(t), t.verdicts,
                      t.claimed, t.out, Remap(0), f);
    ReportedByVerdict(input.previous, prev, Ids(input.previous), AllClaims(input.areas), AllDrafts(t), t.verdicts,
                      t.claimed, t.out, Amended(0), f);
    OneVerdictAFlow(prev, t.verdicts, t.claimed, f);
    IdListHas(t.carried, f, input.previous);
    RetiredAreCommitted(input, t, s);
    IdListHas(RetiredFlows(s.retired), f, input.previous);
  }

  lemma RetiredAreCommitted(input: Inputs, t: Trace, s: Synthesis)
    requires ReportsRetired(input, t, s) && DistinctIds(input.previous)
    requires forall f | f in t.carried :: f in input.previous
    ensures forall f | f in RetiredFlows(s.retired) :: f in input.previous
    ensures forall f | IsOrphan(Reconcilable(input, t.carried), t.claimed, f) :: f in Reconcilable(input, t.carried)
  {
    hide Without, RetiredFlows, RetiredAtOnce;
    RetiredAtOnceAre(input.previous, input.areas);
    ReconcilableAre(input, t.carried);
  }

  // --- The written corpus -----------------------------------------------------------------------

  /** What each flow a session produced stands as, seen from its draft. */
  lemma OutStands(input: Inputs, t: Trace, n: nat)
    requires Ran(input, t) && n < |t.out| && forall f | f in input.previous :: f.milestones != []
    requires |AllDrafts(t)| == |t.out| && AllDrafts(t)[n].milestones != []
    requires forall f | f in Reconcilable(input, t.carried) :: f in input.previous
    ensures t.out[n].milestones != []
    ensures t.out[n].id !in Ids(input.previous)
              || exists f :: f in Reconcilable(input, t.carried) && f.id == t.out[n].id
    ensures forall id :: Names(AllDrafts(t)[n].milestones, id) ==> Names(t.out[n].milestones, id)
  {
    hide Subsumes, EpicSound, CarriedOver, Reconcilable, Ids, AllClaims, AllDrafts, ClaimsOnce, StatementsHonoured,
         Unambiguous;
    var prev, d, v := Reconcilable(input, t.carried), AllDrafts(t)[n], t.verdicts[n];
    assert Becomes(prev, Ids(input.previous), AllClaims(input.areas), ToFlow(d), v, t.out[n]);
    if !v.New? { assert prev[v.prior] in prev; }
    if v.Remap? {
      forall id | Names(d.milestones, id)
        ensures Names(t.out[n].milestones, id)
      {
        assert Key(prev[v.prior]) == Key(ToFlow(d));
        SameContractSameClaims(d.milestones, prev[v.prior].milestones, d.startingState, prev[v.prior].startingState,
                               id);
        RefreshedNames(prev[v.prior], AllClaims(input.areas), id);
      }
    }
  }

  lemma RefreshedNames(flow: Flow, live: seq<Claim>, id: string)
    requires Names(flow.milestones, id)
    ensures Names(Refreshed(flow, live).milestones, id)
  {
    var i :| 0 <= i < |flow.milestones| && flow.milestones[i].claimId == id;
    assert Refreshed(flow, live).milestones[i].claimId == id;
  }

  /** Every draft has a path, and an epic's references stay inside the digest. */
  lemma DraftsStand(input: Inputs, t: Trace)
    requires Ran(input, t)
    ensures forall n | 0 <= n < |AllDrafts(t)| :: AllDrafts(t)[n].milestones != []
    ensures RefsInside(AllDrafts(t))
  {
    hide Identified, CarriedOver, Gathered;
    GatheredSound(t.outcomes, |t.outcomes|);
    KeptAreDrafts(Gathered(t.outcomes, |t.outcomes|), t.drafts, t.dropped);
    var all := AllDrafts(t);
    forall n | 0 <= n < |all|
      ensures all[n].milestones != [] && forall r | r in all[n].composedRefs :: r < |all|
    {
      if n < |t.drafts| { DraftIsSound(Gathered(t.outcomes, |t.outcomes|), all[n]); }
      else { EpicStands(t.drafts, AllClaims(input.areas), all[n]); }
    }
  }

  lemma DraftIsSound(drafts: seq<Draft>, d: Draft)
    requires DraftsSound(drafts) && d in drafts
    ensures d.milestones != [] && d.composedRefs == []
  {
  }

  lemma EpicStands(flows: seq<Draft>, claims: seq<Claim>, d: Draft)
    requires EpicSound(flows, claims, d)
    ensures d.milestones != [] && forall r | r in d.composedRefs :: r < |flows|
  {
  }

  /** Every produced flow has a path, and its id is no carried flow's. */
  lemma ProducedStandApart(input: Inputs, t: Trace)
    requires ValidCorpus(input.previous) && Ran(input, t) && |AllDrafts(t)| == |t.out|
    ensures DistinctIds(input.previous)
    ensures forall n | 0 <= n < |t.out| :: t.out[n].milestones != [] && forall g | g in t.carried :: g.id != t.out[n].id
  {
    hide Ran, Reconcilable, Ids, AtOnce, CarriedOver, RefsInside;
    RanGives(input, t);
    CarriedOverAre(input, t.outcomes, t.pass);
    ReconcilableAre(input, t.carried);
    DraftsStand(input, t);
    forall n | 0 <= n < |t.out|
      ensures t.out[n].milestones != [] && forall g | g in t.carried :: g.id != t.out[n].id
    {
      OutStands(input, t, n);
      forall g | g in t.carried
        ensures g.id != t.out[n].id
      {
        CarriedApart(input, t.carried, g, t.out[n].id);
      }
    }
  }

  /** With distinct unit keys the written corpus is one a next synthesis can start from. */
  lemma WrittenIsValid(input: Inputs, t: Trace, s: Synthesis)
    requires ValidCorpus(input.previous) && DistinctKeys(input.areas) && Ran(input, t) && ReportsFlows(input, t, s)
    ensures ValidCorpus(s.flows)
  {
    hide Ran, Reconcilable, Ids, AtOnce, CarriedOver, IdsWhere;
    RanGives(input, t);
    ProducedStandApart(input, t);
    CarriedOverAre(input, t.outcomes, t.pass);
    forall i, j | 0 <= i < j < |s.flows|
      ensures s.flows[i].id != s.flows[j].id
    {
      if j < |t.out| { assert t.out[i].id != t.out[j].id; }
      else if i < |t.out| { assert t.carried[j - |t.out|] in t.carried; }
    }
  }

  lemma CarriedApart(input: Inputs, carried: seq<Flow>, g: Flow, id: string)
    requires DistinctIds(input.previous) && g in carried && forall f | f in carried :: f in input.previous
    requires id !in Ids(input.previous) || exists f :: f in Reconcilable(input, carried) && f.id == id
    ensures g.id != id
  {
    ReconcilableAre(input, carried);
    if id !in Ids(input.previous) { IdsAre(input.previous, g.id); }
    else {
      var f :| f in Reconcilable(input, carried) && f.id == id;
      assert f != g;
      if f.id == g.id { SameIdSameFlow(input.previous, f, g); }
    }
  }

  lemma RanGives(input: Inputs, t: Trace)
    requires Ran(input, t)
    ensures |t.outcomes| == |input.areas| && t.carried == CarriedOver(input, t.outcomes, t.pass) && DistinctIds(t.out)
  {
  }

  /** No added flow takes an id of the corpus the run started from, of a flow this run retires included. */
  lemma AddedIsNew(input: Inputs, t: Trace, s: Synthesis, id: string)
    requires Ran(input, t) && ReportsFlows(input, t, s) && id in s.added
    ensures id !in Ids(input.previous)
  {
    hide Resolves, Subsumes, EpicSound, CarriedOver, Reconcilable, IdsWhere, Recomposed, Ids;
    IdsWhereAre(t.out, t.verdicts, New, id);
  }

  // --- Coverage ---------------------------------------------------------------------------------

  ghost predicate CoveredBy(flows: seq<Flow>, id: string) {
    exists n :: 0 <= n < |flows| && Names(flows[n].milestones, id)
  }

  /** Every claim of an area that settled is in some flow of the written corpus, or in its no-flow decisions. */
  lemma CoverageSurvives(input: Inputs, t: Trace, s: Synthesis, i: nat, claim: Claim)
    requires ValidCorpus(input.previous)
    requires |t.outcomes| == |input.areas| && Ran(input, t) && ReportsFlows(input, t, s) && ReportsNoFlow(input, t, s)
    requires i < |input.areas| && t.outcomes[i].Some? && claim in input.areas[i].claims
    ensures CoveredBy(s.flows, claim.id) || InNoFlow(s.noFlow, claim.id)
  {
    GatheredCovers(input.areas, t.outcomes, i, claim);
    if InSomeFlow(Gathered(t.outcomes, |t.outcomes|), claim.id) { GatheredFlowIsWritten(input, t, s, claim.id); }
    else { GatheredDecisionIsWritten(input, t, s, claim.id); }
  }

  lemma GatheredFlowIsWritten(input: Inputs, t: Trace, s: Synthesis, id: string)
    requires ValidCorpus(input.previous)
    requires Ran(input, t) && ReportsFlows(input, t, s) && InSomeFlow(Gathered(t.outcomes, |t.outcomes|), id)
    ensures CoveredBy(s.flows, id)
  {
    hide Reconcilable, CarriedOver, AtOnce, Gathered, IdsWhere, Identified, EpicSound, Subsumes;
    CarriedOverAre(input, t.outcomes, t.pass);
    ReconcilableAre(input, t.carried);
    DraftsStand(input, t);
    SubsumptionKeepsClaims(Gathered(t.outcomes, |t.outcomes|), t.drafts, t.dropped, id);
    var n :| 0 <= n < |t.drafts| && Names(t.drafts[n].milestones, id);
    assert AllDrafts(t)[n] == t.drafts[n];
    OutStands(input, t, n);
    assert Names(s.flows[n].milestones, id);
  }

  lemma GatheredDecisionIsWritten(input: Inputs, t: Trace, s: Synthesis, id: string)
    requires |t.outcomes| == |input.areas| && ReportsNoFlow(input, t, s)
    requires InNoFlow(GatheredNoFlow(t.outcomes, |t.outcomes|), id)
    ensures InNoFlow(s.noFlow, id)
  {
    hide GatheredNoFlow, OfDocs, CarriedDocs, FirstDecisions;
    var gathered := GatheredNoFlow(t.outcomes, |t.outcomes|);
    var all := gathered + OfDocs(input.previousNoFlow, input.docOf, CarriedDocs(input.areas, t.outcomes, |t.outcomes|));
    var k :| 0 <= k < |gathered| && Trim(gathered[k].claimId) == id;
    assert all[k] == gathered[k];
    FirstDecisionsKeep(all, gathered[k].claimId);
    var m :| 0 <= m < |s.noFlow| && s.noFlow[m].claimId == gathered[k].claimId;
  }

  // --- What each written flow is ------------------------------------------------------------------

  predicate SameButComposition(a: Flow, b: Flow) { a.(composedOf := []) == b.(composedOf := []) }

  ghost predicate KeptAsCommitted(input: Inputs, g: Flow) {
    exists f :: f in input.previous && f.id == g.id && SameButComposition(g, Refreshed(f, AllClaims(input.areas)))
  }

  ghost predicate AmendsCommitted(input: Inputs, g: Flow) {
    exists f :: f in input.previous && f.id == g.id && Key(f) != Key(g)
  }

  /**
   * A written flow is reported once, and is what its report says: the committed flow with its sentences re-read,
   * another contract under a committed id, the committed flow itself, or a flow of an id the corpus did not have.
   */
  ghost predicate WrittenAsReported(input: Inputs, s: Synthesis, g: Flow) {
    && Count(g.id in s.kept) + Count(g.id in s.amended) + Count(g.id in s.carried) + Count(g.id in s.added) == 1
    && (g.id in s.kept ==> KeptAsCommitted(input, g))
    && (g.id in s.amended ==> AmendsCommitted(input, g))
    && (g.id in s.carried ==> g in input.previous)
    && (g.id in s.added ==> g.id !in Ids(input.previous))
  }

  /** The id of a flow with a verdict is listed under that verdict's kind and no other. */
  lemma ListedUnderItsKind(out: seq<Flow>, verdicts: seq<Verdict>, n: nat, kind: Verdict)
    requires n < |out| == |verdicts| && DistinctIds(out)
    ensures out[n].id in IdsWhere(out, verdicts, kind) <==> SameKind(verdicts[n], kind)
  {
    hide IdsWhere;
    IdsWhereAre(out, verdicts, kind, out[n].id);
  }

  lemma UnlistedElsewhere(out: seq<Flow>, verdicts: seq<Verdict>, id: string, kind: Verdict)
    requires |out| == |verdicts| && forall n | 0 <= n < |out| :: out[n].id != id
    ensures id !in IdsWhere(out, verdicts, kind)
  {
    hide IdsWhere;
    IdsWhereAre(out, verdicts, kind, id);
  }

  lemma ProducedAsVerdict(input: Inputs, t: Trace, n: nat, g: Flow)
    requires Ran(input, t) && n < |t.out| == |t.verdicts| && |AllDrafts(t)| == |t.out|
    requires SameButComposition(g, t.out[n])
    requires forall f | f in Reconcilable(input, t.carried) :: f in input.previous
    ensures t.verdicts[n].Remap? ==> KeptAsCommitted(input, g)
    ensures t.verdicts[n].Amended? ==> AmendsCommitted(input, g)
    ensures t.verdicts[n].New? ==> g.id !in Ids(input.previous)
  {
    hide Subsumes, EpicSound, CarriedOver, Reconcilable, Ids, AllClaims, AllDrafts, ClaimsOnce, StatementsHonoured,
         Unambiguous, Fingerprint;
    var prev, d, v := Reconcilable(input, t.carried), AllDrafts(t)[n], t.verdicts[n];
    assert Becomes(prev, Ids(input.previous), AllClaims(input.areas), ToFlow(d), v, t.out[n]);
    if !v.New? {
      var f := prev[v.prior];
      assert f in prev;
      if v.Amended? { assert Key(f) != Key(ToFlow(d)) && Key(g) == Key(ToFlow(d)); }
      if v.Remap? { assert SameButComposition(g, Refreshed(f, AllClaims(input.areas))); }
    }
  }

  lemma EveryFlowIsReported(input: Inputs, t: Trace, s: Synthesis, m: nat)
    requires ValidCorpus(input.previous) && m < |s.flows|
    requires Ran(input, t) && ReportsFlows(input, t, s)
    ensures WrittenAsReported(input, s, s.flows[m])
  {
    hide Ran, Reconcilable, Ids, AtOnce, CarriedOver, IdsWhere, IdList, KeptAsCommitted, AmendsCommitted, RefsInside,
         ValidCorpus, AllDrafts;
    RanGives(input, t);
    ProducedStandApart(input, t);
    CarriedOverAre(input, t.outcomes, t.pass);
    var g := s.flows[m];
    if m < |t.out| {
      ReconcilableAre(input, t.carried) by { CorpusDistinct(input.previous); }
      ProducedAsVerdict(input, t, m, g);
      ListedUnderItsKind(t.out, t.verdicts, m, Remap(0));
      ListedUnderItsKind(t.out, t.verdicts, m, Amended(0));
      ListedUnderItsKind(t.out, t.verdicts, m, New);
      IdUnlisted(t.carried, g.id);
    } else {
      IdIsListed(t.carried, m - |t.out|);
      UnlistedElsewhere(t.out, t.verdicts, g.id, Remap(0));
      UnlistedElsewhere(t.out, t.verdicts, g.id, Amended(0));
      UnlistedElsewhere(t.out, t.verdicts, g.id, New);
      assert g in t.carried;
    }
  }

  lemma CorpusDistinct(flows: seq<Flow>)
    requires ValidCorpus(flows)
    ensures DistinctIds(flows)
  {
  }

  lemma IdUnlisted(flows: seq<Flow>, id: string)
    requires forall g | g in flows :: g.id != id
    ensures id !in IdList(flows)
  {
    assert forall i | 0 <= i < |flows| :: flows[i] in flows;
  }

  lemma IdIsListed(flows: seq<Flow>, i: nat)
    requires i < |flows|
    ensures flows[i].id in IdList(flows)
  {
    assert IdList(flows)[i] == flows[i].id;
  }
}
