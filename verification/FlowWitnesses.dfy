/**
 * Whole runs of the synthesis (packages/guard-generator/src/flows.ts, `synthesizeFlows`) where its comments promise
 * more than the code.
 *
 * An epic inherited by a plain draft, and one carried past a failed session, each come to name a flow its own run
 * retired; and the id of a flow one run retired is given to another flow by the next. What goes in and what is written
 * meets the schemas.
 */
module FlowWitnesses {
  import opened Common
  import opened Text
  import opened FlowModel
  import opened FlowValidation
  import opened FlowIdentity
  import opened FlowFold
  import opened FlowEpics
  import opened FlowCorpus
  import opened FlowComposition
  import opened FlowSynthesis
  import opened FlowRuns

  // --- Two claims ---------------------------------------------------------------------------------

  const FIRST: Claim := Claim("c", "d", "k", ["s"])
  const SECOND: Claim := Claim("c2", "d2", "k", ["s"])

  function Step(order: int, claim: Claim): Milestone {
    Milestone(order, claim.doc, claim.id, claim.title, claim.sentences, "")
  }

  /** A flow as a session returns it, and the draft it becomes. */
  function Answer(ids: seq<string>): SynthFlow {
    SynthFlow(None, "t", "g", None, seq(|ids|, i requires 0 <= i < |ids| => SynthMilestone(ids[i], None, "")))
  }

  function DraftFor(areaId: string, milestones: seq<Milestone>): Draft {
    Draft(areaId, "t", "g", None, milestones, [], None)
  }

  lemma PlainWords()
    ensures Trim("c") == "c" && Trim("c2") == "c2" && NormalizeText("t") == "t" && NormalizeText("g") == "g"
  {
    assert !IsSpace('c') && !IsSpace('2');
    OneLetter("t");
    OneLetter("g");
  }

  lemma OneLetter(s: string)
    requires |s| == 1 && !IsSpace(s[0])
    ensures NormalizeText(s) == s
  {
    assert Collapse(s[1..]) == "";
    assert [s[0]] == s;
  }

  // --- Units that settle ------------------------------------------------------------------------------

  /** A unit of one claim, whose session walks it. */
  function OneClaim(areaId: string, claim: Claim): Area { Area(areaId, [claim], [claim.doc], None) }

  lemma OneDraftComposed(areaId: string, claim: Claim)
    requires Trim(claim.id) == claim.id
    ensures DraftsOf(OneClaim(areaId, claim), [Answer([claim.id])]) == [DraftFor(areaId, [Step(1, claim)])]
    ensures FlowIssues([claim], [Answer([claim.id])]) == []
  {
    PlainWords();
    hide Trim, NormalizeText;
    var area, flow := OneClaim(areaId, claim), Answer([claim.id]);
    assert Snap(area.claims, claim.id) == Some(claim);
    var entry := Entry(None, "", claim);
    assert flow.milestones == [SynthMilestone(claim.id, None, "")] && flow.milestones[..0] == [];
    assert SnapAll(area.claims, flow.milestones) == [entry];
    assert !Complete([entry]) by { assert [entry][0] == entry; }
    assert FirstOfEach([entry]) == [entry] by { assert [entry][..0] == []; }
    assert Ordered([entry]) == [Step(1, claim)];
    assert [flow][..0] == [];
    assert UnknownRefs(area.claims, flow.milestones) == [];
  }

  /** A unit of both claims, whose session walks the two in one flow and the second in another. */
  const BOTH: Area := Area("a", [FIRST, SECOND], ["d", "d2"], None)
  const LONG: Draft := DraftFor("a", [Step(1, FIRST), Step(2, SECOND)])
  const SHORT: Draft := DraftFor("a", [Step(1, SECOND)])

  lemma LongComposed()
    ensures DraftOf(BOTH, Answer(["c", "c2"])) == LONG && UnknownRefs(BOTH.claims, Answer(["c", "c2"]).milestones) == []
  {
    BothSnap();
    hide Trim, NormalizeText, Snap;
    var ms := Answer(["c", "c2"]).milestones;
    var a, b := Entry(None, "", FIRST), Entry(None, "", SECOND);
    assert ms[..1] == [SynthMilestone("c", None, "")] && ms[..1][..0] == [];
    assert SnapAll(BOTH.claims, ms[..1]) == [a] && SnapAll(BOTH.claims, ms) == [a, b];
    assert UnknownRefs(BOTH.claims, ms[..1]) == [];
    assert !Complete([a, b]) by { assert [a, b][0] == a; }
    assert [a, b][..1] == [a] && [a][..0] == [];
    assert FirstOfEach([a]) == [a];
    assert !HasClaim([a], "c2");
    assert FirstOfEach([a, b]) == [a, b];
    assert Ordered([a, b]) == LONG.milestones;
  }

  lemma ShortComposed()
    ensures DraftOf(BOTH, Answer(["c2"])) == SHORT && UnknownRefs(BOTH.claims, Answer(["c2"]).milestones) == []
  {
    BothSnap();
    hide Trim, NormalizeText, Snap;
    var ms := Answer(["c2"]).milestones;
    var b := Entry(None, "", SECOND);
    assert ms == [SynthMilestone("c2", None, "")] && ms[..0] == [];
    assert SnapAll(BOTH.claims, ms) == [b];
    assert !Complete([b]) by { assert [b][0] == b; }
    assert FirstOfEach([b]) == [b] by { assert [b][..0] == []; }
    assert Ordered([b]) == SHORT.milestones;
  }

  lemma BothSnap()
    ensures Snap(BOTH.claims, "c") == Some(FIRST) && Snap(BOTH.claims, "c2") == Some(SECOND)
    ensures NormalizeText("t") == "t" && NormalizeText("g") == "g"
  {
    PlainWords();
    hide Trim, NormalizeText;
    assert BOTH.claims[..1] == [FIRST] && |"c"| != |"c2"|;
    assert FindClaim([FIRST], "c") == Some(FIRST);
  }

  /** What covers its claims with plain flows and says nothing else settles a unit, whatever was committed. */
  lemma PlainFlowsSettle(area: Area, flows: seq<SynthFlow>, prior: seq<Flow>)
    requires FlowIssues(area.claims, flows) == []
    requires forall d | d in DraftsOf(area, flows) :: d.continues.None?
    requires forall c | c in area.claims :: c.id in AssignedClaims(DraftsOf(area, flows))
    ensures var v := Validate(area, FlowSet(flows, [], []), prior, false, []);
            FoldAccepts(v) && v.flows == DraftsOf(area, flows)
  {
    hide DraftsOf, AssignedClaims, FlowIssues;
    var drafts := DraftsOf(area, flows);
    NoContinuation(drafts, prior);
    assert Loosen(drafts, prior) == drafts;
    var v := Validate(area, FlowSet(flows, [], []), prior, false, []);
    var placed := AssignedClaims(drafts);
    var covered := placed + EmittedIds(NoFlowOut(area.claims, [], []))
                   + SnappedIds(area.claims,
                                Unmentioned(area.claims, [], DecidedClaims(area.claims, []), placed,
                                            NoFlowOut(area.claims, [], [])));
    NothingUncovered(area.claims, covered);
    assert v.uncovered == UncoveredClaims(area.claims, covered);
    assert NoFlowIssues(area.claims, [], placed) == [];
    assert v.unknown == [] && v.uncovered == [];
    assert v.flows == Loosen(drafts, prior);
    assert v.flows == drafts;
  }

  lemma {:induction false} NoContinuation(drafts: seq<Draft>, prior: seq<Flow>)
    requires forall d | d in drafts :: d.continues.None?
    ensures ContinueIssues(drafts, prior, false) == []
  {
    if drafts != [] { NoContinuation(drafts[..|drafts| - 1], prior); }
  }

  lemma {:induction false} NothingUncovered(claims: seq<Claim>, covered: set<string>)
    requires forall c | c in claims :: c.id in covered
    ensures UncoveredClaims(claims, covered) == []
  {
    if claims != [] { NothingUncovered(claims[..|claims| - 1], covered); }
  }

  lemma OneClaimSettles(areaId: string, claim: Claim, prior: seq<Flow>)
    requires Trim(claim.id) == claim.id
    ensures var v := Validate(OneClaim(areaId, claim), FlowSet([Answer([claim.id])], [], []), prior, false, []);
            FoldAccepts(v) && v.flows == [DraftFor(areaId, [Step(1, claim)])]
  {
    OneDraftComposed(areaId, claim);
    hide DraftsOf, FlowIssues, Trim, Validate;
    var draft := DraftFor(areaId, [Step(1, claim)]);
    assert draft in [draft] && draft.milestones[0] in draft.milestones && draft.milestones[0].claimId == claim.id;
    PlainFlowsSettle(OneClaim(areaId, claim), [Answer([claim.id])], prior);
  }

  const TWO_FLOWS: seq<SynthFlow> := [Answer(["c", "c2"]), Answer(["c2"])]

  lemma BothComposed()
    ensures DraftsOf(BOTH, TWO_FLOWS) == [LONG, SHORT] && FlowIssues(BOTH.claims, TWO_FLOWS) == []
  {
    LongComposed();
    ShortComposed();
    assert LONG.milestones != [] && SHORT.milestones != [];
    hide LONG, SHORT, BOTH, Answer;
    TwoComposed(BOTH, Answer(["c", "c2"]), Answer(["c2"]), LONG, SHORT);
  }

  lemma TwoComposed(area: Area, f: SynthFlow, g: SynthFlow, d: Draft, e: Draft)
    requires DraftOf(area, f) == d && DraftOf(area, g) == e && d.milestones != [] && e.milestones != []
    requires UnknownRefs(area.claims, f.milestones) == [] && UnknownRefs(area.claims, g.milestones) == []
    ensures DraftsOf(area, [f, g]) == [d, e] && FlowIssues(area.claims, [f, g]) == []
  {
    hide DraftOf, UnknownRefs;
    var none: seq<SynthFlow> := [];
    assert [f, g][..1] == [f] && [f][..0] == none;
    assert DraftsOf(area, none) == [] && FlowIssues(area.claims, none) == [];
    assert DraftsOf(area, [f]) == [d] && FlowIssues(area.claims, [f]) == [];
  }

  lemma BothSettle(prior: seq<Flow>)
    ensures var v := Validate(BOTH, FlowSet(TWO_FLOWS, [], []), prior, false, []);
              FoldAccepts(v) && v.flows == [LONG, SHORT]
  {
    BothComposed();
    hide DraftsOf, FlowIssues, Validate, Answer;
    var drafts := [LONG, SHORT];
    assert LONG in drafts && LONG.milestones[0] in LONG.milestones && LONG.milestones[1] in LONG.milestones;
    PlainFlowsSettle(BOTH, TWO_FLOWS, prior);
  }

  // --- The runs' inputs ------------------------------------------------------------------------------------

  /** A committed flow whose first document left the corpus, another, and the epic that chains the two. */
  const GONE: Flow := Flow("x", "t", "g", None, [Milestone(1, "gone", "c0", "k", ["s"], ""), Step(2, FIRST)], [])
  const MEMBER: Flow := Flow("y", "t", "g", None, [Step(1, SECOND)], [])
  const EPIC: Flow := Flow("e", "t", "g", None, [Step(1, FIRST), Step(2, SECOND)], ["x", "y"])
  const COMMITTED: seq<Flow> := [GONE, MEMBER, EPIC]

  const ALPHA: Area := OneClaim("a", FIRST)
  const BETA: Area := OneClaim("b", SECOND)

  function Start(areas: seq<Area>, previous: seq<Flow>, answers: map<string, FlowSet>): Inputs {
    Inputs(areas, previous, [], _ => "", answers)
  }

  const INHERITING: Inputs := Start([BOTH], COMMITTED, map["a" := FlowSet(TWO_FLOWS, [], [])])
  const CARRYING: Inputs :=
    Start([ALPHA, BETA], COMMITTED,
          map["a" := FlowSet([Answer(["c"])], [], []), "b" := FlowSet([Answer(["c2"])], [], [])])

  /**
   * What a run is given meets the schemas: committed flows, claims, sessions'
   * answers; an epic chains two flows and two claims.
   */
  ghost predicate GivenMeetsSchema(input: Inputs) {
    && (forall f | f in input.previous ::
        SchemaFlow(f) && (f.composedOf != [] ==> |f.composedOf| >= 2 && |f.milestones| >= 2))
    && (forall c | c in AllClaims(input.areas) :: c.id != "" && c.doc != "" && c.title != "" && Stated(c.sentences))
    && (forall key | key in input.results :: SchemaAnswer(input.results[key]))
  }

  function SlugIs(id: string): string -> string { _ => id }

  /** Nothing a run writes is refused. */
  ghost predicate WritesSchema(s: Synthesis) { forall f | f in s.flows :: SchemaFlow(f) }

  /** The epic is in the corpus with its committed composition, which names a flow this run retired. */
  ghost predicate EpicDangles(s: Synthesis) {
    && (exists m :: 0 <= m < |s.flows| && s.flows[m].id == "e" && s.flows[m].composedOf == ["x", "y"])
    && "x" in IdList(RetiredFlows(s.retired)) && !NamesWritten(s.flows, "x") && NamesWritten(s.flows, "e")
  }

  lemma CommittedIsValid()
    ensures ValidCorpus(COMMITTED)
    ensures forall f | f in COMMITTED ::
              SchemaFlow(f) && (f.composedOf != [] ==> |f.composedOf| >= 2 && |f.milestones| >= 2)
  {
    assert SchemaMilestone(Step(1, FIRST)) && SchemaMilestone(Step(2, FIRST)) && SchemaMilestone(Step(1, SECOND))
        && SchemaMilestone(Step(2, SECOND));
    assert SchemaMilestone(Milestone(1, "gone", "c0", "k", ["s"], ""));
  }

  lemma AnswersMeetSchema()
    ensures SchemaAnswer(FlowSet(TWO_FLOWS, [], [])) && SchemaAnswer(FlowSet([Answer(["c"])], [], []))
    ensures SchemaAnswer(FlowSet([Answer(["c2"])], [], []))
  {
  }

  lemma ClaimsOfAreas()
    ensures AllClaims([BOTH]) == [FIRST, SECOND] == AllClaims([ALPHA, BETA]) && AllClaims([ALPHA]) == [FIRST]
    ensures AllClaims([]) == []
  {
    assert [BOTH][..0] == [] && [ALPHA][..0] == [] && [ALPHA, BETA][..1] == [ALPHA];
    assert AllClaims([ALPHA]) == [FIRST];
  }

  lemma GoneLeaves(areas: seq<Area>)
    requires areas == [BOTH] || areas == [ALPHA, BETA] || areas == []
    ensures PlaceOf(GONE, areas) == LeftCorpus
  {
    assert [BOTH][..0] == [] && [ALPHA][..0] == [] && [ALPHA, BETA][..1] == [ALPHA];
    assert UnitOfDoc([ALPHA], "gone") == None && UnitOfDoc([BOTH], "gone") == None;
  }

  /** The flow whose document left is retired, and its id is not written. */
  lemma GoneIsNotWritten(input: Inputs, t: Trace, s: Synthesis)
    requires (input.areas == [BOTH] || input.areas == [ALPHA, BETA]) && input.previous == COMMITTED
    requires Ran(input, t) && ReportsFlows(input, t, s) && ReportsRetired(input, t, s)
    ensures !NamesWritten(s.flows, "x") && "x" in IdList(RetiredFlows(s.retired))
  {
    hide Ran, ReportsFlows, ReportsRetired, NamesWritten, IdList, RetiredFlows;
    CommittedIsValid();
    GoneLeaves(input.areas);
    assert GONE in input.previous by { assert COMMITTED[0] == GONE; }
    RetiredExactlyWhen(input, t, s, GONE);
    WrittenIdsAre(input, t, s, "x");
    IdsAre(input.previous, "x");
    if "x" in s.added { AddedIsNew(input, t, s, "x"); }
  }

  // --- Drafts as they come through -----------------------------------------------------------------------------

  lemma NoDraft(kept: seq<Draft>, dropped: seq<Dropped>)
    requires Subsumes([], kept, dropped)
    ensures kept == []
  {
    var none: seq<Draft> := [];
    assert |multiset(kept)| + |multiset(DroppedDrafts(dropped))| == |multiset(none)| == 0;
  }

  /** A draft alone on its path survives subsumption. */
  lemma LoneWalkerSurvives(drafts: seq<Draft>, kept: seq<Draft>, dropped: seq<Dropped>, d: Draft)
    requires Subsumes(drafts, kept, dropped) && d in drafts
    requires forall e | e in drafts && DraftKey(e) == DraftKey(d) :: e == d
    ensures d in kept
  {
    KeptAreDrafts(drafts, kept, dropped);
    var n :| 0 <= n < |drafts| && drafts[n] == d;
    assert Survives(kept, drafts[n]);
    hide DraftKey;
    var k :| 0 <= k < |kept| && DraftKey(kept[k]) == DraftKey(d);
    assert kept[k] in drafts && kept[k] in kept;
  }

  lemma TwoDrafts(d: Draft, e: Draft, kept: seq<Draft>, dropped: seq<Dropped>)
    requires Subsumes([d, e], kept, dropped) && DraftKey(d) != DraftKey(e)
    ensures d in kept && e in kept && forall k | 0 <= k < |kept| :: kept[k] == d || kept[k] == e
  {
    hide Subsumes, DraftKey;
    KeptAreDrafts([d, e], kept, dropped);
    LoneWalkerSurvives([d, e], kept, dropped, d);
    LoneWalkerSurvives([d, e], kept, dropped, e);
  }

  lemma PathsDiffer(a: seq<Milestone>, b: seq<Milestone>, id: string)
    requires Names(a, id) != Names(b, id)
    ensures ContractOf(a, None) != ContractOf(b, None)
  {
    FingerprintNames(a, id);
    FingerprintNames(b, id);
  }

  type EpicSession = seq<Draft> -> Option<EpicSet>

  function Silent(): EpicSession { _ => None }

  lemma InheritingOutcome(input: Inputs)
    requires input == INHERITING
    ensures Outcome(input, BOTH).Some? && Outcome(input, BOTH).value.flows == [LONG, SHORT]
  {
    hide Validate, FoldAccepts, Placed, Answer;
    assert AreaKey(BOTH) == "a";
    BothSettle(Placed(input.previous, input.areas, Unit("a")));
  }

  /** Where one unit settles with two drafts of different paths, both come through, and no epic pass runs. */
  lemma LoneUnitPasses(input: Inputs, unit: Area, d: Draft, e: Draft, slug: string -> string, t: Trace)
    requires input.areas == [unit] && Outcome(input, unit).Some? && Outcome(input, unit).value.flows == [d, e]
    requires d.areaId == e.areaId && DraftKey(d) != DraftKey(e)
    requires Passed(input, Silent(), slug, t) && Ran(input, t)
    ensures d in AllDrafts(t) && t.carried == [] && KeysDistinct(AllDrafts(t))
    ensures forall n | 0 <= n < |AllDrafts(t)| :: AllDrafts(t)[n] == d || AllDrafts(t)[n] == e
  {
    hide Outcome, Identified, OutcomesSound, NamedFrom, EpicsAccepted, Placed, Ids, DraftKey, KeepsChosen, ComposedFrom,
         EpicSound;
    assert t.outcomes[0] == Outcome(input, input.areas[0]);
    assert Gathered(t.outcomes, 0) == [] && Gathered(t.outcomes, 1) == [d, e];
    TwoDrafts(d, e, t.drafts, t.dropped);
    assert !SeveralAreas(t.drafts) by { assert (set x | x in t.drafts :: x.areaId) == {d.areaId}; }
    assert CarriedFlows(input, t.outcomes, 0) == [] && CarriedFlows(input, t.outcomes, 1) == [];
    assert AllDrafts(t) == t.drafts;
  }

  lemma InheritingPasses(t: Trace)
    requires Passed(INHERITING, Silent(), SlugIs("n"), t) && Ran(INHERITING, t)
    ensures LONG in AllDrafts(t) && t.carried == [] && KeysDistinct(AllDrafts(t))
    ensures forall n | 0 <= n < |AllDrafts(t)| :: AllDrafts(t)[n] == LONG || AllDrafts(t)[n] == SHORT
  {
    InheritingOutcome(INHERITING);
    LongIsNotShort();
    assert INHERITING.areas == [BOTH] && LONG.areaId == SHORT.areaId;
    hide INHERITING, LONG, SHORT, BOTH, Passed, Ran, Outcome;
    LoneUnitPasses(INHERITING, BOTH, LONG, SHORT, SlugIs("n"), t);
  }

  lemma LongIsNotShort()
    ensures DraftKey(LONG) != DraftKey(SHORT) && Key(EPIC) == DraftKey(LONG) && Key(MEMBER) == DraftKey(SHORT)
  {
    assert LONG.milestones[0].claimId == "c" && SHORT.milestones[0].claimId == "c2";
    PathsDiffer(LONG.milestones, SHORT.milestones, "c");
  }

  lemma DraftsMeetSchema()
    ensures SchemaDraft(LONG) && SchemaDraft(SHORT)
    ensures SchemaDraft(ONE) && SchemaDraft(OTHER)
  {
    assert SchemaMilestone(Step(1, FIRST)) && SchemaMilestone(Step(1, SECOND)) && SchemaMilestone(Step(2, SECOND));
  }

  lemma InheritingIsGiven()
    ensures ValidCorpus(INHERITING.previous) && GivenMeetsSchema(INHERITING)
  {
    CommittedIsValid();
    AnswersMeetSchema();
    ClaimsOfAreas();
    hide SchemaAnswer, SchemaFlow, ValidCorpus, Answer;
  }

  lemma CarryingIsGiven()
    ensures ValidCorpus(CARRYING.previous) && GivenMeetsSchema(CARRYING)
  {
    CommittedIsValid();
    AnswersMeetSchema();
    ClaimsOfAreas();
    hide SchemaAnswer, SchemaFlow, ValidCorpus, Answer;
  }

  // --- A composition inherited ---------------------------------------------------------------------------------

  /**
   * A plain draft that walks a committed epic's path inherits it, and with it a composition of two flows of which this
   * very run retires one.
   */
  method InheritedEpicDangles() returns (s: Synthesis)
    ensures GivenMeetsSchema(INHERITING) && WritesSchema(s)
    ensures EpicDangles(s) && "e" in s.kept
  {
    hide Ran, Passed, ReportsFlows, ReportsRetired, ReportsNoFlow, NamesWritten, IdList, RetiredFlows, GoesOneWay,
         WrittenAsReported, ValidCorpus;
    InheritingIsGiven();
    ghost var t;
    s, t := SynthesizeFlows(INHERITING, Silent(), SlugIs("n"));
    InheritingWrites(t, s);
    GoneIsNotWritten(INHERITING, t, s);
    EpicIsInherited(t, s);
  }

  /** A run whose drafts are one of two that meet the schema writes what meets it. */
  lemma TwoDraftsWrite(input: Inputs, d: Draft, e: Draft, t: Trace, s: Synthesis)
    requires ValidCorpus(input.previous) && GivenMeetsSchema(input) && SchemaDraft(d) && SchemaDraft(e)
    requires forall n | 0 <= n < |AllDrafts(t)| :: AllDrafts(t)[n] == d || AllDrafts(t)[n] == e
    requires Passed(input, Silent(), SlugIs("n"), t) && Ran(input, t) && ReportsFlows(input, t, s)
    ensures WritesSchema(s)
  {
    hide Ran, ReportsFlows, SchemaDraft, SchemaFlow, AllDrafts;
    assert NamedFrom(input, SlugIs("n"), t);
    WrittenMeetsSchema(input, SlugIs("n"), t, s);
  }

  lemma InheritingWrites(t: Trace, s: Synthesis)
    requires Passed(INHERITING, Silent(), SlugIs("n"), t) && Ran(INHERITING, t) && ReportsFlows(INHERITING, t, s)
    ensures WritesSchema(s)
  {
    hide INHERITING, LONG, SHORT, Passed, Ran, ReportsFlows, GivenMeetsSchema, SchemaDraft, WritesSchema;
    InheritingPasses(t);
    InheritingIsGiven();
    DraftsMeetSchema();
    TwoDraftsWrite(INHERITING, LONG, SHORT, t, s);
  }

  /** A reconcilable flow with a successor among drafts that state and compose nothing is kept, composition and all. */
  lemma UnstatedSuccessorKeeps(input: Inputs, t: Trace, s: Synthesis, f: Flow)
    requires Ran(input, t) && ReportsFlows(input, t, s) && DistinctIds(Reconcilable(input, t.carried))
    requires f in Reconcilable(input, t.carried)
    requires forall n | 0 <= n < |AllDrafts(t)| :: AllDrafts(t)[n].continues.None? && AllDrafts(t)[n].composedRefs == []
    requires HasSuccessor(Reconcilable(input, t.carried), AllDrafts(t), f)
    ensures f.id in s.kept
              && exists m :: 0 <= m < |s.flows| && s.flows[m].id == f.id && s.flows[m].composedOf == f.composedOf
  {
    hide OutcomesSound, Subsumes, EpicSound, Reconcilable, CarriedOver, AllDrafts, HasSuccessor, Fingerprint,
         RefsInside, IdsWhere;
    var prev, drafts := Reconcilable(input, t.carried), AllDrafts(t);
    var p :| 0 <= p < |prev| && prev[p] == f;
    SuccessorExactlyWhen(prev, drafts, t.verdicts, t.claimed, p);
    var n :| 0 <= n < |t.verdicts| && !t.verdicts[n].New? && t.verdicts[n].prior < |prev|
        && prev[t.verdicts[n].prior] == f;
    UnstatedIsKept(prev, drafts, t.verdicts, n);
    assert Becomes(prev, Ids(input.previous), AllClaims(input.areas), ToFlow(drafts[n]), t.verdicts[n], t.out[n]);
    RefreshedKeeps(f, AllClaims(input.areas));
    assert s.flows[n] == Recomposed(t.out, drafts, n) == t.out[n];
    IdsWhereAre(t.out, t.verdicts, Remap(0), f.id);
  }

  lemma EpicAndDrafts()
    ensures EPIC.id == "e" && EPIC.composedOf == ["x", "y"]
    ensures LONG.continues.None? && SHORT.continues.None? && LONG.composedRefs == [] && SHORT.composedRefs == []
  {
  }

  lemma EpicIsInherited(t: Trace, s: Synthesis)
    requires Passed(INHERITING, Silent(), SlugIs("n"), t) && Ran(INHERITING, t) && ReportsFlows(INHERITING, t, s)
    ensures "e" in s.kept && NamesWritten(s.flows, "e")
    ensures exists m :: 0 <= m < |s.flows| && s.flows[m].id == "e" && s.flows[m].composedOf == ["x", "y"]
  {
    hide INHERITING, LONG, SHORT, EPIC, MEMBER, Passed, Ran, ReportsFlows, Reconcilable, HasSuccessor, KeysDistinct;
    InheritingPasses(t);
    EpicIsReconcilable(t);
    EpicAndDrafts();
    EpicHasWalker(Reconcilable(INHERITING, t.carried), AllDrafts(t));
    UnstatedSuccessorKeeps(INHERITING, t, s, EPIC);
  }

  lemma UnstatedIsKept(prev: seq<Flow>, drafts: seq<Draft>, verdicts: seq<Verdict>, n: nat)
    requires |ToFlows(drafts)| == |verdicts| == |ContinuesOf(drafts)|
    requires VerdictsFit(prev, ToFlows(drafts), ContinuesOf(drafts), verdicts)
    requires n < |drafts| && drafts[n].continues.None? && !verdicts[n].New?
    ensures verdicts[n].Remap?
  {
    hide Key;
    assert ContinuesOf(drafts)[n] == None;
  }

  lemma EpicIsReconcilable(t: Trace)
    requires t.carried == []
    ensures var prev := Reconcilable(INHERITING, t.carried);
            DistinctIds(prev) && (forall f | f in prev :: f == MEMBER || f == EPIC) && EPIC in prev
  {
    CommittedIsValid();
    ReconcilableAre(INHERITING, []);
    RetiredAtOnceAre(COMMITTED, [BOTH]);
    GoneLeaves([BOTH]);
    assert COMMITTED[0] == GONE && COMMITTED[2] == EPIC;
    assert RetirementReason(PlaceOf(GONE, [BOTH])).Some? && RetirementReason(PlaceOf(EPIC, [BOTH])).None?;
  }

  lemma EpicHasWalker(prev: seq<Flow>, drafts: seq<Draft>)
    requires LONG in drafts && (forall n | 0 <= n < |drafts| :: drafts[n] == LONG || drafts[n] == SHORT)
    requires KeysDistinct(drafts)
    requires forall f | f in prev :: f == MEMBER || f == EPIC
    ensures HasSuccessor(prev, drafts, EPIC)
  {
    LongIsNotShort();
    hide Fingerprint, DraftKey, Key;
    var n :| 0 <= n < |drafts| && drafts[n] == LONG;
    assert SoleWalker(prev, drafts, EPIC, n);
  }

  // --- A composition carried ---------------------------------------------------------------------------------------

  /**
   * Where the epic session fails a committed epic is carried, and with it a
   * composition of which this very run retires a flow.
   */
  method CarriedEpicDangles() returns (s: Synthesis)
    ensures GivenMeetsSchema(CARRYING) && WritesSchema(s)
    ensures EpicDangles(s) && "e" in s.carried
  {
    hide Ran, Passed, ReportsFlows, ReportsRetired, ReportsNoFlow, NamesWritten, IdList, RetiredFlows, GoesOneWay,
         WrittenAsReported, ValidCorpus;
    CarryingIsGiven();
    ghost var t;
    s, t := SynthesizeFlows(CARRYING, Silent(), SlugIs("n"));
    CarryingWrites(t, s);
    GoneIsNotWritten(CARRYING, t, s);
    EpicIsCarried(t, s);
  }

  lemma CarryingOutcomes(input: Inputs)
    requires input == CARRYING
    ensures Outcome(input, ALPHA).Some? && Outcome(input, ALPHA).value.flows == [ONE]
    ensures Outcome(input, BETA).Some? && Outcome(input, BETA).value.flows == [OTHER]
  {
    PlainWords();
    hide Validate, FoldAccepts, Placed, Answer, Trim;
    assert AreaKey(ALPHA) == "a" && AreaKey(BETA) == "b";
    OneClaimSettles("a", FIRST, Placed(input.previous, input.areas, Unit("a")));
    OneClaimSettles("b", SECOND, Placed(input.previous, input.areas, Unit("b")));
  }

  /** Where two units settle with a draft each the epic pass runs, and with its session failed it is refused. */
  lemma TwoUnitsPass(input: Inputs, a: Area, b: Area, d: Draft, e: Draft, slug: string -> string, t: Trace)
    requires input.areas == [a, b] && d.areaId != e.areaId && DraftKey(d) != DraftKey(e)
    requires Outcome(input, a).Some? && Outcome(input, a).value.flows == [d]
    requires Outcome(input, b).Some? && Outcome(input, b).value.flows == [e]
    requires Passed(input, Silent(), slug, t) && Ran(input, t)
    ensures t.pass.Refused? && forall n | 0 <= n < |AllDrafts(t)| :: AllDrafts(t)[n] == d || AllDrafts(t)[n] == e
  {
    hide Outcome, Identified, OutcomesSound, NamedFrom, EpicsAccepted, Placed, Ids, CarriedOver, DraftKey, Subsumes;
    assert t.outcomes[0] == Outcome(input, input.areas[0]) && t.outcomes[1] == Outcome(input, input.areas[1]);
    assert Gathered(t.outcomes, 0) == [] && Gathered(t.outcomes, 1) == [d] && Gathered(t.outcomes, 2) == [d, e];
    TwoDrafts(d, e, t.drafts, t.dropped);
    TwoAreas(t.drafts, d, e);
    assert AllDrafts(t) == t.drafts;
  }

  const ONE: Draft := DraftFor("a", [Step(1, FIRST)])
  const OTHER: Draft := DraftFor("b", [Step(1, SECOND)])

  lemma OneIsNotOther()
    ensures DraftKey(ONE) != DraftKey(OTHER) && ONE.areaId != OTHER.areaId
  {
    assert ONE.milestones[0].claimId == "c" && OTHER.milestones[0].claimId == "c2";
    PathsDiffer(ONE.milestones, OTHER.milestones, "c");
  }

  lemma CarryingPasses(t: Trace)
    requires Passed(CARRYING, Silent(), SlugIs("n"), t) && Ran(CARRYING, t)
    ensures t.pass.Refused? && forall n | 0 <= n < |AllDrafts(t)| :: AllDrafts(t)[n] == ONE || AllDrafts(t)[n] == OTHER
  {
    assert CARRYING.areas == [ALPHA, BETA];
    hide CARRYING, ONE, OTHER, ALPHA, BETA, Passed, Ran, Outcome, DraftKey;
    CarryingOutcomes(CARRYING);
    OneIsNotOther();
    TwoUnitsPass(CARRYING, ALPHA, BETA, ONE, OTHER, SlugIs("n"), t);
  }

  lemma TwoAreas(drafts: seq<Draft>, d: Draft, e: Draft)
    requires d in drafts && e in drafts && d.areaId != e.areaId
    ensures SeveralAreas(drafts)
  {
    var areas := set x | x in drafts :: x.areaId;
    SubsetSize({d.areaId, e.areaId}, areas);
  }

  lemma CarryingWrites(t: Trace, s: Synthesis)
    requires Passed(CARRYING, Silent(), SlugIs("n"), t) && Ran(CARRYING, t) && ReportsFlows(CARRYING, t, s)
    ensures WritesSchema(s)
  {
    hide CARRYING, ONE, OTHER, Passed, Ran, ReportsFlows, GivenMeetsSchema, SchemaDraft, WritesSchema;
    CarryingPasses(t);
    CarryingIsGiven();
    DraftsMeetSchema();
    TwoDraftsWrite(CARRYING, ONE, OTHER, t, s);
  }

  lemma CarriedStands(input: Inputs, t: Trace, s: Synthesis, f: Flow)
    requires ReportsFlows(input, t, s) && f in t.carried
    ensures f.id in s.carried && exists m :: 0 <= m < |s.flows| && s.flows[m] == f
  {
    hide IdsWhere, RefsInside, AllDrafts, IdList;
    var k :| 0 <= k < |t.carried| && t.carried[k] == f;
    assert s.flows[|t.out| + k] == f;
    IdIsListed(t.carried, k);
  }

  lemma EpicIsCarried(t: Trace, s: Synthesis)
    requires Passed(CARRYING, Silent(), SlugIs("n"), t) && Ran(CARRYING, t) && ReportsFlows(CARRYING, t, s)
    ensures "e" in s.carried && NamesWritten(s.flows, "e")
    ensures exists m :: 0 <= m < |s.flows| && s.flows[m].id == "e" && s.flows[m].composedOf == ["x", "y"]
  {
    CarryingPasses(t);
    EpicsGoToThePass(CARRYING.areas);
    assert EPIC in CARRYING.previous by { assert COMMITTED[2] == EPIC; }
    EpicAndDrafts();
    hide CARRYING, EPIC, Passed, Ran, ReportsFlows, PlaceOf, UnitAmong;
    RanGives(CARRYING, t);
    CarriedExactlyWhen(CARRYING, t, EPIC);
    CarriedStands(CARRYING, t, s, EPIC);
  }

  lemma EpicsGoToThePass(areas: seq<Area>)
    ensures PlaceOf(EPIC, areas) == EpicPass
  {
  }

  // --- An id given again ---------------------------------------------------------------------------------------------

  const EMPTIED: Inputs := Start([], [GONE], map[])

  function Afterwards(previous: seq<Flow>): Inputs {
    Start([ALPHA], previous, map["a" := FlowSet([Answer(["c"])], [], [])])
  }

  /** A flow of the next run is given the id of a flow the run before retired. */
  method RetiredIdComesBack() returns (s: Synthesis, r: Synthesis)
    ensures GivenMeetsSchema(EMPTIED) && "x" in IdList(RetiredFlows(s.retired))
    ensures GivenMeetsSchema(Afterwards(s.flows)) && WritesSchema(r) && "x" in r.added
  {
    hide Ran, Passed, ReportsFlows, ReportsRetired, ReportsNoFlow, NamesWritten, IdList, RetiredFlows, GoesOneWay,
         WrittenAsReported, ValidCorpus;
    EmptiedIsGiven();
    ghost var t, u;
    s, t := SynthesizeFlows(EMPTIED, Silent(), SlugIs("x"));
    EmptiedWritesNothing(t, s);
    AfterwardsIsGiven();
    r, u := SynthesizeFlows(Afterwards([]), Silent(), SlugIs("x"));
    AfterwardsAdds(u, r);
    assert "x" in Ids(EMPTIED.previous) by { assert EMPTIED.previous[0].id == "x"; }
  }

  lemma EmptiedIsGiven()
    ensures ValidCorpus(EMPTIED.previous) && GivenMeetsSchema(EMPTIED)
  {
    CommittedIsValid();
    ClaimsOfAreas();
    assert COMMITTED[0] == GONE;
  }

  lemma AfterwardsIsGiven()
    ensures ValidCorpus([]) && GivenMeetsSchema(Afterwards([]))
  {
    AnswersMeetSchema();
    ClaimsOfAreas();
    hide SchemaAnswer, SchemaFlow, Answer;
  }

  /** With no area left, nothing is written and what was committed is retired. */
  lemma EmptiedWritesNothing(t: Trace, s: Synthesis)
    requires Passed(EMPTIED, Silent(), SlugIs("x"), t) && Ran(EMPTIED, t) && ReportsFlows(EMPTIED, t, s)
    requires ReportsRetired(EMPTIED, t, s)
    ensures s.flows == [] && "x" in IdList(RetiredFlows(s.retired))
  {
    hide Identified, OutcomesSound, NamedFrom, EpicsAccepted, Ids, IdList, RetiredFlows, ReportsRetired;
    EmptiedIsGiven();
    GoneLeaves([]);
    assert EMPTIED.previous[0] == GONE;
    RetiredExactlyWhen(EMPTIED, t, s, GONE);
    NoDraft(t.drafts, t.dropped);
    assert !SeveralAreas(t.drafts) by { assert (set x | x in t.drafts :: x.areaId) == {}; }
    assert AllDrafts(t) == [] && t.carried == [];
  }

  lemma AfterwardsOutcome(input: Inputs)
    requires input == Afterwards([])
    ensures Outcome(input, ALPHA).Some? && Outcome(input, ALPHA).value.flows == [ONE]
  {
    PlainWords();
    hide Validate, FoldAccepts, Placed, Answer, Trim;
    assert AreaKey(ALPHA) == "a";
    OneClaimSettles("a", FIRST, Placed(input.previous, input.areas, Unit("a")));
  }

  /** Where one unit settles with one draft, that is all there is. */
  lemma LoneDraftPasses(input: Inputs, unit: Area, d: Draft, slug: string -> string, t: Trace)
    requires input.areas == [unit] && Outcome(input, unit).Some? && Outcome(input, unit).value.flows == [d]
    requires Passed(input, Silent(), slug, t) && Ran(input, t)
    ensures AllDrafts(t) == [d]
  {
    hide Outcome, Identified, OutcomesSound, NamedFrom, EpicsAccepted, Placed, Ids, CarriedOver, DraftKey;
    assert t.outcomes[0] == Outcome(input, input.areas[0]);
    assert Gathered(t.outcomes, 0) == [] && Gathered(t.outcomes, 1) == [d];
    LoneDraft(d, t.drafts, t.dropped);
    assert !SeveralAreas(t.drafts) by { assert (set x | x in t.drafts :: x.areaId) == {d.areaId}; }
    assert AllDrafts(t) == t.drafts;
  }

  lemma AfterwardsPasses(t: Trace)
    requires Passed(Afterwards([]), Silent(), SlugIs("x"), t) && Ran(Afterwards([]), t)
    ensures AllDrafts(t) == [ONE]
  {
    AfterwardsOutcome(Afterwards([]));
    assert Afterwards([]).areas == [ALPHA];
    hide Afterwards, ONE, ALPHA, Passed, Ran, Outcome;
    LoneDraftPasses(Afterwards([]), ALPHA, ONE, SlugIs("x"), t);
  }

  lemma LoneDraft(d: Draft, kept: seq<Draft>, dropped: seq<Dropped>)
    requires Subsumes([d], kept, dropped)
    ensures kept == [d]
  {
    KeptAreDrafts([d], kept, dropped);
    assert Survives(kept, [d][0]);
    var rest := multiset(DroppedDrafts(dropped));
    assert multiset([d])[d] == 1 && multiset(kept)[d] + rest[d] == 1;
    assert |multiset(kept)| + |rest| == |multiset([d])| == 1;
    assert |kept| == 1 && kept[0] in kept;
  }

  /** A lone draft of a run that starts from an empty corpus is added under its slug. */
  lemma LoneDraftIsAdded(input: Inputs, d: Draft, t: Trace, s: Synthesis)
    requires input.previous == [] && AllDrafts(t) == [d]
    requires Passed(input, Silent(), SlugIs("x"), t) && Ran(input, t) && ReportsFlows(input, t, s)
    ensures "x" in s.added
  {
    assert Reconcilable(input, t.carried) == [];
    assert ComesToIt(input, SlugIs("x"), t, 0, "x");
    hide Ran, ReportsFlows, AllDrafts, ComesToIt;
    AddedComesToIt(input, SlugIs("x"), t, s, "x");
  }

  lemma LoneDraftWrites(input: Inputs, d: Draft, t: Trace, s: Synthesis)
    requires ValidCorpus(input.previous) && GivenMeetsSchema(input) && SchemaDraft(d) && AllDrafts(t) == [d]
    requires Passed(input, Silent(), SlugIs("x"), t) && Ran(input, t) && ReportsFlows(input, t, s)
    ensures WritesSchema(s)
  {
    hide Ran, ReportsFlows, SchemaDraft, SchemaFlow, AllDrafts;
    assert NamedFrom(input, SlugIs("x"), t);
    WrittenMeetsSchema(input, SlugIs("x"), t, s);
  }

  lemma AfterwardsAdds(t: Trace, s: Synthesis)
    requires Passed(Afterwards([]), Silent(), SlugIs("x"), t) && Ran(Afterwards([]), t)
    requires ReportsFlows(Afterwards([]), t, s)
    ensures WritesSchema(s) && "x" in s.added
  {
    assert Afterwards([]).previous == [];
    hide Afterwards, ONE, Passed, Ran, ReportsFlows, GivenMeetsSchema, SchemaDraft, WritesSchema;
    AfterwardsPasses(t);
    AfterwardsIsGiven();
    DraftsMeetSchema();
    LoneDraftWrites(Afterwards([]), ONE, t, s);
    LoneDraftIsAdded(Afterwards([]), ONE, t, s);
  }
}
