/**
 * Two runs of the synthesis in a row (packages/guard-generator/src/flows.ts, `synthesizeFlows`), and what the schema
 * of the written file asks (packages/shared/src/guard/flows.ts).
 */
module FlowRuns {
  import opened Common
  import opened Text
  import opened FlowModel
  import opened FlowValidation
  import opened FlowIdentity
  import opened FlowFold
  import opened FlowEpics
  import opened FlowCorpus
  import opened FlowComposition
  import opened FlowSharding
  import opened FlowSynthesis

  // --- Two runs in a row ------------------------------------------------------------------------

  /**
   * The next run starts from what this one wrote, so it protects a committed
   * id exactly when this one did not retire it.
   */
  lemma NextRunProtectsExactlyWhen(first: Inputs, t: Trace, s: Synthesis, second: Inputs, id: string)
    requires ValidCorpus(first.previous)
    requires Ran(first, t) && ReportsFlows(first, t, s) && ReportsRetired(first, t, s)
    requires second.previous == s.flows && id in Ids(first.previous)
    ensures id in Ids(second.previous) <==> id !in IdList(RetiredFlows(s.retired))
  {
    hide Ran, ReportsRetired, ReportsFlows, IdList, RetiredFlows, ValidCorpus;
    WrittenIdsAre(first, t, s, id);
    if id in s.added { AddedIsNew(first, t, s, id); }
    IdsAre(s.flows, id);
    if id in Ids(s.flows) {
      var f :| f in s.flows && f.id == id;
      var m :| 0 <= m < |s.flows| && s.flows[m] == f;
      assert NamesWritten(s.flows, id);
    }
  }

  /**
   * The run's `n`-th draft is new, and its slug comes to the id past the corpus and the names given before it: the
   * slug is the id, or is taken and has it for its least free suffix.
   */
  ghost predicate ComesToIt(input: Inputs, slug: string -> string, t: Trace, n: nat, id: string) {
    var drafts, prev, used := AllDrafts(t), Reconcilable(input, t.carried), Ids(input.previous);
    && n < |drafts| && IsNew(prev, drafts, n)
    && ComesTo(slug(drafts[n].title), used + NamesGiven(used, slug, ToFlows(drafts), NewDrafts(prev, drafts), n), id)
  }

  /** The ids a run gives out are exactly what some new draft's slug comes to. */
  lemma AddedComesToIt(input: Inputs, slug: string -> string, t: Trace, s: Synthesis, id: string)
    requires ValidCorpus(input.previous) && Ran(input, t) && ReportsFlows(input, t, s) && NamedFrom(input, slug, t)
    ensures id in s.added <==> exists n: nat :: ComesToIt(input, slug, t, n, id)
  {
    hide Ran, ReportsFlows, Reconcilable, CarriedOver, IsNew, NamedFrom, ComesTo, FreeIdOf;
    var drafts, prev, used := AllDrafts(t), Reconcilable(input, t.carried), Ids(input.previous);
    var unnamed := NewDrafts(prev, drafts);
    RanGives(input, t);
    CorpusDistinct(input.previous);
    CarriedOverAre(input, t.outcomes, t.pass);
    ReconcilableAre(input, t.carried);
    AddedExactly(input, slug, t, s, id);
    NamesGivenAre(used, slug, ToFlows(drafts), unnamed, |drafts|, id);
    forall n: nat | n < |drafts|
      ensures n in unnamed && NameOf(used, slug, ToFlows(drafts), unnamed, n) == id <==>
                ComesToIt(input, slug, t, n, id)
    {
      assert ToFlows(drafts)[n].title == drafts[n].title;
      FreeIdOfExactly(slug(drafts[n].title), used + NamesGiven(used, slug, ToFlows(drafts), unnamed, n), id);
    }
  }

  /**
   * An id once committed is given out by the next run exactly when the first run
   * retired it and some new flow's slug comes to it.
   */
  lemma RetiredIdIsGivenAgain(first: Inputs, t: Trace, s: Synthesis, second: Inputs, slug: string -> string,
                              u: Trace, r: Synthesis, id: string)
    requires ValidCorpus(first.previous) && ValidCorpus(second.previous)
    requires Ran(first, t) && ReportsFlows(first, t, s) && ReportsRetired(first, t, s) && id in Ids(first.previous)
    requires second.previous == s.flows
    requires NamedFrom(second, slug, u) && Ran(second, u) && ReportsFlows(second, u, r)
    ensures id in r.added <==>
              id in IdList(RetiredFlows(s.retired)) && exists n: nat :: ComesToIt(second, slug, u, n, id)
  {
    hide Ran, ReportsRetired, ReportsFlows, NamedFrom, ComesToIt, IdList, RetiredFlows, ValidCorpus;
    NextRunProtectsExactlyWhen(first, t, s, second, id);
    AddedComesToIt(second, slug, u, r, id);
    if id in r.added { AddedIsNew(second, u, r, id); }
  }

  /**
   * A retired suffix comes back for a flow of another slug: with `x` written
   * and `x-2` retired, the slug `x` comes to `x-2`.
   */
  lemma RetiredSuffixComesBack()
    ensures FreeIdOf("x", {"x"}) == "x-2"
  {
    assert Candidate("x", 2) == "x-2" by { assert Decimal(2) == "2"; }
    assert "x" != "x-2" by { assert |"x"| != |"x-2"|; }
    FreeIdOfExactly("x", {"x"}, "x-2");
    assert AllTaken("x", {"x"}, 2);
  }

  // --- What the file's schema asks ---------------------------------------------------------------------

  predicate Stated(sentences: seq<string>) { sentences != [] && forall i | 0 <= i < |sentences| :: sentences[i] != "" }

  predicate SchemaMilestone(m: Milestone) {
    m.order > 0 && m.doc != "" && m.claimId != "" && m.claimTitle != "" && Stated(m.sentences)
  }

  predicate SchemaPath(milestones: seq<Milestone>) {
    milestones != [] && forall i | 0 <= i < |milestones| :: SchemaMilestone(milestones[i])
  }

  predicate SchemaFlow(f: Flow) { f.id != "" && f.title != "" && f.goal != "" && SchemaPath(f.milestones) }

  predicate SchemaDraft(d: Draft) { d.title != "" && d.goal != "" && SchemaPath(d.milestones) }

  predicate SchemaAnswer(answer: FlowSet) {
    forall i | 0 <= i < |answer.flows| ::
      var flow := answer.flows[i];
      && flow.title != "" && flow.goal != "" && flow.milestones != []
      && forall j | 0 <= j < |flow.milestones| :: flow.milestones[j].claimId != ""
  }

  lemma NamedIsNotEmpty(base: string, taken: set<string>)
    requires base != ""
    ensures FreeIdOf(base, taken) != ""
  {
  }

  lemma {:induction false} FoundIsStated(claims: seq<Claim>, id: string)
    requires forall c | c in claims :: Stated(c.sentences)
    ensures FindClaim(claims, id).Some? ==> Stated(FindClaim(claims, id).value.sentences)
  {
    FoundClaimIsListed(claims, id);
  }

  lemma RefreshedMeetsSchema(f: Flow, live: seq<Claim>)
    requires SchemaFlow(f) && forall c | c in live :: Stated(c.sentences)
    ensures SchemaFlow(Refreshed(f, live))
  {
    forall i | 0 <= i < |f.milestones|
      ensures SchemaMilestone(Refreshed(f, live).milestones[i])
    {
      FoundIsStated(live, Trim(f.milestones[i].claimId));
    }
  }

  /** What is written meets the schema, when what was committed, the claims' sentences and the drafts do. */
  lemma WrittenMeetsSchema(input: Inputs, slug: string -> string, t: Trace, s: Synthesis)
    requires ValidCorpus(input.previous) && Ran(input, t) && ReportsFlows(input, t, s) && NamedFrom(input, slug, t)
    requires (forall f | f in input.previous :: SchemaFlow(f))
    requires (forall c | c in AllClaims(input.areas) :: Stated(c.sentences))
    requires (forall n | 0 <= n < |AllDrafts(t)| :: SchemaDraft(AllDrafts(t)[n])) && forall title :: slug(title) != ""
    ensures forall f | f in s.flows :: SchemaFlow(f)
  {
    hide SchemaFlow, SchemaDraft, OutcomesSound, Subsumes, EpicSound, Reconcilable, CarriedOver, Resolves, Becomes,
         IdsWhere, AllDrafts, AllClaims, NameOf;
    RanGives(input, t);
    CorpusDistinct(input.previous);
    CarriedOverAre(input, t.outcomes, t.pass);
    ReconcilableAre(input, t.carried);
    var prev, live, used := Reconcilable(input, t.carried), AllClaims(input.areas), Ids(input.previous);
    forall n | 0 <= n < |t.out|
      ensures SchemaFlow(s.flows[n])
    {
      var d := AllDrafts(t)[n];
      assert Becomes(prev, used, live, ToFlow(d), t.verdicts[n], t.out[n]);
      if t.verdicts[n].New? { assert t.out[n].id == NameOf(used, slug, ToFlows(AllDrafts(t)), NewOnes(t.verdicts), n); }
      ProducedMeetsSchema(slug, prev, used, live, AllDrafts(t), n, t.verdicts, t.out[n]);
      SameSchema(t.out[n], s.flows[n]);
    }
    forall f | f in s.flows
      ensures SchemaFlow(f)
    {
      var m :| 0 <= m < |s.flows| && s.flows[m] == f;
      if m >= |t.out| { assert t.carried[m - |t.out|] in t.carried; }
    }
  }

  lemma SameSchema(f: Flow, g: Flow)
    requires SchemaFlow(f) && SameButComposition(f, g)
    ensures SchemaFlow(g)
  {
  }

  lemma ProducedMeetsSchema(slug: string -> string, prev: seq<Flow>, used: set<string>, live: seq<Claim>,
                            drafts: seq<Draft>,
                            n: nat, verdicts: seq<Verdict>, out: Flow)
    requires n < |drafts| == |verdicts| && SchemaDraft(drafts[n])
    requires Becomes(prev, used, live, ToFlow(drafts[n]), verdicts[n], out)
    requires (forall f | f in prev :: SchemaFlow(f)) && (forall c | c in live :: Stated(c.sentences))
               && forall title :: slug(title) != ""
    requires verdicts[n].New? ==> out.id == NameOf(used, slug, ToFlows(drafts), NewOnes(verdicts), n)
    ensures SchemaFlow(out)
  {
    hide Refreshed, SchemaPath, NamesGiven;
    match verdicts[n]
    case New => NamedIsNotEmpty(slug(ToFlows(drafts)[n].title),
                                used + NamesGiven(used, slug, ToFlows(drafts), NewOnes(verdicts), n));
    case Remap(p) =>
      assert prev[p] in prev;
      RefreshedMeetsSchema(prev[p], live);
    case Amended(p) => assert prev[p] in prev && SchemaFlow(prev[p]);
  }

  // --- Units of one key ----------------------------------------------------------------------------------

  /** When two units of one key do not settle, the corpus written repeats the ids of the flows they had. */
  lemma SharedKeyRepeatsIds(input: Inputs, t: Trace, s: Synthesis, i: nat, j: nat, f: Flow)
    requires Ran(input, t) && ReportsFlows(input, t, s) && |t.outcomes| == |input.areas|
    requires i < j < |input.areas| && AreaKey(input.areas[i]) == AreaKey(input.areas[j])
    requires t.outcomes[i].None? && t.outcomes[j].None?
    requires f in input.previous && PlaceOf(f, input.areas) == Unit(AreaKey(input.areas[j]))
    ensures !DistinctIds(s.flows)
  {
    hide OutcomesSound, Subsumes, EpicSound, Identified, CarriedFlows, PlaceOf, AreaKey, IdsWhere, RefsInside;
    SharedKeyCarriesTwice(input, t.outcomes, |t.outcomes|, i, j, f);
    var carried := CarriedFlows(input, t.outcomes, |t.outcomes|);
    var p, q :| 0 <= p < q < |carried| && carried[p].id == carried[q].id;
    assert t.carried[p] == carried[p] && t.carried[q] == carried[q];
    assert s.flows[|t.out| + p].id == s.flows[|t.out| + q].id;
  }
}
