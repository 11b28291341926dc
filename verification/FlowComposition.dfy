/**
 * What the flows of a written corpus are composed of, which committed ids are still written, and when a kept flow is
 * the committed one unchanged (packages/guard-generator/src/flows.ts, `synthesizeFlows`).
 */
module FlowComposition {
  // A committed epic that is carried, or inherited by a plain draft, keeps its composition as it stood. Whether
  // that still names written flows is decided exactly: each id must be one the run left in the corpus, or gave
  // out anew.

  import opened Common
  import opened Text
  import opened FlowModel
  import opened FlowValidation
  import opened FlowIdentity
  import opened FlowFold
  import opened FlowEpics
  import opened FlowCorpus

  // --- Composition --------------------------------------------------------------------------------

  predicate NamesWritten(flows: seq<Flow>, id: string) { exists m :: 0 <= m < |flows| && flows[m].id == id }

  /** A committed flow whose own composition was left as it stood. */
  ghost predicate CompositionAsCommitted(input: Inputs, s: Synthesis, g: Flow) {
    (g.id in s.kept || g.id in s.carried)
        && exists f :: f in input.previous && f.id == g.id && f.composedOf == g.composedOf
  }

  /** Every epic a session composed or re-composed names flows of the written corpus. */
  lemma CompositionIsWritten(input: Inputs, t: Trace, s: Synthesis, m: nat)
    requires ValidCorpus(input.previous) && m < |s.flows|
    requires Ran(input, t) && ReportsFlows(input, t, s)
    ensures (forall id | id in s.flows[m].composedOf :: NamesWritten(s.flows, id))
              || CompositionAsCommitted(input, s, s.flows[m])
  {
    hide Ran, Reconcilable, Ids, AtOnce, CarriedOver, IdsWhere, IdList, ValidCorpus, EpicsIn;
    var g := s.flows[m];
    RanGives(input, t);
    CarriedOverAre(input, t.outcomes, t.pass) by { CorpusDistinct(input.previous); }
    if m >= |t.out| {
      IdIsListed(t.carried, m - |t.out|);
      assert g in t.carried;
    } else if AllDrafts(t)[m].composedRefs == [] {
      ReconcilableAre(input, t.carried) by { CorpusDistinct(input.previous); }
      ListedUnderItsKind(t.out, t.verdicts, m, Remap(0));
      PlainComposition(input, t, m);
    } else {
      var refs := AllDrafts(t)[m].composedRefs;
      forall k | 0 <= k < |g.composedOf|
        ensures NamesWritten(s.flows, g.composedOf[k])
      {
        assert refs[k] in refs;
        assert s.flows[refs[k]].id == t.out[refs[k]].id;
      }
    }
  }

  lemma PlainComposition(input: Inputs, t: Trace, n: nat)
    requires Ran(input, t) && n < |t.out| == |t.verdicts| && |AllDrafts(t)| == |t.out|
    requires forall f | f in Reconcilable(input, t.carried) :: f in input.previous
    ensures t.out[n].composedOf == []
              || (t.verdicts[n].Remap?
                  && exists f :: f in input.previous && f.id == t.out[n].id && f.composedOf == t.out[n].composedOf)
  {
    hide Subsumes, EpicSound, CarriedOver, Reconcilable, Ids, AllClaims, AllDrafts, ClaimsOnce, StatementsHonoured,
         Unambiguous, Fingerprint;
    var prev, v := Reconcilable(input, t.carried), t.verdicts[n];
    assert Becomes(prev, Ids(input.previous), AllClaims(input.areas), ToFlow(AllDrafts(t)[n]), v, t.out[n]);
    if v.Remap? { assert prev[v.prior] in prev; }
  }

  // --- Which ids are written ------------------------------------------------------------------------

  /** An id the run gave out, or a committed one it did not retire. */
  ghost predicate StillWritten(input: Inputs, s: Synthesis, id: string) {
    id in s.added || (id in Ids(input.previous) && id !in IdList(RetiredFlows(s.retired)))
  }

  lemma ListedIsWritten(input: Inputs, t: Trace, s: Synthesis, id: string)
    requires ReportsFlows(input, t, s)
    requires id in s.kept || id in s.amended || id in s.added || id in s.carried
    ensures NamesWritten(s.flows, id)
  {
    hide IdsWhere, RefsInside;
    if id in s.carried {
      var k :| 0 <= k < |t.carried| && t.carried[k].id == id;
      assert s.flows[|t.out| + k].id == id;
    } else {
      var kind := if id in s.kept then Remap(0) else if id in s.amended then Amended(0) else New;
      IdsWhereAre(t.out, t.verdicts, kind, id);
      var n :| 0 <= n < |t.out| && t.out[n].id == id;
      assert s.flows[n].id == id;
    }
  }

  /** The written ids, exactly: those given out, and those committed and not retired. */
  lemma WrittenIdsAre(input: Inputs, t: Trace, s: Synthesis, id: string)
    requires ValidCorpus(input.previous)
    requires Ran(input, t) && ReportsFlows(input, t, s) && ReportsRetired(input, t, s)
    ensures NamesWritten(s.flows, id) <==> StillWritten(input, s, id)
  {
    hide Ran, ReportsRetired, ReportsFlows, IdList, RetiredFlows, GoesOneWay;
    CorpusDistinct(input.previous);
    IdsAre(input.previous, id);
    if NamesWritten(s.flows, id) {
      var m :| 0 <= m < |s.flows| && s.flows[m].id == id;
      EveryFlowIsReported(input, t, s, m);
      if id !in s.added {
        var f :| f in input.previous && f.id == id;
        EveryFlowGoesOneWay(input, t, s, f);
        OnlyOneWay(s, f);
      }
    }
    if StillWritten(input, s, id) {
      if id !in s.added {
        var f :| f in input.previous && f.id == id;
        EveryFlowGoesOneWay(input, t, s, f);
        OnlyOneWay(s, f);
      }
      ListedIsWritten(input, t, s, id);
    }
  }

  lemma OnlyOneWay(s: Synthesis, f: Flow)
    requires GoesOneWay(s, f)
    ensures f.id !in IdList(RetiredFlows(s.retired)) <==> f.id in s.kept || f.id in s.amended || f.id in s.carried
  {
  }

  // --- What retires a committed flow ----------------------------------------------------------------

  /** The place's session failed, so its flows stand as they were. */
  ghost predicate PlaceStands(input: Inputs, t: Trace, place: Place)
    requires |t.outcomes| == |input.areas|
  {
    UnitAmong(input, t.outcomes, |t.outcomes|, place) || (t.pass.Refused? && place.EpicPass?)
  }

  predicate States(d: Draft, f: Flow) { d.continues == Some(f.id) }

  predicate StatedBy(drafts: seq<Draft>, f: Flow) { exists n :: 0 <= n < |drafts| && States(drafts[n], f) }

  /** No statement of the draft is honoured: it makes none that names a flow, or an earlier draft named that flow. */
  predicate Unheard(prev: seq<Flow>, drafts: seq<Draft>, n: nat)
    requires n < |drafts|
  {
    forall f | f in prev && States(drafts[n], f) :: exists m :: 0 <= m < n && States(drafts[m], f)
  }

  /** The draft is the only unheard one to walk the flow's path, and the flow the only unstated one of that path. */
  predicate SoleWalker(prev: seq<Flow>, drafts: seq<Draft>, f: Flow, n: nat)
    requires n < |drafts|
  {
    && DraftKey(drafts[n]) == Key(f) && Unheard(prev, drafts, n)
    && (forall m | 0 <= m < |drafts| && m != n && Unheard(prev, drafts, m) :: DraftKey(drafts[m]) != Key(f))
    && (forall g | g in prev && g != f && !StatedBy(drafts, g) :: Key(g) != Key(f))
  }

  /** Some draft names the flow, or it and some draft are each the only one to walk their path; a tie is nobody's. */
  predicate HasSuccessor(prev: seq<Flow>, drafts: seq<Draft>, f: Flow) {
    StatedBy(drafts, f) || exists n: nat :: n < |drafts| && SoleWalker(prev, drafts, f, n)
  }

  /** A draft that continues no flow of the corpus. */
  predicate IsNew(prev: seq<Flow>, drafts: seq<Draft>, n: nat)
    requires n < |drafts|
  {
    Unheard(prev, drafts, n) && forall f | f in prev && !StatedBy(drafts, f) :: !SoleWalker(prev, drafts, f, n)
  }

  lemma NamesIsStates(prev: seq<Flow>, drafts: seq<Draft>, n: nat, p: nat)
    requires DistinctIds(prev) && p < |prev|
    ensures NamesPrior(prev, ContinuesOf(drafts), n, p) <==> n < |drafts| && States(drafts[n], prev[p])
  {
    if n < |drafts| {
      assert ContinuesOf(drafts)[n] == drafts[n].continues;
      if drafts[n].continues.Some? { LastWithIdFinds(prev, drafts[n].continues.value); }
    }
  }

  lemma NamedIsStated(prev: seq<Flow>, drafts: seq<Draft>, p: nat)
    requires DistinctIds(prev) && p < |prev|
    ensures Named(prev, ContinuesOf(drafts), p) <==> StatedBy(drafts, prev[p])
  {
    hide NamesPrior;
    forall n: nat
      ensures NamesPrior(prev, ContinuesOf(drafts), n, p) <==> n < |drafts| && States(drafts[n], prev[p])
    {
      NamesIsStates(prev, drafts, n, p);
    }
  }

  lemma NamesAFlow(prev: seq<Flow>, continues: seq<Option<string>>, n: nat, p: nat)
    requires NamesPrior(prev, continues, n, p)
    ensures p < |prev|
  {
    LastWithIdFinds(prev, continues[n].value);
  }

  lemma UnheardIsUnhonoured(prev: seq<Flow>, drafts: seq<Draft>, n: nat)
    requires DistinctIds(prev) && n < |drafts|
    ensures Unheard(prev, drafts, n) <==> !Honoured(prev, ContinuesOf(drafts), n)
  {
    hide NamesPrior, DistinctIds;
    var continues := ContinuesOf(drafts);
    forall m: nat, p: nat | p < |prev|
      ensures NamesPrior(prev, continues, m, p) <==> m < |drafts| && States(drafts[m], prev[p])
    {
      NamesIsStates(prev, drafts, m, p);
    }
    if Honoured(prev, continues, n) {
      var p: nat :| HonouredAt(prev, continues, n, p);
      NamesAFlow(prev, continues, n, p);
      assert prev[p] in prev;
    }
    if !Unheard(prev, drafts, n) {
      var f :| f in prev && States(drafts[n], f) && forall m | 0 <= m < n :: !States(drafts[m], f);
      var p: nat :| p < |prev| && prev[p] == f;
      assert HonouredAt(prev, continues, n, p);
    }
  }

  /** Where some draft names a flow, the first to do so is honoured. */
  lemma {:induction false} FirstIsHonoured(prev: seq<Flow>, continues: seq<Option<string>>, p: nat, n: nat)
      returns (first: nat)
    requires NamesPrior(prev, continues, n, p)
    ensures HonouredAt(prev, continues, first, p)
    decreases n
  {
    first := n;
    if m: nat :| m < n && NamesPrior(prev, continues, m, p) { first := FirstIsHonoured(prev, continues, p, m); }
  }

  /** What the resolution calls a lone match is, for a flow no draft names, a sole walker. */
  lemma LoneIsSole(prev: seq<Flow>, drafts: seq<Draft>, n: nat, p: nat)
    requires DistinctIds(prev) && n < |drafts| && p < |prev|
    ensures LoneMatch(prev, ToFlows(drafts), ContinuesOf(drafts), n, p) <==>
              !StatedBy(drafts, prev[p]) && SoleWalker(prev, drafts, prev[p], n)
  {
    hide Unheard, StatedBy, Honoured, Named, Fingerprint;
    var next, continues := ToFlows(drafts), ContinuesOf(drafts);
    forall m: nat | m < |drafts|
      ensures Key(next[m]) == DraftKey(drafts[m]) && (Unheard(prev, drafts, m) <==> !Honoured(prev, continues, m))
    {
      UnheardIsUnhonoured(prev, drafts, m);
    }
    forall q: nat | q < |prev|
      ensures Named(prev, continues, q) <==> StatedBy(drafts, prev[q])
      ensures prev[q] == prev[p] <==> q == p
    {
      NamedIsStated(prev, drafts, q);
    }
    hide DraftKey, Key;
    if LoneMatch(prev, next, continues, n, p) {
      forall g | g in prev && g != prev[p] && !StatedBy(drafts, g)
        ensures Key(g) != Key(prev[p])
      {
        var q: nat :| q < |prev| && prev[q] == g;
      }
    }
    if !StatedBy(drafts, prev[p]) && SoleWalker(prev, drafts, prev[p], n) {
      forall q: nat | q < |prev| && q != p && !Named(prev, continues, q)
        ensures Key(prev[q]) != Key(next[n])
      {
        assert prev[q] in prev;
      }
    }
  }

  /** Some draft of the run was found to be this committed flow. */
  ghost predicate FoundAgain(prev: seq<Flow>, verdicts: seq<Verdict>, f: Flow) {
    exists n :: 0 <= n < |verdicts| && !verdicts[n].New? && verdicts[n].prior < |prev| && prev[verdicts[n].prior] == f
  }

  /** Which flows are found again is decided by the drafts and their statements alone. */
  lemma SuccessorExactlyWhen(prev: seq<Flow>, drafts: seq<Draft>, verdicts: seq<Verdict>, claimed: set<nat>, p: nat)
    requires Resolves(prev, ToFlows(drafts), ContinuesOf(drafts), verdicts, claimed) && DistinctIds(prev) && p < |prev|
    ensures FoundAgain(prev, verdicts, prev[p]) <==> HasSuccessor(prev, drafts, prev[p])
  {
    hide ClaimsOnce, VerdictsFit, StatementsHonoured, LoneMatch, HonouredAt, SoleWalker;
    var continues := ContinuesOf(drafts);
    forall n: nat | n < |drafts|
      ensures LoneMatch(prev, ToFlows(drafts), continues, n, p) <==>
                !StatedBy(drafts, prev[p]) && SoleWalker(prev, drafts, prev[p], n)
    {
      LoneIsSole(prev, drafts, n, p);
    }
    if FoundAgain(prev, verdicts, prev[p]) {
      var n :| 0 <= n < |verdicts| && !verdicts[n].New? && verdicts[n].prior < |prev|
          && prev[verdicts[n].prior] == prev[p];
      OnePosition(prev, verdicts[n].prior, p);
      assert FlowIdentity.Claims(verdicts[n], p);
      if HonouredAt(prev, continues, n, p) { HonouredStates(prev, drafts, n, p); }
    }
    if StatedBy(drafts, prev[p]) {
      var n :| 0 <= n < |drafts| && States(drafts[n], prev[p]);
      NamesIsStates(prev, drafts, n, p);
      var first := FirstIsHonoured(prev, continues, p, n);
      HonouredIsInside(prev, continues, first, p);
      assert FlowIdentity.Claims(verdicts[first], p);
    } else if HasSuccessor(prev, drafts, prev[p]) {
      var n: nat :| n < |drafts| && SoleWalker(prev, drafts, prev[p], n);
      assert FlowIdentity.Claims(verdicts[n], p);
    }
  }

  lemma HonouredStates(prev: seq<Flow>, drafts: seq<Draft>, n: nat, p: nat)
    requires DistinctIds(prev) && p < |prev| && HonouredAt(prev, ContinuesOf(drafts), n, p)
    ensures StatedBy(drafts, prev[p])
  {
    NamesIsStates(prev, drafts, n, p);
  }

  lemma HonouredIsInside(prev: seq<Flow>, continues: seq<Option<string>>, n: nat, p: nat)
    requires HonouredAt(prev, continues, n, p)
    ensures n < |continues|
  {
  }

  /** So is which drafts are new. */
  lemma NewExactlyWhen(prev: seq<Flow>, drafts: seq<Draft>, verdicts: seq<Verdict>, claimed: set<nat>, n: nat)
    requires Resolves(prev, ToFlows(drafts), ContinuesOf(drafts), verdicts, claimed) && DistinctIds(prev)
    requires n < |drafts|
    ensures verdicts[n].New? <==> IsNew(prev, drafts, n)
  {
    hide VerdictsFit, StatementsHonoured, LoneMatch, HonouredAt, SoleWalker, Unheard;
    var next, continues := ToFlows(drafts), ContinuesOf(drafts);
    UnheardIsUnhonoured(prev, drafts, n);
    forall p: nat | p < |prev|
      ensures LoneMatch(prev, next, continues, n, p) <==>
                !StatedBy(drafts, prev[p]) && SoleWalker(prev, drafts, prev[p], n)
    {
      LoneIsSole(prev, drafts, n, p);
    }
    if verdicts[n].New? {
      forall p: nat
        ensures !HonouredAt(prev, continues, n, p) && !LoneMatch(prev, next, continues, n, p)
      {
        assert !FlowIdentity.Claims(verdicts[n], p) && !Inherits(prev, next, continues, n, p);
      }
      forall f | f in prev && !StatedBy(drafts, f)
        ensures !SoleWalker(prev, drafts, f, n)
      {
        var p: nat :| p < |prev| && prev[p] == f;
      }
    } else {
      var p := verdicts[n].prior;
      assert FlowIdentity.Claims(verdicts[n], p) && Inherits(prev, next, continues, n, p);
      if LoneMatch(prev, next, continues, n, p) { assert prev[p] in prev; }
    }
  }

  /** Sent to retirement by its place, or its place settled and the drafts give it no successor. */
  ghost predicate RetiredByRun(input: Inputs, t: Trace, f: Flow)
    requires |t.outcomes| == |input.areas|
  {
    var place := PlaceOf(f, input.areas);
    RetirementReason(place).Some?
        || (!PlaceStands(input, t, place) && !HasSuccessor(Reconcilable(input, t.carried), AllDrafts(t), f))
  }

  lemma CarriedExactlyWhen(input: Inputs, t: Trace, f: Flow)
    requires |t.outcomes| == |input.areas| && t.carried == CarriedOver(input, t.outcomes, t.pass)
    ensures f in t.carried <==> f in input.previous && PlaceStands(input, t, PlaceOf(f, input.areas))
  {
    hide CarriedFlows, Placed, PlaceOf, UnitAmong;
    CarriedAre(input, t.outcomes, |t.outcomes|);
    PlacedAre(input.previous, input.areas, EpicPass);
  }

  /** What the report retires is exactly that. */
  lemma RetiredExactlyWhen(input: Inputs, t: Trace, s: Synthesis, f: Flow)
    requires ValidCorpus(input.previous) && f in input.previous
    requires Ran(input, t) && ReportsFlows(input, t, s) && ReportsRetired(input, t, s)
    ensures |t.outcomes| == |input.areas|
    ensures f.id in IdList(RetiredFlows(s.retired)) <==> RetiredByRun(input, t, f)
  {
    hide Subsumes, EpicSound, CarriedOver, Recomposed, IdsWhere, VerdictsFit, StatementsHonoured, Unambiguous, Without,
         Ids, IdList, RetiredFlows, PlaceOf, PlaceStands, RetirementReason;
    RanGives(input, t);
    var prev := Reconcilable(input, t.carried);
    CorpusDistinct(input.previous);
    CarriedOverAre(input, t.outcomes, t.pass);
    ReconcilableAre(input, t.carried);
    RetiredAtOnceAre(input.previous, input.areas);
    RetiredAreCommitted(input, t, s);
    IdListHas(RetiredFlows(s.retired), f, input.previous);
    CarriedExactlyWhen(input, t, f);
    OrphanExactlyWhen(input, t, f);
    if f in prev {
      var p: nat :| p < |prev| && prev[p] == f;
      SuccessorExactlyWhen(prev, AllDrafts(t), t.verdicts, t.claimed, p);
    }
  }

  lemma OrphanExactlyWhen(input: Inputs, t: Trace, f: Flow)
    requires DistinctIds(Reconcilable(input, t.carried))
    requires ClaimsOnce(Reconcilable(input, t.carried), t.verdicts, t.claimed)
    ensures IsOrphan(Reconcilable(input, t.carried), t.claimed, f) <==>
              f in Reconcilable(input, t.carried) && !FoundAgain(Reconcilable(input, t.carried), t.verdicts, f)
  {
    hide Reconcilable, ClaimsOnce, IsOrphan;
    var prev := Reconcilable(input, t.carried);
    if f in prev {
      var p :| 0 <= p < |prev| && prev[p] == f;
      if p in t.claimed {
        ClaimedGoesByVerdict(prev, t.verdicts, t.claimed, p);
        var kind := if Verdicted(prev, t.verdicts, Remap(0), f) then Remap(0) else Amended(0);
        var n :| 0 <= n < |t.verdicts| && IsVerdictOn(prev, t.verdicts[n], kind, f);
      } else {
        UnclaimedIsOrphaned(prev, t.verdicts, t.claimed, p, Remap(0));
        UnclaimedIsOrphaned(prev, t.verdicts, t.claimed, p, Amended(0));
        forall n | 0 <= n < |t.verdicts| && !t.verdicts[n].New? && t.verdicts[n].prior < |prev|
          ensures prev[t.verdicts[n].prior] != f
        {
          assert !IsVerdictOn(prev, t.verdicts[n], Remap(0), f) && !IsVerdictOn(prev, t.verdicts[n], Amended(0), f);
        }
      }
    } else { assert !IsOrphan(prev, t.claimed, f) by { OrphanIsThere(prev, t.claimed, f); } }
  }

  lemma OrphanIsThere(prev: seq<Flow>, claimed: set<nat>, f: Flow)
    ensures IsOrphan(prev, claimed, f) ==> f in prev
  {
  }

  // --- A committed composition ----------------------------------------------------------------------

  ghost function NewDrafts(prev: seq<Flow>, drafts: seq<Draft>): set<nat> {
    set n: nat | n < |drafts| && IsNew(prev, drafts, n)
  }

  /** The ids given out: each new draft's in turn, from its slug. */
  ghost function NewIds(input: Inputs, slug: string -> string, t: Trace): set<string> {
    var drafts := AllDrafts(t);
    NamesGiven(Ids(input.previous), slug, ToFlows(drafts), NewDrafts(Reconcilable(input, t.carried), drafts), |drafts|)
  }

  lemma NewOnesAreNewDrafts(prev: seq<Flow>, drafts: seq<Draft>, verdicts: seq<Verdict>, claimed: set<nat>)
    requires Resolves(prev, ToFlows(drafts), ContinuesOf(drafts), verdicts, claimed) && DistinctIds(prev)
    ensures |verdicts| == |drafts| && NewOnes(verdicts) == NewDrafts(prev, drafts)
  {
    VerdictCount(prev, drafts, verdicts, claimed);
    hide Resolves, IsNew;
    forall n: nat | n < |drafts|
      ensures verdicts[n].New? <==> IsNew(prev, drafts, n)
    {
      NewExactlyWhen(prev, drafts, verdicts, claimed, n);
    }
  }

  /** The report adds exactly the ids given out. */
  lemma AddedExactly(input: Inputs, slug: string -> string, t: Trace, s: Synthesis, id: string)
    requires DistinctIds(Reconcilable(input, t.carried))
    requires Ran(input, t) && ReportsFlows(input, t, s) && NamedFrom(input, slug, t)
    ensures id in s.added <==> id in NewIds(input, slug, t)
  {
    hide OutcomesSound, Subsumes, EpicSound, CarriedOver, Reconcilable, Resolves, Becomes, RefsInside, IdsWhere,
         AllDrafts, NameOf, NewDrafts;
    var drafts, prev := AllDrafts(t), Reconcilable(input, t.carried);
    var used, next, unnamed := Ids(input.previous), ToFlows(AllDrafts(t)), NewOnes(t.verdicts);
    NewOnesAreNewDrafts(prev, drafts, t.verdicts, t.claimed);
    NamesGivenAre(used, slug, next, unnamed, |drafts|, id);
    IdsWhereAre(t.out, t.verdicts, New, id);
    assert forall n: nat | n < |drafts| && n in unnamed :: t.out[n].id == NameOf(used, slug, next, unnamed, n);
    if id in s.added {
      var n: nat :| n < |t.out| && SameKind(t.verdicts[n], New) && t.out[n].id == id;
      assert n in unnamed;
    }
    if id in NamesGiven(used, slug, next, unnamed, |drafts|) {
      var n: nat :| n < |drafts| && n in unnamed && NameOf(used, slug, next, unnamed, n) == id;
      assert SameKind(t.verdicts[n], New) && t.out[n].id == id;
    }
  }

  /** The id is given out by the run, or names a committed flow the run leaves in the corpus. */
  ghost predicate LeftWritten(input: Inputs, slug: string -> string, t: Trace, id: string)
    requires |t.outcomes| == |input.areas|
  {
    id in NewIds(input, slug, t) || exists f :: f in input.previous && f.id == id && !RetiredByRun(input, t, f)
  }

  /**
   * A committed composition left as it stood names written flows if and only if none of its ids was absent from
   * the committed corpus or is retired by the run, but for an id the run happens to give to another flow.
   */
  lemma CompositionStandsExactlyWhen(input: Inputs, slug: string -> string, t: Trace, s: Synthesis, m: nat)
    requires ValidCorpus(input.previous) && m < |s.flows|
    requires Ran(input, t) && ReportsFlows(input, t, s) && ReportsRetired(input, t, s) && NamedFrom(input, slug, t)
    requires CompositionAsCommitted(input, s, s.flows[m])
    ensures |t.outcomes| == |input.areas|
    ensures (forall id | id in s.flows[m].composedOf :: NamesWritten(s.flows, id)) <==>
            (forall id | id in s.flows[m].composedOf :: LeftWritten(input, slug, t, id))
  {
    hide Ran, ReportsRetired, ReportsFlows, LeftWritten, NamesWritten, NamedFrom;
    RanGives(input, t);
    forall id
      ensures NamesWritten(s.flows, id) <==> LeftWritten(input, slug, t, id)
    {
      WrittenIsLeft(input, slug, t, s, id);
    }
  }

  lemma WrittenIsLeft(input: Inputs, slug: string -> string, t: Trace, s: Synthesis, id: string)
    requires ValidCorpus(input.previous) && |t.outcomes| == |input.areas|
    requires Ran(input, t) && ReportsFlows(input, t, s) && ReportsRetired(input, t, s) && NamedFrom(input, slug, t)
    ensures NamesWritten(s.flows, id) <==> LeftWritten(input, slug, t, id)
  {
    hide Ran, ReportsRetired, ReportsFlows, IdList, RetiredFlows, RetiredByRun, NamesWritten, NamedFrom, NewIds,
         CarriedOver, Reconcilable;
    RanGives(input, t);
    CorpusDistinct(input.previous);
    CarriedOverAre(input, t.outcomes, t.pass);
    ReconcilableAre(input, t.carried);
    AddedExactly(input, slug, t, s, id);
    WrittenIdsAre(input, t, s, id);
    IdsAre(input.previous, id);
    forall f | f in input.previous && f.id == id
      ensures id in IdList(RetiredFlows(s.retired)) <==> RetiredByRun(input, t, f)
    {
      RetiredExactlyWhen(input, t, s, f);
    }
  }

  // --- A kept flow, byte for byte -------------------------------------------------------------------

  /** Each milestone's sentences are what its live claim says now. */
  predicate SentencesStand(f: Flow, live: seq<Claim>) {
    forall i | 0 <= i < |f.milestones| :: var claim := Snap(live, f.milestones[i].claimId); claim.Some? ==>
        claim.value.sentences == f.milestones[i].sentences
  }

  /**
   * A kept flow is the committed one unchanged exactly when its sentences
   * stand and no epic draft re-composed it otherwise.
   */
  lemma KeptIsIdenticalExactlyWhen(input: Inputs, t: Trace, s: Synthesis, n: nat)
    requires Ran(input, t) && ReportsFlows(input, t, s) && n < |t.out| && t.verdicts[n].Remap?
    ensures t.verdicts[n].prior < |Reconcilable(input, t.carried)|
    ensures var f := Reconcilable(input, t.carried)[t.verdicts[n].prior];
            s.flows[n] == f <==>
              && SentencesStand(f, AllClaims(input.areas))
              && (AllDrafts(t)[n].composedRefs == [] || Recomposed(t.out, AllDrafts(t), n).composedOf == f.composedOf)
  {
    hide Subsumes, EpicSound, CarriedOver, Reconcilable, Ids, AllClaims, AllDrafts, Resolves, Snap, IdsWhere;
    var prev, d, live := Reconcilable(input, t.carried), AllDrafts(t)[n], AllClaims(input.areas);
    assert Becomes(prev, Ids(input.previous), live, ToFlow(d), t.verdicts[n], t.out[n]);
    RefreshedIsSame(prev[t.verdicts[n].prior], live);
  }

  lemma RefreshedIsSame(f: Flow, live: seq<Claim>)
    ensures Refreshed(f, live).milestones == f.milestones <==> SentencesStand(f, live)
    ensures Refreshed(f, live) == f.(milestones := Refreshed(f, live).milestones)
  {
    hide Snap;
    var reread := Refreshed(f, live).milestones;
    forall i | 0 <= i < |f.milestones|
      ensures reread[i] == f.milestones[i] <==>
                (Snap(live, f.milestones[i].claimId).Some? ==>
                 Snap(live, f.milestones[i].claimId).value.sentences == f.milestones[i].sentences)
    {
      assert reread[i] == Reread(f.milestones[i], live);
    }
    if SentencesStand(f, live) { assert reread == f.milestones; }
  }

  lemma RefreshedKeeps(e: Flow, live: seq<Claim>)
    ensures Refreshed(e, live).id == e.id && Refreshed(e, live).composedOf == e.composedOf
  {
  }
}
