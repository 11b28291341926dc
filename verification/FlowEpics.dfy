/**
 * The epic pass (packages/guard-generator/src/flows.ts, `buildEpicDrafts`): what a session's epics become over the
 * flows they chain. References are the digest labels `F1`, `F2`, … of the composed flows.
 */
module FlowEpics {
  import opened Common
  import opened Text
  import opened FlowModel
  import opened FlowValidation

  datatype SynthEpic = SynthEpic(
    id: Option<string>, title: string, goal: string, startingState: Option<string>,
    composedOf: seq<string>, milestones: seq<SynthMilestone>)

  datatype EpicSet = EpicSet(epics: seq<SynthEpic>, retired: seq<Retirement>)

  // --- References -------------------------------------------------------------------

  function Label(i: nat): string { "F" + Decimal(i + 1) }

  /** Upper case, as far as labels can tell: no other character's upper case is a single `F` or a digit. */
  function Upper(s: string): string {
    seq(|s|, i requires 0 <= i < |s| => if 'a' <= s[i] <= 'z' then s[i] - 'a' + 'A' else s[i])
  }

  /** The flow a reference names, among the first `n`. */
  function FlowAt(ref: string, n: nat): Option<nat> {
    if n == 0 then None else if Label(n - 1) == Upper(Trim(ref)) then Some(n - 1) else FlowAt(ref, n - 1)
  }

  lemma LabelsDiffer(a: nat, b: nat)
    requires Label(a) == Label(b)
    ensures a == b
  {
    assert Label(a)[1..] == Decimal(a + 1) && Label(b)[1..] == Decimal(b + 1);
    DecimalIsInjective(a + 1, b + 1);
  }

  /** A reference names the one flow it is the label of. */
  lemma {:induction false} FlowAtIsTheLabelled(ref: string, n: nat, i: nat)
    ensures FlowAt(ref, n) == Some(i) <==> i < n && Label(i) == Upper(Trim(ref))
  {
    hide Label, Upper, Trim;
    if n > 0 {
      FlowAtIsTheLabelled(ref, n - 1, i);
      if Label(i) == Label(n - 1) { LabelsDiffer(i, n - 1); }
    }
  }

  /** The flows an epic names, each once, in the order first named. */
  function RefsOf(composedOf: seq<string>, n: nat): seq<nat> {
    if composedOf == [] then []
    else
      var front, at := RefsOf(composedOf[..|composedOf| - 1], n), FlowAt(composedOf[|composedOf| - 1], n);
      if at.Some? && at.value !in front then front + [at.value] else front
  }

  function RefIssues(composedOf: seq<string>, n: nat): seq<Issue> {
    if composedOf == [] then []
    else
      var last := composedOf[|composedOf| - 1];
      RefIssues(composedOf[..|composedOf| - 1], n) + (if FlowAt(last, n).None? then [UnknownFlowRef(last)] else [])
  }

  ghost predicate NamesFlow(composedOf: seq<string>, n: nat, r: nat) {
    exists i :: 0 <= i < |composedOf| && FlowAt(composedOf[i], n) == Some(r)
  }

  lemma NamesFlowAppend(front: seq<string>, last: string, n: nat, r: nat)
    ensures NamesFlow(front + [last], n, r) <==> NamesFlow(front, n, r) || FlowAt(last, n) == Some(r)
  {
    var all := front + [last];
    assert all[|front|] == last;
    assert forall i | 0 <= i < |front| :: all[i] == front[i];
  }

  lemma {:induction false} RefsAre(composedOf: seq<string>, n: nat)
    ensures forall r :: r in RefsOf(composedOf, n) <==> NamesFlow(composedOf, n, r)
    ensures forall r | r in RefsOf(composedOf, n) :: r < n
    ensures forall i, j | 0 <= i < j < |RefsOf(composedOf, n)| :: RefsOf(composedOf, n)[i] != RefsOf(composedOf, n)[j]
  {
    hide FlowAt, NamesFlow;
    if composedOf == [] {
      forall r: nat
        ensures !NamesFlow(composedOf, n, r)
      {
        NamesNoFlow(n, r);
      }
    } else {
      var front, last := composedOf[..|composedOf| - 1], composedOf[|composedOf| - 1];
      RefsAre(front, n);
      var at := FlowAt(last, n);
      if at.Some? { FlowAtIsTheLabelled(last, n, at.value); }
      assert composedOf == front + [last];
      forall r: nat
        ensures r in RefsOf(composedOf, n) <==> NamesFlow(composedOf, n, r)
      {
        NamesFlowAppend(front, last, n, r);
      }
    }
  }

  lemma NamesNoFlow(n: nat, r: nat)
    ensures !NamesFlow([], n, r)
  {
  }

  // --- Milestones -----------------------------------------------------------------------

  /** The claims of the chained flows: all an epic may speak of. */
  function Allowed(flows: seq<Draft>, refs: seq<nat>): set<string> {
    set r, m | r in refs && r < |flows| && m in flows[r].milestones :: m.claimId
  }

  predicate Within(claims: seq<Claim>, allowed: set<string>, ref: string) {
    Snap(claims, ref).Some? && Snap(claims, ref).value.id in allowed
  }

  function SnapWithin(claims: seq<Claim>, allowed: set<string>, ms: seq<SynthMilestone>): seq<Entry> {
    if ms == [] then []
    else
      var last := ms[|ms| - 1];
      SnapWithin(claims, allowed, ms[..|ms| - 1])
      + (if Within(claims, allowed, last.claimId) then [Entry(last.order, last.note, Snap(claims, last.claimId).value)]
         else [])
  }

  function Outside(claims: seq<Claim>, allowed: set<string>, ms: seq<SynthMilestone>): seq<Issue> {
    if ms == [] then []
    else
      var last := ms[|ms| - 1];
      Outside(claims, allowed, ms[..|ms| - 1])
      + (if Within(claims, allowed, last.claimId) then [] else [UnknownClaim(last.claimId)])
  }

  lemma {:induction false} SnappedWithin(claims: seq<Claim>, allowed: set<string>, ms: seq<SynthMilestone>)
    ensures forall e | e in SnapWithin(claims, allowed, ms) :: e.claim.id in allowed && e.claim in claims
  {
    if ms != [] {
      SnappedWithin(claims, allowed, ms[..|ms| - 1]);
      FoundClaimIsListed(claims, Trim(ms[|ms| - 1].claimId));
    }
  }

  // --- Drafts ---------------------------------------------------------------------------

  function EpicDraft(epic: SynthEpic, flows: seq<Draft>, claims: seq<Claim>): Draft {
    var refs := RefsOf(epic.composedOf, |flows|);
    Draft("(epic)", NormalizeText(epic.title), NormalizeText(epic.goal), epic.startingState,
          Ordered(SnapWithin(claims, Allowed(flows, refs), epic.milestones)), refs, epic.id)
  }

  predicate Stands(draft: Draft) { |draft.composedRefs| >= 2 && |draft.milestones| >= 2 }

  function EpicsOf(epics: seq<SynthEpic>, flows: seq<Draft>, claims: seq<Claim>): seq<Draft> {
    if epics == [] then []
    else
      var draft := EpicDraft(epics[|epics| - 1], flows, claims);
      EpicsOf(epics[..|epics| - 1], flows, claims) + (if Stands(draft) then [draft] else [])
  }

  /** An epic of too few known flows is an issue only when it named several. */
  function OneEpicIssues(epic: SynthEpic, flows: seq<Draft>, claims: seq<Claim>): seq<Issue> {
    var refs := RefsOf(epic.composedOf, |flows|);
    RefIssues(epic.composedOf, |flows|)
    + (if |refs| >= 2 then Outside(claims, Allowed(flows, refs), epic.milestones)
       else if |epic.composedOf| >= 2 then [TooFewFlows(NormalizeText(epic.title))] else [])
  }

  function EpicIssues(epics: seq<SynthEpic>, flows: seq<Draft>, claims: seq<Claim>): seq<Issue> {
    if epics == [] then []
    else EpicIssues(epics[..|epics| - 1], flows, claims) + OneEpicIssues(epics[|epics| - 1], flows, claims)
  }

  ghost predicate Inventoried(claims: seq<Claim>, id: string) { exists c :: c in claims && c.id == id }

  /** An epic chains at least two distinct flows through at least two distinct claims, all of them theirs. */
  ghost predicate EpicSound(flows: seq<Draft>, claims: seq<Claim>, d: Draft) {
    && |d.composedRefs| >= 2
    && (forall i | 0 <= i < |d.composedRefs| :: d.composedRefs[i] < |flows|)
    && (forall i, j | 0 <= i < j < |d.composedRefs| :: d.composedRefs[i] != d.composedRefs[j])
    && |d.milestones| >= 2
    && (forall i, j | 0 <= i < j < |d.milestones| :: d.milestones[i].claimId != d.milestones[j].claimId)
    && (forall i | 0 <= i < |d.milestones| :: d.milestones[i].claimId in Allowed(flows, d.composedRefs))
    && (forall i | 0 <= i < |d.milestones| :: Inventoried(claims, d.milestones[i].claimId))
  }

  lemma EpicDraftSound(epic: SynthEpic, flows: seq<Draft>, claims: seq<Claim>)
    requires Stands(EpicDraft(epic, flows, claims))
    ensures EpicSound(flows, claims, EpicDraft(epic, flows, claims))
  {
    hide Ordered, SnapWithin, RefsOf, Allowed;
    var d := EpicDraft(epic, flows, claims);
    RefsAre(epic.composedOf, |flows|);
    var allowed := Allowed(flows, d.composedRefs);
    var entries := SnapWithin(claims, allowed, epic.milestones);
    SnappedWithin(claims, allowed, epic.milestones);
    OrderedPath(entries, "");
    assert forall i | 0 <= i < |d.composedRefs| :: d.composedRefs[i] in d.composedRefs;
    forall i | 0 <= i < |d.milestones|
      ensures d.milestones[i].claimId in allowed
      ensures Inventoried(claims, d.milestones[i].claimId)
    {
      OrderedPath(entries, d.milestones[i].claimId);
      var k :| 0 <= k < |entries| && entries[k].claim.id == d.milestones[i].claimId;
      assert entries[k] in entries;
    }
  }

  /** No epic smuggles in a claim its composed flows do not cover. */
  lemma {:induction false} EpicsAreSound(epics: seq<SynthEpic>, flows: seq<Draft>, claims: seq<Claim>)
    ensures forall d | d in EpicsOf(epics, flows, claims) :: EpicSound(flows, claims, d)
  {
    if epics != [] {
      EpicsAreSound(epics[..|epics| - 1], flows, claims);
      if Stands(EpicDraft(epics[|epics| - 1], flows, claims)) { EpicDraftSound(epics[|epics| - 1], flows, claims); }
    }
  }

  // --- The loops ------------------------------------------------------------------------

  method ResolveRefs(composedOf: seq<string>, n: nat) returns (refs: seq<nat>, unknown: seq<Issue>)
    ensures refs == RefsOf(composedOf, n) && unknown == RefIssues(composedOf, n)
  {
    refs, unknown := [], [];
    for i := 0 to |composedOf|
      invariant refs == RefsOf(composedOf[..i], n) && unknown == RefIssues(composedOf[..i], n)
    {
      assert composedOf[..i + 1][..i] == composedOf[..i];
      var at := FlowAt(composedOf[i], n);
      if at.None? {
        unknown := unknown + [UnknownFlowRef(composedOf[i])];
        continue;
      }
      if at.value !in refs { refs := refs + [at.value]; }
    }
    assert composedOf[..|composedOf|] == composedOf;
  }

  method SnapEpic(claims: seq<Claim>, allowed: set<string>, ms: seq<SynthMilestone>)
      returns (snapped: seq<Entry>, unknown: seq<Issue>)
    ensures snapped == SnapWithin(claims, allowed, ms) && unknown == Outside(claims, allowed, ms)
  {
    snapped, unknown := [], [];
    for k := 0 to |ms|
      invariant snapped == SnapWithin(claims, allowed, ms[..k]) && unknown == Outside(claims, allowed, ms[..k])
    {
      assert ms[..k + 1][..k] == ms[..k];
      var claim := Snap(claims, ms[k].claimId);
      if claim.None? || claim.value.id !in allowed {
        unknown := unknown + [UnknownClaim(ms[k].claimId)];
        continue;
      }
      snapped := snapped + [Entry(ms[k].order, ms[k].note, claim.value)];
    }
    assert ms[..|ms|] == ms;
  }

  method BuildEpic(epic: SynthEpic, flows: seq<Draft>, claims: seq<Claim>)
      returns (draft: Option<Draft>, unknown: seq<Issue>)
    ensures draft == if Stands(EpicDraft(epic, flows, claims)) then Some(EpicDraft(epic, flows, claims)) else None
    ensures unknown == OneEpicIssues(epic, flows, claims)
  {
    var refs;
    refs, unknown := ResolveRefs(epic.composedOf, |flows|);
    if |refs| < 2 {
      if |epic.composedOf| >= 2 { unknown := unknown + [TooFewFlows(NormalizeText(epic.title))]; }
      return None, unknown;
    }
    var snapped, outside := SnapEpic(claims, Allowed(flows, refs), epic.milestones);
    unknown := unknown + outside;
    var milestones := OrderMilestones(snapped);
    if |milestones| < 2 { return None, unknown; }
    draft := Some(Draft("(epic)", NormalizeText(epic.title), NormalizeText(epic.goal), epic.startingState, milestones,
                        refs, epic.id));
  }

  method BuildEpicDrafts(data: EpicSet, flows: seq<Draft>, claims: seq<Claim>, prior: seq<Flow>)
    returns (epics: seq<Draft>, retired: seq<Retirement>, unknown: seq<Issue>)
    ensures epics == Loosen(EpicsOf(data.epics, flows, claims), prior)
    ensures var built := EpicsOf(data.epics, flows, claims);
            && retired == RetiredOut(data.retired, prior, Continued(built, prior), ReEmitted(epics), false)
            && unknown == EpicIssues(data.epics, flows, claims)
                 + (ContinueIssues(built, prior, false)
                    + RetireIssues(data.retired, prior, Continued(built, prior), ReEmitted(epics), false))
    ensures forall d | d in epics :: EpicSound(flows, claims, d)
  {
    hide EpicDraft, OneEpicIssues, EpicSound;
    epics, unknown := [], [];
    for i := 0 to |data.epics|
      invariant epics == EpicsOf(data.epics[..i], flows, claims)
      invariant unknown == EpicIssues(data.epics[..i], flows, claims)
    {
      assert data.epics[..i + 1][..i] == data.epics[..i];
      var draft, issues := BuildEpic(data.epics[i], flows, claims);
      unknown := unknown + issues;
      if draft.Some? { epics := epics + [draft.value]; }
    }
    assert data.epics[..|data.epics|] == data.epics;
    EpicsAreSound(data.epics, flows, claims);
    var built := epics;
    var unaccounted, issues;
    epics, retired, unaccounted, issues := ReconcileAgainstPrior(built, data.retired, prior, false);
    unknown := unknown + issues;
    LooseEpicsSound(built, flows, claims, prior);
  }

  lemma LooseEpicsSound(built: seq<Draft>, flows: seq<Draft>, claims: seq<Claim>, prior: seq<Flow>)
    requires forall d | d in built :: EpicSound(flows, claims, d)
    ensures forall d | d in Loosen(built, prior) :: EpicSound(flows, claims, d)
  {
    forall i | 0 <= i < |built|
      ensures EpicSound(flows, claims, Loosen(built, prior)[i])
    {
      assert EpicSound(flows, claims, built[i]);
    }
  }
}
