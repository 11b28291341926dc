/**
 * Matching one flow against one surface's catalog (packages/guard-generator/src/match.ts): a reply is
 * validated, repaired or partly retained over at most two calls, and every milestone must end up disposed
 * of exactly once: planned, or named by one gap.
 */
module RealizationMatching {
  import opened Common
  import opened Text

  datatype Milestone = Milestone(order: nat, claimTitle: string, doc: string, claimId: string)
  datatype Flow = Flow(id: string, milestones: seq<Milestone>)
  datatype Interface = Interface(id: string, title: string)
  type Catalog = seq<Interface>

  /** A reply's plan entry; an absent note is the empty one. */
  datatype PlanEntry = PlanEntry(interfaceId: string, milestone: nat, note: string)
  datatype GapKind = Mapping | Capability
  datatype Reason = Stated(text: string) | NoInterfaceFor(milestone: Milestone)
      | WithCorrectionFailure(reason: Reason, error: string)
  datatype Gap = Gap(milestone: nat, kind: GapKind, reason: Reason)
  datatype Match = Match(plan: seq<PlanEntry>, gaps: seq<Gap>, unrealizable: Option<string>)

  datatype PlanStep = PlanStep(iface: Interface, milestone: nat, note: string)

  datatype Issues = Issues(
    unknownInterfaces: seq<string>,
    unknownMilestones: seq<nat>,
    gapErrors: seq<GapError>,
    uncovered: seq<nat>)
  datatype GapError = UnknownMilestone(nat) | BothPlannedAndGap(nat) | DuplicateGap(nat)

  datatype Outcome =
    | Planned(steps: seq<PlanStep>, path: seq<Interface>, gaps: seq<Gap>, calls: nat)
    | OnlyGaps(gaps: seq<Gap>, calls: nat)
    | Error(calls: nat)
    | CreditsExhausted

  // --- Lookup ---------------------------------------------------------------------


  /** A `Map` built from the catalog: of two entries with one id the later wins. */
  function ById(catalog: Catalog, id: string): Option<Interface> {
    if catalog == [] then None
    else if catalog[|catalog| - 1].id == id then Some(catalog[|catalog| - 1])
    else ById(catalog[..|catalog| - 1], id)
  }

  function Lookup(catalog: Catalog, entry: PlanEntry): Option<Interface> { ById(catalog, Trim(entry.interfaceId)) }

  function Orders(flow: Flow): seq<nat> {
    seq(|flow.milestones|, i requires 0 <= i < |flow.milestones| => flow.milestones[i].order)
  }

  ghost predicate DistinctOrders(flow: Flow) {
    forall i, j | 0 <= i < j < |flow.milestones| :: flow.milestones[i].order != flow.milestones[j].order
  }

  lemma {:induction false} ByIdIsMember(catalog: Catalog, id: string)
    ensures ById(catalog, id).Some? ==> ById(catalog, id).value in catalog && ById(catalog, id).value.id == id
  {
    if catalog != [] && catalog[|catalog| - 1].id != id { ByIdIsMember(catalog[..|catalog| - 1], id); }
  }

  /** The catalog's last interface of the id, if it has one. */
  lemma {:induction false} ByIdIsLast(catalog: Catalog, id: string)
    ensures ById(catalog, id).None? <==> forall k | 0 <= k < |catalog| :: catalog[k].id != id
    ensures forall k | 0 <= k < |catalog| && catalog[k].id == id
              && forall l | k < l < |catalog| :: catalog[l].id != id ::
              ById(catalog, id) == Some(catalog[k])
  {
    if catalog != [] && catalog[|catalog| - 1].id != id {
      var front := catalog[..|catalog| - 1];
      ByIdIsLast(front, id);
      assert forall k | 0 <= k < |front| :: front[k] == catalog[k];
    }
  }

  // --- Validation --------------------------------------------------------------------

  predicate EntryValid(flow: Flow, catalog: Catalog, entry: PlanEntry) {
    Lookup(catalog, entry).Some? && entry.milestone in Orders(flow)
  }

  function ValidSteps(flow: Flow, catalog: Catalog, plan: seq<PlanEntry>): seq<PlanStep> {
    if plan == [] then []
    else
      var last := plan[|plan| - 1];
      ValidSteps(flow, catalog, plan[..|plan| - 1])
      + (if EntryValid(flow, catalog, last) then [PlanStep(Lookup(catalog, last).value, last.milestone, last.note)]
         else [])
  }

  predicate InPlan(plan: seq<PlanEntry>, milestone: nat) {
    exists i :: 0 <= i < |plan| && plan[i].milestone == milestone
  }

  predicate InGaps(gaps: seq<Gap>, milestone: nat) {
    exists i :: 0 <= i < |gaps| && gaps[i].milestone == milestone
  }

  ghost predicate DistinctGaps(gaps: seq<Gap>) {
    forall i, j | 0 <= i < j < |gaps| :: gaps[i].milestone != gaps[j].milestone
  }

  /**
   * What a settled verdict must be: every milestone of the flow planned or in exactly one gap, and nothing else named.
   */
  ghost predicate Disposes(flow: Flow, plan: seq<PlanEntry>, gaps: seq<Gap>) {
    && (forall order | order in Orders(flow) :: InPlan(plan, order) || InGaps(gaps, order))
    && (forall i | 0 <= i < |plan| :: plan[i].milestone in Orders(flow))
    && (forall i | 0 <= i < |gaps| :: gaps[i].milestone in Orders(flow) && !InPlan(plan, gaps[i].milestone))
    && DistinctGaps(gaps)
  }

  ghost predicate Clean(flow: Flow, catalog: Catalog, plan: seq<PlanEntry>, gaps: seq<Gap>) {
    Disposes(flow, plan, gaps) && forall i | 0 <= i < |plan| :: Lookup(catalog, plan[i]).Some?
  }

  predicate NoIssues(issues: Issues) {
    issues.unknownInterfaces == [] && issues.unknownMilestones == [] && issues.gapErrors == [] && issues.uncovered == []
  }

  function Missing(orders: seq<nat>, plan: seq<PlanEntry>, gaps: seq<Gap>): seq<nat> {
    if orders == [] then []
    else
      var last := orders[|orders| - 1];
      Missing(orders[..|orders| - 1], plan, gaps)
      + (if InPlan(plan, last) || InGaps(gaps, last) then [] else [last])
  }

  lemma {:induction false} MissingAre(orders: seq<nat>, plan: seq<PlanEntry>, gaps: seq<Gap>)
    ensures forall order :: order in Missing(orders, plan, gaps) <==>
              order in orders && !InPlan(plan, order) && !InGaps(gaps, order)
    ensures (forall i, j | 0 <= i < j < |orders| :: orders[i] != orders[j]) ==>
              forall i, j | 0 <= i < j < |Missing(orders, plan, gaps)| ::
                  Missing(orders, plan, gaps)[i] != Missing(orders, plan, gaps)[j]
  {
    if orders != [] {
      var front, last := orders[..|orders| - 1], orders[|orders| - 1];
      MissingAre(front, plan, gaps);
      assert orders == front + [last];
      if forall i, j | 0 <= i < j < |orders| :: orders[i] != orders[j] {
        assert forall k | 0 <= k < |front| :: orders[k] == front[k] && orders[k] != last;
        assert last !in front;
      }
    }
  }

  /** An entry with a catalog interface names a milestone the flow does not have. */
  ghost predicate Strays(flow: Flow, catalog: Catalog, plan: seq<PlanEntry>, m: nat) {
    exists i :: 0 <= i < |plan| && plan[i].milestone == m && Lookup(catalog, plan[i]).Some? && m !in Orders(flow)
  }

  lemma StraysGrow(flow: Flow, catalog: Catalog, plan: seq<PlanEntry>, i: nat)
    requires i < |plan|
    ensures forall m :: Strays(flow, catalog, plan[..i + 1], m) <==>
              || Strays(flow, catalog, plan[..i], m)
              || (plan[i].milestone == m && Lookup(catalog, plan[i]).Some? && m !in Orders(flow))
    ensures forall m :: !Strays(flow, catalog, [], m)
  {
    hide Orders;
    var all := plan[..i + 1];
    assert all[i] == plan[i] && forall k | 0 <= k < i :: all[k] == plan[..i][k];
  }

  method ValidateMatch(flow: Flow, catalog: Catalog, plan: seq<PlanEntry>)
    returns (steps: seq<PlanStep>, unknownInterfaces: seq<string>, unknownMilestones: seq<nat>)
    ensures steps == ValidSteps(flow, catalog, plan)
    ensures unknownInterfaces == [] && unknownMilestones == [] <==>
              forall i | 0 <= i < |plan| :: EntryValid(flow, catalog, plan[i])
    ensures forall id :: id in unknownInterfaces <==>
              exists i :: 0 <= i < |plan| && plan[i].interfaceId == id && Lookup(catalog, plan[i]).None?
    ensures forall m :: m in unknownMilestones <==> Strays(flow, catalog, plan, m)
  {
    hide Trim, ById, Orders;
    steps, unknownInterfaces, unknownMilestones := [], [], [];
    for i := 0 to |plan|
      invariant steps == ValidSteps(flow, catalog, plan[..i])
      invariant unknownInterfaces == [] && unknownMilestones == [] <==>
                  forall k | 0 <= k < i :: EntryValid(flow, catalog, plan[k])
      invariant forall id :: id in unknownInterfaces <==>
                  exists k :: 0 <= k < i && plan[k].interfaceId == id && Lookup(catalog, plan[k]).None?
      invariant forall m :: m in unknownMilestones <==> Strays(flow, catalog, plan[..i], m)
    {
      var entry := plan[i];
      StraysGrow(flow, catalog, plan, i);
      assert plan[..i + 1][..i] == plan[..i];
      var iface := ById(catalog, Trim(entry.interfaceId));
      if iface.None? {
        if entry.interfaceId !in unknownInterfaces { unknownInterfaces := unknownInterfaces + [entry.interfaceId]; }
      } else if entry.milestone !in Orders(flow) {
        if entry.milestone !in unknownMilestones { unknownMilestones := unknownMilestones + [entry.milestone]; }
      } else {
        steps := steps + [PlanStep(iface.value, entry.milestone, entry.note)];
      }
    }
    assert plan[..|plan|] == plan;
  }

  ghost predicate GapsSound(flow: Flow, plan: seq<PlanEntry>, gaps: seq<Gap>) {
    DistinctGaps(gaps) && forall i | 0 <= i < |gaps| ::
        gaps[i].milestone in Orders(flow) && !InPlan(plan, gaps[i].milestone)
  }

  /** Two gaps name the milestone. */
  ghost predicate Repeats(gaps: seq<Gap>, m: nat) {
    exists j :: 0 <= j < |gaps| && gaps[j].milestone == m && InGaps(gaps[..j], m)
  }

  lemma RepeatsGrow(gaps: seq<Gap>, i: nat)
    requires i < |gaps|
    ensures forall m :: Repeats(gaps[..i + 1], m) <==>
              Repeats(gaps[..i], m) || (gaps[i].milestone == m && InGaps(gaps[..i], m))
    ensures forall m :: InGaps(gaps[..i + 1], m) <==> InGaps(gaps[..i], m) || gaps[i].milestone == m
  {
    hide InGaps;
    var all := gaps[..i + 1];
    assert all[i] == gaps[i] && all[..i] == gaps[..i];
    assert forall j | 0 <= j < i :: all[j] == gaps[..i][j] && all[..j] == gaps[..i][..j];
    OneMoreGap(gaps, i);
  }

  lemma SoundGrows(flow: Flow, plan: seq<PlanEntry>, gaps: seq<Gap>, i: nat)
    requires i < |gaps|
    ensures GapsSound(flow, plan, gaps[..i + 1]) <==>
            && GapsSound(flow, plan, gaps[..i]) && !InGaps(gaps[..i], gaps[i].milestone)
            && gaps[i].milestone in Orders(flow) && !InPlan(plan, gaps[i].milestone)
  {
    hide Orders, InPlan;
    assert gaps[..i + 1] == gaps[..i] + [gaps[i]];
    assert DistinctGaps(gaps[..i + 1]) <==> DistinctGaps(gaps[..i]) && !InGaps(gaps[..i], gaps[i].milestone);
  }

  lemma NoGaps(flow: Flow, plan: seq<PlanEntry>)
    ensures GapsSound(flow, plan, []) && forall m :: !InGaps([], m) && !Repeats([], m)
  {
  }

  method GapErrors(flow: Flow, plan: seq<PlanEntry>, gaps: seq<Gap>) returns (errors: seq<GapError>)
    ensures errors == [] <==> GapsSound(flow, plan, gaps)
    ensures forall m :: UnknownMilestone(m) in errors <==> InGaps(gaps, m) && m !in Orders(flow)
    ensures forall m :: BothPlannedAndGap(m) in errors <==> InGaps(gaps, m) && InPlan(plan, m)
    ensures forall m :: DuplicateGap(m) in errors <==> Repeats(gaps, m)
  {
    hide Orders, InPlan, InGaps, Repeats, GapsSound;
    errors := [];
    var seen: set<nat> := {};
    NoGaps(flow, plan);
    for i := 0 to |gaps|
      invariant forall m :: m in seen <==> InGaps(gaps[..i], m)
      invariant errors == [] <==> GapsSound(flow, plan, gaps[..i])
      invariant forall m :: UnknownMilestone(m) in errors <==> InGaps(gaps[..i], m) && m !in Orders(flow)
      invariant forall m :: BothPlannedAndGap(m) in errors <==> InGaps(gaps[..i], m) && InPlan(plan, m)
      invariant forall m :: DuplicateGap(m) in errors <==> Repeats(gaps[..i], m)
    {
      var m := gaps[i].milestone;
      RepeatsGrow(gaps, i);
      SoundGrows(flow, plan, gaps, i);
      if m !in Orders(flow) { errors := errors + [UnknownMilestone(m)]; }
      if InPlan(plan, m) { errors := errors + [BothPlannedAndGap(m)]; }
      if m in seen { errors := errors + [DuplicateGap(m)]; }
      seen := seen + {m};
    }
    assert gaps[..|gaps|] == gaps;
  }

  /** The issues of a verdict; there are none exactly when it is clean. */
  method ReferenceIssues(flow: Flow, catalog: Catalog, plan: seq<PlanEntry>, gaps: seq<Gap>) returns (issues: Issues)
    ensures NoIssues(issues) <==> Clean(flow, catalog, plan, gaps)
    ensures issues.uncovered == Missing(Orders(flow), plan, gaps)
    ensures issues.unknownInterfaces == [] && issues.unknownMilestones == [] <==>
              forall i | 0 <= i < |plan| :: EntryValid(flow, catalog, plan[i])
    ensures issues.gapErrors == [] <==> GapsSound(flow, plan, gaps)
  {
    hide Strays, Repeats, InPlan, InGaps, Orders, Lookup;
    var _, unknownInterfaces, unknownMilestones := ValidateMatch(flow, catalog, plan);
    var gapErrors := GapErrors(flow, plan, gaps);
    MissingAre(Orders(flow), plan, gaps);
    var missing := Missing(Orders(flow), plan, gaps);
    if missing != [] { assert missing[0] in missing; }
    issues := Issues(unknownInterfaces, unknownMilestones, gapErrors, missing);
  }

  // --- Settling a reply ------------------------------------------------------------------

  /** The schema: a refusal stands alone; otherwise something must be planned or gapped. */
  predicate SchemaAccepts(data: Match) {
    if data.unrealizable.Some? then data.plan == [] && data.gaps == [] else data.plan != [] || data.gaps != []
  }

  function MilestoneAt(milestones: seq<Milestone>, order: nat): Milestone
    requires exists i :: 0 <= i < |milestones| && milestones[i].order == order
  {
    if milestones[0].order == order then milestones[0] else MilestoneAt(milestones[1..], order)
  }

  function RefusedGaps(milestones: seq<Milestone>, reason: string): seq<Gap> {
    if milestones == [] then []
    else [Gap(milestones[0].order, Mapping, Stated(reason))] + RefusedGaps(milestones[1..], reason)
  }

  function RepairGap(flow: Flow, order: nat): Gap {
    if order in Orders(flow) then Gap(order, Mapping, NoInterfaceFor(MilestoneAt(flow.milestones, order)))
    else Gap(order, Mapping, Stated(""))
  }

  function RepairGaps(flow: Flow, missing: seq<nat>): seq<Gap> {
    seq(|missing|, i requires 0 <= i < |missing| => RepairGap(flow, missing[i]))
  }

  function GapsOf(flow: Flow, data: Match, repairMissing: bool): seq<Gap> {
    var gaps := if data.unrealizable.Some? then RefusedGaps(flow.milestones, data.unrealizable.value) else data.gaps;
    if repairMissing then gaps + RepairGaps(flow, Missing(Orders(flow), data.plan, gaps)) else gaps
  }

  function PathOf(steps: seq<PlanStep>): seq<Interface> {
    if steps == [] then []
    else
      var path, last := PathOf(steps[..|steps| - 1]), steps[|steps| - 1].iface;
      if OnPath(path, last.id) then path else path + [last]
  }

  predicate OnPath(path: seq<Interface>, id: string) { exists i :: 0 <= i < |path| && path[i].id == id }

  predicate UsedBy(steps: seq<PlanStep>, iface: Interface) { exists i :: 0 <= i < |steps| && steps[i].iface == iface }

  /** The path names each interface the steps use, once. */
  lemma {:induction false} PathNamesEachOnce(steps: seq<PlanStep>)
    ensures forall i, j | 0 <= i < j < |PathOf(steps)| :: PathOf(steps)[i].id != PathOf(steps)[j].id
    ensures forall i | 0 <= i < |steps| :: OnPath(PathOf(steps), steps[i].iface.id)
    ensures forall k | 0 <= k < |PathOf(steps)| :: UsedBy(steps, PathOf(steps)[k])
  {
    if steps != [] {
      var front, last := steps[..|steps| - 1], steps[|steps| - 1];
      PathNamesEachOnce(front);
      var before, after := PathOf(front), PathOf(steps);
      assert after == if OnPath(before, last.iface.id) then before else before + [last.iface];
      forall i | 0 <= i < |steps|
        ensures OnPath(after, steps[i].iface.id)
      {
        if i < |front| { assert steps[i] == front[i]; }
        if OnPath(before, steps[i].iface.id) {
          var k :| 0 <= k < |before| && before[k].id == steps[i].iface.id;
          assert after[k].id == steps[i].iface.id;
        } else { assert after[|before|] == last.iface; }
      }
      forall k | 0 <= k < |after|
        ensures UsedBy(steps, after[k])
      {
        if k < |before| {
          var i :| 0 <= i < |front| && front[i].iface == before[k];
          assert steps[i].iface == after[k];
        } else { assert steps[|front|].iface == after[k]; }
      }
    }
  }

  /** A settled verdict, or nothing when the reply has an issue. */
  ghost function Settled(flow: Flow, catalog: Catalog, data: Match, calls: nat, repairMissing: bool): Option<Outcome> {
    var gaps := GapsOf(flow, data, repairMissing);
    var steps := ValidSteps(flow, catalog, data.plan);
    if !Clean(flow, catalog, data.plan, gaps) then None
    else Some(if steps != [] then Planned(steps, PathOf(steps), gaps, calls) else OnlyGaps(gaps, calls))
  }

  method Repair(flow: Flow, plan: seq<PlanEntry>, gaps: seq<Gap>) returns (repaired: seq<Gap>)
    ensures repaired == gaps + RepairGaps(flow, Missing(Orders(flow), plan, gaps))
  {
    hide Missing, Orders, RepairGap;
    repaired := gaps;
    var missing := Missing(Orders(flow), plan, gaps);
    for i := 0 to |missing|
      invariant repaired == gaps + RepairGaps(flow, missing)[..i]
    {
      repaired := repaired + [RepairGap(flow, missing[i])];
    }
  }

  method Settle(flow: Flow, catalog: Catalog, data: Match, calls: nat, repairMissing: bool)
      returns (outcome: Option<Outcome>)
    ensures outcome == Settled(flow, catalog, data, calls, repairMissing)
  {
    hide Clean, Missing, Orders, RepairGaps, NoIssues, ValidSteps, EntryValid, GapsSound;
    var gaps := if data.unrealizable.Some? then RefusedGaps(flow.milestones, data.unrealizable.value) else data.gaps;
    if repairMissing { gaps := Repair(flow, data.plan, gaps); }
    assert gaps == GapsOf(flow, data, repairMissing);
    var issues := ReferenceIssues(flow, catalog, data.plan, gaps);
    if !NoIssues(issues) { return None; }
    var steps, _, _ := ValidateMatch(flow, catalog, data.plan);
    outcome := Some(if steps != [] then Planned(steps, PathOf(steps), gaps, calls) else OnlyGaps(gaps, calls));
  }

  // --- The portions that stand on their own -----------------------------------------------

  /** A milestone is kept only when every action proposed for it is sound and it has one disposition. */
  ghost predicate Sound(flow: Flow, catalog: Catalog, data: Match, milestone: nat) {
    && (forall i | 0 <= i < |data.plan| && data.plan[i].milestone == milestone ::
        EntryValid(flow, catalog, data.plan[i]))
    && (InGaps(data.gaps, milestone) ==> milestone in Orders(flow) && !InPlan(data.plan, milestone))
    && (forall i, j | 0 <= i < j < |data.gaps| && data.gaps[i].milestone == milestone ::
        data.gaps[j].milestone != milestone)
  }

  function KeepEntries(plan: seq<PlanEntry>, unsafe: set<nat>): seq<PlanEntry> {
    if plan == [] then []
    else
      KeepEntries(plan[..|plan| - 1], unsafe)
      + (if plan[|plan| - 1].milestone in unsafe then [] else [plan[|plan| - 1]])
  }

  function KeepGaps(gaps: seq<Gap>, unsafe: set<nat>): seq<Gap> {
    if gaps == [] then []
    else
      KeepGaps(gaps[..|gaps| - 1], unsafe) + (if gaps[|gaps| - 1].milestone in unsafe then [] else [gaps[|gaps| - 1]])
  }

  /** The milestones a reply names and does not get wholly right. */
  ghost predicate IsUnsafe(flow: Flow, catalog: Catalog, data: Match, unsafe: set<nat>) {
    forall m :: m in unsafe <==> (InPlan(data.plan, m) || InGaps(data.gaps, m)) && !Sound(flow, catalog, data, m)
  }

  /** Given a second disposition by some gap: another gap, or the plan. */
  ghost predicate DisposedTwice(data: Match, n: nat, m: nat)
    requires n <= |data.gaps|
  {
    exists j :: 0 <= j < n && data.gaps[j].milestone == m && (InPlan(data.plan, m) || InGaps(data.gaps[..j], m))
  }

  ghost predicate WronglyPlanned(flow: Flow, catalog: Catalog, plan: seq<PlanEntry>, n: nat, m: nat)
    requires n <= |plan|
  {
    exists j :: 0 <= j < n && plan[j].milestone == m && !EntryValid(flow, catalog, plan[j])
  }

  method FindDisposedTwice(data: Match) returns (bad: set<nat>)
    ensures forall m :: m in bad <==> DisposedTwice(data, |data.gaps|, m)
  {
    hide InPlan, InGaps;
    bad := {};
    var seen: set<nat> := {};
    NothingInGaps();
    for i := 0 to |data.gaps|
      invariant forall m :: m in seen <==> InGaps(data.gaps[..i], m)
      invariant forall m :: m in bad <==> DisposedTwice(data, i, m)
    {
      var m := data.gaps[i].milestone;
      OneMoreGap(data.gaps, i);
      if InPlan(data.plan, m) || m in seen { bad := bad + {m}; }
      seen := seen + {m};
    }
  }

  lemma NothingInGaps()
    ensures forall m :: !InGaps([], m)
  {
  }

  lemma OneMoreGap(gaps: seq<Gap>, i: nat)
    requires i < |gaps|
    ensures forall m :: InGaps(gaps[..i + 1], m) <==> InGaps(gaps[..i], m) || m == gaps[i].milestone
  {
    assert forall k | 0 <= k < i :: gaps[..i][k] == gaps[..i + 1][k];
    assert gaps[..i + 1][i] == gaps[i];
  }

  /** Each entry checked on its own. */
  method FindWronglyPlanned(flow: Flow, catalog: Catalog, plan: seq<PlanEntry>) returns (bad: set<nat>)
    ensures forall m :: m in bad <==> WronglyPlanned(flow, catalog, plan, |plan|, m)
  {
    hide EntryValid, Clean, Missing, Orders, NoIssues;
    bad := {};
    for i := 0 to |plan|
      invariant forall m :: m in bad <==> WronglyPlanned(flow, catalog, plan, i, m)
    {
      var wrong := EntryIsWrong(flow, catalog, plan[i]);
      if wrong { bad := bad + {plan[i].milestone}; }
    }
  }

  method EntryIsWrong(flow: Flow, catalog: Catalog, entry: PlanEntry) returns (wrong: bool)
    ensures wrong <==> !EntryValid(flow, catalog, entry)
  {
    hide EntryValid, Clean, Missing, Orders, NoIssues;
    var issues := ReferenceIssues(flow, catalog, [entry], []);
    assert [entry][0] == entry;
    wrong := issues.unknownInterfaces != [] || issues.unknownMilestones != [] || issues.gapErrors != [];
  }

  method GapIsForeign(flow: Flow, catalog: Catalog, gap: Gap) returns (foreign: bool)
    ensures foreign <==> gap.milestone !in Orders(flow)
  {
    hide EntryValid, Clean, Missing, Orders, NoIssues;
    var issues := ReferenceIssues(flow, catalog, [], [gap]);
    assert [gap][0] == gap;
    foreign := issues.unknownInterfaces != [] || issues.unknownMilestones != [] || issues.gapErrors != [];
  }

  /** Each gap checked on its own. */
  method FindForeignGaps(flow: Flow, catalog: Catalog, gaps: seq<Gap>) returns (bad: set<nat>)
    ensures forall m :: m in bad <==> m !in Orders(flow) && InGaps(gaps, m)
  {
    hide InGaps, Orders;
    bad := {};
    NothingInGaps();
    for i := 0 to |gaps|
      invariant forall m :: m in bad <==> m !in Orders(flow) && InGaps(gaps[..i], m)
    {
      OneMoreGap(gaps, i);
      var foreign := GapIsForeign(flow, catalog, gaps[i]);
      if foreign { bad := bad + {gaps[i].milestone}; }
    }
    assert gaps[..|gaps|] == gaps;
  }

  method IndependentPortions(flow: Flow, catalog: Catalog, data: Match) returns (kept: Match, ghost unsafe: set<nat>)
    ensures IsUnsafe(flow, catalog, data, unsafe)
    ensures kept == Match(KeepEntries(data.plan, unsafe), KeepGaps(data.gaps, unsafe), None)
  {
    hide InPlan, InGaps, Sound, DisposedTwice, WronglyPlanned, Orders, KeepEntries, KeepGaps;
    var twice := FindDisposedTwice(data);
    var wrong := FindWronglyPlanned(flow, catalog, data.plan);
    var foreign := FindForeignGaps(flow, catalog, data.gaps);
    var bad := twice + wrong + foreign;
    unsafe := bad;
    forall m
      ensures m in unsafe <==> (InPlan(data.plan, m) || InGaps(data.gaps, m)) && !Sound(flow, catalog, data, m)
    {
      UnsafeIsUnsound(flow, catalog, data, m);
    }
    kept := Match(KeepEntries(data.plan, bad), KeepGaps(data.gaps, bad), None);
  }

  lemma UnsafeIsUnsound(flow: Flow, catalog: Catalog, data: Match, m: nat)
    ensures (InPlan(data.plan, m) || InGaps(data.gaps, m)) && !Sound(flow, catalog, data, m) <==>
            DisposedTwice(data, |data.gaps|, m) || WronglyPlanned(flow, catalog, data.plan, |data.plan|, m)
                || (m !in Orders(flow) && InGaps(data.gaps, m))
  {
    hide EntryValid, Orders;
    forall j | 0 <= j < |data.gaps|
      ensures InGaps(data.gaps[..j], m) <==> exists i :: 0 <= i < j && data.gaps[i].milestone == m
    {
      assert forall i | 0 <= i < j :: data.gaps[..j][i] == data.gaps[i];
    }
  }

  // --- Independent portions always settle ---------------------------------------------------

  lemma {:induction false} KeptEntriesAre(plan: seq<PlanEntry>, unsafe: set<nat>)
    ensures forall entry :: entry in KeepEntries(plan, unsafe) <==> entry in plan && entry.milestone !in unsafe
    ensures forall m :: InPlan(KeepEntries(plan, unsafe), m) <==> InPlan(plan, m) && m !in unsafe
  {
    if plan != [] {
      KeptEntriesAre(plan[..|plan| - 1], unsafe);
      assert plan == plan[..|plan| - 1] + [plan[|plan| - 1]];
    }
    forall m
      ensures InPlan(KeepEntries(plan, unsafe), m) <==> InPlan(plan, m) && m !in unsafe
    {
      if InPlan(KeepEntries(plan, unsafe), m) {
        var i :| 0 <= i < |KeepEntries(plan, unsafe)| && KeepEntries(plan, unsafe)[i].milestone == m;
        assert KeepEntries(plan, unsafe)[i] in plan;
      }
      if InPlan(plan, m) && m !in unsafe {
        var i :| 0 <= i < |plan| && plan[i].milestone == m;
        assert plan[i] in KeepEntries(plan, unsafe);
      }
    }
  }

  /** Kept gaps are the gaps with a safe milestone; no two of them name one milestone. */
  lemma {:induction false} KeptGapsAre(gaps: seq<Gap>, unsafe: set<nat>)
    requires forall i, j | 0 <= i < j < |gaps| && gaps[i].milestone == gaps[j].milestone :: gaps[i].milestone in unsafe
    ensures forall gap :: gap in KeepGaps(gaps, unsafe) <==> gap in gaps && gap.milestone !in unsafe
    ensures DistinctGaps(KeepGaps(gaps, unsafe))
  {
    if gaps != [] {
      var front, last := gaps[..|gaps| - 1], gaps[|gaps| - 1];
      KeptGapsAre(front, unsafe);
      assert gaps == front + [last];
      forall i | 0 <= i < |KeepGaps(front, unsafe)|
        ensures last.milestone !in unsafe ==> KeepGaps(front, unsafe)[i].milestone != last.milestone
      {
        assert KeepGaps(front, unsafe)[i] in front;
      }
    }
  }

  lemma RepairNames(flow: Flow, missing: seq<nat>)
    ensures |RepairGaps(flow, missing)| == |missing|
              && forall i | 0 <= i < |missing| :: RepairGaps(flow, missing)[i].milestone == missing[i]
  {
  }

  lemma RepairCovers(gaps: seq<Gap>, repairs: seq<Gap>, missing: seq<nat>, order: nat)
    requires |repairs| == |missing| && forall i | 0 <= i < |missing| :: repairs[i].milestone == missing[i]
    requires InGaps(gaps, order) || order in missing
    ensures InGaps(gaps + repairs, order)
  {
    var all := gaps + repairs;
    if InGaps(gaps, order) {
      var i :| 0 <= i < |gaps| && gaps[i].milestone == order;
      assert all[i].milestone == order;
    } else {
      var i :| 0 <= i < |missing| && missing[i] == order;
      assert all[|gaps| + i].milestone == order;
    }
  }

  lemma RepairsDistinct(gaps: seq<Gap>, repairs: seq<Gap>, missing: seq<nat>)
    requires |repairs| == |missing| && forall i | 0 <= i < |missing| :: repairs[i].milestone == missing[i]
    requires DistinctGaps(gaps) && (forall i, j | 0 <= i < j < |missing| :: missing[i] != missing[j])
    requires forall order | order in missing :: !InGaps(gaps, order)
    ensures DistinctGaps(gaps + repairs)
  {
    var all := gaps + repairs;
    forall i, j | 0 <= i < j < |all|
      ensures all[i].milestone != all[j].milestone
    {
      if i < |gaps| && j >= |gaps| { assert !InGaps(gaps, missing[j - |gaps|]); }
    }
  }

  lemma RepairDisposes(flow: Flow, catalog: Catalog, plan: seq<PlanEntry>, gaps: seq<Gap>)
    requires DistinctOrders(flow)
    requires forall i | 0 <= i < |plan| :: EntryValid(flow, catalog, plan[i])
    requires DistinctGaps(gaps)
               && forall i | 0 <= i < |gaps| :: gaps[i].milestone in Orders(flow) && !InPlan(plan, gaps[i].milestone)
    ensures Clean(flow, catalog, plan, gaps + RepairGaps(flow, Missing(Orders(flow), plan, gaps)))
  {
    var missing := Missing(Orders(flow), plan, gaps);
    var repairs := RepairGaps(flow, missing);
    var all := gaps + repairs;
    MissingAre(Orders(flow), plan, gaps);
    RepairNames(flow, missing);
    RepairsDistinct(gaps, repairs, missing);
    hide Missing, Orders, RepairGaps, InPlan, InGaps, DistinctGaps, DistinctOrders;
    forall order | order in Orders(flow) && !InPlan(plan, order)
      ensures InGaps(all, order)
    {
      RepairCovers(gaps, repairs, missing, order);
    }
    forall i | 0 <= i < |all|
      ensures all[i].milestone in Orders(flow) && !InPlan(plan, all[i].milestone)
    {
      if i >= |gaps| { assert all[i].milestone == missing[i - |gaps|] && missing[i - |gaps|] in missing; }
    }
  }

  /** The kept portions, missing milestones repaired, are always a clean verdict of a well-formed flow. */
  lemma IndependentPortionsSettle(flow: Flow, catalog: Catalog, data: Match, unsafe: set<nat>, calls: nat)
    requires DistinctOrders(flow) && IsUnsafe(flow, catalog, data, unsafe)
    ensures Settled(flow, catalog, Match(KeepEntries(data.plan, unsafe), KeepGaps(data.gaps, unsafe), None), calls,
                    true).Some?
  {
    var plan := KeepEntries(data.plan, unsafe);
    KeptEntriesAre(data.plan, unsafe);
    forall i, j | 0 <= i < j < |data.gaps| && data.gaps[i].milestone == data.gaps[j].milestone
      ensures data.gaps[i].milestone in unsafe
    {
      assert InGaps(data.gaps, data.gaps[i].milestone);
      assert !Sound(flow, catalog, data, data.gaps[i].milestone);
    }
    KeptGapsAre(data.gaps, unsafe);
    var gaps := KeepGaps(data.gaps, unsafe);
    forall i | 0 <= i < |plan|
      ensures EntryValid(flow, catalog, plan[i])
    {
      assert plan[i] in data.plan && plan[i].milestone !in unsafe;
      assert InPlan(data.plan, plan[i].milestone);
      assert Sound(flow, catalog, data, plan[i].milestone);
    }
    forall i | 0 <= i < |gaps|
      ensures gaps[i].milestone in Orders(flow) && !InPlan(plan, gaps[i].milestone)
    {
      assert gaps[i] in data.gaps && gaps[i].milestone !in unsafe;
      assert InGaps(data.gaps, gaps[i].milestone);
      assert Sound(flow, catalog, data, gaps[i].milestone);
    }
    RepairDisposes(flow, catalog, plan, gaps);
  }

  /**
   * What is retained of a reply settles, for every reply the schema accepts,
   * exactly when no two milestones share an order.
   */
  lemma PortionsSettleExactlyWhen(flow: Flow, catalog: Catalog)
    ensures DistinctOrders(flow) <==>
            forall data, unsafe | SchemaAccepts(data) && IsUnsafe(flow, catalog, data, unsafe) ::
              Settled(flow, catalog, Match(KeepEntries(data.plan, unsafe), KeepGaps(data.gaps, unsafe), None), 0,
                      true).Some?
  {
    if DistinctOrders(flow) {
      forall data, unsafe | SchemaAccepts(data) && IsUnsafe(flow, catalog, data, unsafe)
        ensures Settled(flow, catalog, Match(KeepEntries(data.plan, unsafe), KeepGaps(data.gaps, unsafe), None), 0,
                        true).Some?
      {
        IndependentPortionsSettle(flow, catalog, data, unsafe, 0);
      }
    } else {
      var data, unsafe := StrayReplyFails(flow, catalog);
    }
  }

  /** Where two milestones share an order, a reply whose only gap names no milestone of the flow cannot be settled. */
  lemma StrayReplyFails(flow: Flow, catalog: Catalog) returns (data: Match, unsafe: set<nat>)
    requires !DistinctOrders(flow)
    ensures SchemaAccepts(data) && data.unrealizable.None? && IsUnsafe(flow, catalog, data, unsafe)
    ensures Settled(flow, catalog, Match(KeepEntries(data.plan, unsafe), KeepGaps(data.gaps, unsafe), None), 0,
                    true).None?
  {
    var stray := NoOrder(Orders(flow));
    var gap := Gap(stray, Mapping, Stated(""));
    data, unsafe := Match([], [gap], None), {stray};
    forall m
      ensures m in unsafe <==> (InPlan(data.plan, m) || InGaps(data.gaps, m)) && !Sound(flow, catalog, data, m)
    {
      assert InGaps(data.gaps, stray) by { assert data.gaps[0].milestone == stray; }
    }
    assert KeepGaps([gap], unsafe) == [] by { assert [gap][..0] == []; }
    hide Missing, RepairGaps, Orders, EntryValid, ValidSteps, InPlan, InGaps;
    RepeatedOrderRepairsTwice(flow);
    assert GapsOf(flow, Match([], [], None), true) == RepairGaps(flow, Missing(Orders(flow), [], []));
  }

  lemma {:induction false} NoOrder(orders: seq<nat>) returns (stray: nat)
    ensures forall order | order in orders :: order < stray
  {
    if orders == [] { return 0; }
    var rest := NoOrder(orders[1..]);
    stray := if rest > orders[0] then rest else orders[0] + 1;
    assert forall order :: order in orders <==> order == orders[0] || order in orders[1..];
  }

  lemma {:induction false} MissingOfNothing(orders: seq<nat>)
    ensures Missing(orders, [], []) == orders
  {
    if orders != [] {
      MissingOfNothing(orders[..|orders| - 1]);
      assert orders == orders[..|orders| - 1] + [orders[|orders| - 1]];
    }
  }

  lemma RepeatedOrderRepairsTwice(flow: Flow)
    requires !DistinctOrders(flow)
    ensures !DistinctGaps(RepairGaps(flow, Missing(Orders(flow), [], [])))
  {
    MissingOfNothing(Orders(flow));
    var i, j :| 0 <= i < j < |flow.milestones| && flow.milestones[i].order == flow.milestones[j].order;
    var gaps := RepairGaps(flow, Orders(flow));
    assert gaps[i].milestone == flow.milestones[i].order && gaps[j].milestone == flow.milestones[j].order;
  }

  // --- What is cached settles to the same verdict ---------------------------------------------

  function Recorded(steps: seq<PlanStep>): seq<PlanEntry> {
    seq(|steps|, i requires 0 <= i < |steps| => PlanEntry(steps[i].iface.id, steps[i].milestone, steps[i].note))
  }

  function CacheValue(outcome: Outcome): Match
    requires outcome.Planned? || outcome.OnlyGaps?
  {
    if outcome.Planned? then Match(Recorded(outcome.steps), outcome.gaps, None) else Match([], outcome.gaps, None)
  }

  lemma {:induction false} ValidStepsAre(flow: Flow, catalog: Catalog, plan: seq<PlanEntry>)
    requires forall i | 0 <= i < |plan| :: EntryValid(flow, catalog, plan[i])
    ensures |ValidSteps(flow, catalog, plan)| == |plan|
    ensures forall i | 0 <= i < |plan| :: EntryValid(flow, catalog, plan[i]) &&
              ValidSteps(flow, catalog, plan)[i] ==
                  PlanStep(Lookup(catalog, plan[i]).value, plan[i].milestone, plan[i].note)
  {
    if plan != [] {
      var front := plan[..|plan| - 1];
      ValidStepsAre(flow, catalog, front);
      assert forall i | 0 <= i < |front| :: front[i] == plan[i];
    }
  }

  /** A step's own interface id finds that interface again, so recording the steps loses nothing. */
  lemma StepsReadBack(flow: Flow, catalog: Catalog, plan: seq<PlanEntry>)
    requires forall i | 0 <= i < |plan| :: EntryValid(flow, catalog, plan[i])
    ensures var steps := ValidSteps(flow, catalog, plan);
            && |steps| == |plan|
            && (forall i | 0 <= i < |plan| :: steps[i].iface in catalog && steps[i].milestone == plan[i].milestone)
            && (forall i | 0 <= i < |plan| :: EntryValid(flow, catalog, Recorded(steps)[i]))
            && ValidSteps(flow, catalog, Recorded(steps)) == steps
  {
    var steps := ValidSteps(flow, catalog, plan);
    ValidStepsAre(flow, catalog, plan);
    forall i | 0 <= i < |plan|
      ensures steps[i].iface in catalog && Lookup(catalog, Recorded(steps)[i]) == Some(steps[i].iface)
      ensures EntryValid(flow, catalog, Recorded(steps)[i])
    {
      assert EntryValid(flow, catalog, plan[i]);
      ByIdIsMember(catalog, Trim(plan[i].interfaceId));
      TrimIsIdempotent(plan[i].interfaceId);
    }
    ValidStepsAre(flow, catalog, Recorded(steps));
  }

  /** Same milestones planned and gapped, same disposition. */
  lemma RecordedIsClean(flow: Flow, catalog: Catalog, plan: seq<PlanEntry>, gaps: seq<Gap>)
    requires Clean(flow, catalog, plan, gaps)
    ensures Clean(flow, catalog, Recorded(ValidSteps(flow, catalog, plan)), gaps)
  {
    StepsReadBack(flow, catalog, plan);
    var recorded := Recorded(ValidSteps(flow, catalog, plan));
    forall m
      ensures InPlan(recorded, m) <==> InPlan(plan, m)
    {
      if InPlan(plan, m) {
        var i :| 0 <= i < |plan| && plan[i].milestone == m;
        assert recorded[i].milestone == m;
      }
      if InPlan(recorded, m) {
        var i :| 0 <= i < |recorded| && recorded[i].milestone == m;
        assert plan[i].milestone == m;
      }
    }
  }

  /** A settled verdict's cache entry is accepted again and settles to the very same steps, path and gaps. */
  lemma CachedVerdictResettles(flow: Flow, catalog: Catalog, data: Match, calls: nat, repairMissing: bool)
    requires Settled(flow, catalog, data, calls, repairMissing).Some?
    ensures var outcome := Settled(flow, catalog, data, calls, repairMissing).value;
            && Settled(flow, catalog, CacheValue(outcome), 0, false) == Some(outcome.(calls := 0))
            && (flow.milestones != [] ==> SchemaAccepts(CacheValue(outcome)))
  {
    var outcome := Settled(flow, catalog, data, calls, repairMissing).value;
    var gaps := GapsOf(flow, data, repairMissing);
    StepsReadBack(flow, catalog, data.plan);
    RecordedIsClean(flow, catalog, data.plan, gaps);
    if ValidSteps(flow, catalog, data.plan) == [] {
      assert data.plan == [] && Recorded([]) == [];
      if flow.milestones != [] {
        assert Orders(flow)[0] in Orders(flow);
        assert InGaps(gaps, Orders(flow)[0]);
      }
    }
  }

  // --- The two attempts ---------------------------------------------------------------------

  datatype Reply = CallFailed(error: string, outOfCredits: bool) | NotJson | Replied(data: Match)

  function WithError(gaps: seq<Gap>, error: string): seq<Gap> {
    seq(|gaps|, i requires 0 <= i < |gaps| => gaps[i].(reason := WithCorrectionFailure(gaps[i].reason, error)))
  }

  /** A verdict the pipeline may act on. */
  ghost predicate Sealed(flow: Flow, catalog: Catalog, outcome: Outcome) {
    match outcome
    case Planned(steps, path, gaps, _) =>
      && steps != [] && path == PathOf(steps)
      && (forall i | 0 <= i < |steps| :: steps[i].iface in catalog)
      && Clean(flow, catalog, Recorded(steps), gaps)
    case OnlyGaps(gaps, _) => Clean(flow, catalog, [], gaps)
    case _ => true
  }

  function CallsOf(outcome: Outcome): nat { if outcome.CreditsExhausted? then 0 else outcome.calls }

  lemma SettledIsSealed(flow: Flow, catalog: Catalog, data: Match, calls: nat, repairMissing: bool)
    requires Settled(flow, catalog, data, calls, repairMissing).Some?
    ensures Sealed(flow, catalog, Settled(flow, catalog, data, calls, repairMissing).value)
    ensures CallsOf(Settled(flow, catalog, data, calls, repairMissing).value) == calls
  {
    StepsReadBack(flow, catalog, data.plan);
    RecordedIsClean(flow, catalog, data.plan, GapsOf(flow, data, repairMissing));
    if ValidSteps(flow, catalog, data.plan) == [] { assert data.plan == []; }
  }

  lemma ErrorNoteKeepsSeal(flow: Flow, catalog: Catalog, outcome: Outcome, error: string, calls: nat)
    requires Sealed(flow, catalog, outcome) && outcome.Planned?
    ensures Sealed(flow, catalog, outcome.(gaps := WithError(outcome.gaps, error), calls := calls))
  {
    var gaps, noted := outcome.gaps, WithError(outcome.gaps, error);
    forall m
      ensures InGaps(noted, m) <==> InGaps(gaps, m)
    {
      if InGaps(gaps, m) {
        var i :| 0 <= i < |gaps| && gaps[i].milestone == m;
        assert noted[i].milestone == m;
      }
      if InGaps(noted, m) {
        var i :| 0 <= i < |noted| && noted[i].milestone == m;
        assert gaps[i].milestone == m;
      }
    }
  }

  /**
   * A first reply with a portion worth keeping: accepted by the schema, and some milestone it plans is wholly right.
   */
  ghost predicate HasSoundPlan(flow: Flow, catalog: Catalog, reply: Reply) {
    && reply.Replied? && SchemaAccepts(reply.data) && reply.data.unrealizable.None?
    && exists i :: 0 <= i < |reply.data.plan| && Sound(flow, catalog, reply.data, reply.data.plan[i].milestone)
  }

  /** Keep the independent portions of an invalid reply, when they plan anything. */
  method Retain(flow: Flow, catalog: Catalog, data: Match, calls: nat) returns (retained: Option<Outcome>)
    requires SchemaAccepts(data)
    ensures retained.Some? ==>
              retained.value.Planned? && Sealed(flow, catalog, retained.value) && retained.value.calls == calls
    ensures retained.Some? <==> Salvages(flow, catalog, Replied(data))
    ensures retained.Some? ==>
              Gives(catalog, SalvagedPlan(flow, catalog, data), SalvagedGaps(flow, catalog, data), calls,
                    retained.value)
    ensures DistinctOrders(flow) && HasSoundPlan(flow, catalog, Replied(data)) ==> retained.Some?
  {
    hide Sealed, IsUnsafe, Settled, DistinctOrders, HasSoundPlan, KeepEntries, KeepGaps, Clean, SoundPlan, SoundGaps,
         StepsOf, Missing, RepairGaps, SchemaAccepts;
    var portions, unsafe := IndependentPortions(flow, catalog, data);
    var partial := Settle(flow, catalog, portions, calls, true);
    KeptIsSound(flow, catalog, data, unsafe, data.plan, data.gaps);
    SettledGives(flow, catalog, portions, calls, true);
    if partial.Some? { SettledIsSealed(flow, catalog, portions, calls, true); }
    retained := if partial.Some? && partial.value.Planned? then partial else None;
    if DistinctOrders(flow) && HasSoundPlan(flow, catalog, Replied(data)) {
      SoundPlanIsKept(flow, catalog, data, unsafe);
      IndependentPortionsSettle(flow, catalog, data, unsafe, calls);
      SettledPlan(flow, catalog, portions, calls);
    }
  }

  lemma SoundPlanIsKept(flow: Flow, catalog: Catalog, data: Match, unsafe: set<nat>)
    requires HasSoundPlan(flow, catalog, Replied(data)) && IsUnsafe(flow, catalog, data, unsafe)
    ensures KeepEntries(data.plan, unsafe) != []
  {
    hide EntryValid, Orders, KeepEntries;
    KeptEntriesAre(data.plan, unsafe);
    var i :| 0 <= i < |data.plan| && Sound(flow, catalog, data, data.plan[i].milestone);
    assert data.plan[i] in KeepEntries(data.plan, unsafe);
  }

  lemma SettledPlan(flow: Flow, catalog: Catalog, data: Match, calls: nat)
    requires Settled(flow, catalog, data, calls, true).Some? && data.plan != []
    ensures Settled(flow, catalog, data, calls, true).value.Planned?
  {
    StepsReadBack(flow, catalog, data.plan);
  }

  // --- What a matching comes to, read off its replies -------------------------------------------

  /** Every entry of the plan is a step, in order, with the catalog's interface of its id. */
  ghost predicate StepsOf(catalog: Catalog, plan: seq<PlanEntry>, steps: seq<PlanStep>) {
    && |steps| == |plan|
    && forall i | 0 <= i < |plan| :: Lookup(catalog, plan[i]) == Some(steps[i].iface)
                                     && steps[i].milestone == plan[i].milestone && steps[i].note == plan[i].note
  }

  /** The outcome is this plan and these gaps, after so many calls. */
  ghost predicate Gives(catalog: Catalog, plan: seq<PlanEntry>, gaps: seq<Gap>, calls: nat, outcome: Outcome) {
    match outcome
    case Planned(steps, path, g, c) =>
      plan != [] && StepsOf(catalog, plan, steps) && path == PathOf(steps) && g == gaps && c == calls
    case OnlyGaps(g, c) => plan == [] && g == gaps && c == calls
    case _ => false
  }

  /** The gaps, and a repair for each milestone neither planned nor gapped. */
  function Repaired(flow: Flow, plan: seq<PlanEntry>, gaps: seq<Gap>): seq<Gap> {
    gaps + RepairGaps(flow, Missing(Orders(flow), plan, gaps))
  }

  ghost predicate Usable(flow: Flow, catalog: Catalog, cached: Option<Match>) {
    && cached.Some? && SchemaAccepts(cached.value) && cached.value.unrealizable.None?
    && Clean(flow, catalog, cached.value.plan, cached.value.gaps)
  }

  /** The reply answers the first call: no refusal, and every milestone disposed of. */
  ghost predicate Answers(flow: Flow, catalog: Catalog, reply: Reply) {
    && reply.Replied? && SchemaAccepts(reply.data) && reply.data.unrealizable.None?
    && Clean(flow, catalog, reply.data.plan, reply.data.gaps)
  }

  /** The reply answers the second call: a refusal speaks for every milestone, and a milestone forgotten is repaired. */
  ghost predicate AnswersRepaired(flow: Flow, catalog: Catalog, reply: Reply) {
    && reply.Replied? && SchemaAccepts(reply.data)
    && Clean(flow, catalog, reply.data.plan, GapsOf(flow, reply.data, true))
  }

  /** The plan entries of the milestones a reply gets wholly right. */
  ghost function SoundPlan(flow: Flow, catalog: Catalog, data: Match, plan: seq<PlanEntry>): seq<PlanEntry> {
    if plan == [] then []
    else
      SoundPlan(flow, catalog, data, plan[..|plan| - 1])
      + (if Sound(flow, catalog, data, plan[|plan| - 1].milestone) then [plan[|plan| - 1]] else [])
  }

  ghost function SoundGaps(flow: Flow, catalog: Catalog, data: Match, gaps: seq<Gap>): seq<Gap> {
    if gaps == [] then []
    else
      SoundGaps(flow, catalog, data, gaps[..|gaps| - 1])
      + (if Sound(flow, catalog, data, gaps[|gaps| - 1].milestone) then [gaps[|gaps| - 1]] else [])
  }

  ghost function SalvagedPlan(flow: Flow, catalog: Catalog, data: Match): seq<PlanEntry> {
    SoundPlan(flow, catalog, data, data.plan)
  }

  ghost function SalvagedGaps(flow: Flow, catalog: Catalog, data: Match): seq<Gap> {
    Repaired(flow, SalvagedPlan(flow, catalog, data), SoundGaps(flow, catalog, data, data.gaps))
  }

  /** A reply that does not answer still plans something: its wholly right milestones, the rest repaired. */
  ghost predicate Salvages(flow: Flow, catalog: Catalog, reply: Reply) {
    && reply.Replied? && SchemaAccepts(reply.data) && SalvagedPlan(flow, catalog, reply.data) != []
    && Clean(flow, catalog, SalvagedPlan(flow, catalog, reply.data), SalvagedGaps(flow, catalog, reply.data))
  }

  /** The gaps, each with what became of the correction added to its reason. */
  ghost predicate Noted(gaps: seq<Gap>, error: string, noted: seq<Gap>) {
    && |noted| == |gaps|
    && forall i | 0 <= i < |gaps| ::
        noted[i] == Gap(gaps[i].milestone, gaps[i].kind, WithCorrectionFailure(gaps[i].reason, error))
  }

  ghost predicate GivesSalvaged(flow: Flow, catalog: Catalog, data: Match, error: string, calls: nat,
                                outcome: Outcome) {
    && outcome.Planned? && Noted(SalvagedGaps(flow, catalog, data), error, outcome.gaps)
    && Gives(catalog, SalvagedPlan(flow, catalog, data), outcome.gaps, calls, outcome)
  }

  /** What a matching must come to. */
  ghost predicate Matches(flow: Flow, catalog: Catalog, cached: Option<Match>, first: Reply, second: Reply,
                          outcome: Outcome) {
    if Usable(flow, catalog, cached) then Gives(catalog, cached.value.plan, cached.value.gaps, 0, outcome)
    else if first.CallFailed? then outcome == (if first.outOfCredits then CreditsExhausted else Error(1))
    else if Answers(flow, catalog, first) then Gives(catalog, first.data.plan, first.data.gaps, 1, outcome)
    else if second.CallFailed? && second.outOfCredits then outcome == CreditsExhausted
    else if AnswersRepaired(flow, catalog, second)
    then Gives(catalog, second.data.plan, GapsOf(flow, second.data, true), 2, outcome)
    else if Salvages(flow, catalog, second) then exists e :: GivesSalvaged(flow, catalog, second.data, e, 2, outcome)
    else if Salvages(flow, catalog, first) then exists e :: GivesSalvaged(flow, catalog, first.data, e, 2, outcome)
    else outcome == Error(2)
  }

  /** What a matching stores: the verdict of a call that answered. */
  ghost predicate Stores(flow: Flow, catalog: Catalog, cached: Option<Match>, first: Reply, second: Reply) {
    && !Usable(flow, catalog, cached) && !first.CallFailed?
    && (Answers(flow, catalog, first) || AnswersRepaired(flow, catalog, second))
  }

  lemma SettledGives(flow: Flow, catalog: Catalog, data: Match, calls: nat, repairMissing: bool)
    ensures var gaps := GapsOf(flow, data, repairMissing);
            && (Settled(flow, catalog, data, calls, repairMissing).Some? <==> Clean(flow, catalog, data.plan, gaps))
            && (Clean(flow, catalog, data.plan, gaps) ==>
                Gives(catalog, data.plan, gaps, calls, Settled(flow, catalog, data, calls, repairMissing).value))
  {
    if Clean(flow, catalog, data.plan, GapsOf(flow, data, repairMissing)) { ValidStepsAre(flow, catalog, data.plan); }
  }

  lemma {:induction false} KeptIsSound(flow: Flow, catalog: Catalog, data: Match, unsafe: set<nat>,
                                       plan: seq<PlanEntry>, gaps: seq<Gap>)
    requires IsUnsafe(flow, catalog, data, unsafe) && plan <= data.plan && gaps <= data.gaps
    ensures KeepEntries(plan, unsafe) == SoundPlan(flow, catalog, data, plan)
    ensures KeepGaps(gaps, unsafe) == SoundGaps(flow, catalog, data, gaps)
    decreases |plan| + |gaps|
  {
    hide Sound;
    if plan != [] {
      KeptIsSound(flow, catalog, data, unsafe, plan[..|plan| - 1], gaps);
      assert data.plan[|plan| - 1] == plan[|plan| - 1];
    } else if gaps != [] {
      KeptIsSound(flow, catalog, data, unsafe, plan, gaps[..|gaps| - 1]);
      assert data.gaps[|gaps| - 1] == gaps[|gaps| - 1];
    }
    if gaps != [] {
      KeptIsSound(flow, catalog, data, unsafe, plan, gaps[..|gaps| - 1]);
      assert data.gaps[|gaps| - 1] == gaps[|gaps| - 1];
    }
  }

  ghost function RightEntry(flow: Flow, catalog: Catalog, data: Match, plan: seq<PlanEntry>): nat -> bool {
    (i: nat) => i < |plan| && Sound(flow, catalog, data, plan[i].milestone)
  }

  ghost function RightGap(flow: Flow, catalog: Catalog, data: Match, gaps: seq<Gap>): nat -> bool {
    (i: nat) => i < |gaps| && Sound(flow, catalog, data, gaps[i].milestone)
  }

  ghost function Forgotten(orders: seq<nat>, plan: seq<PlanEntry>, gaps: seq<Gap>): nat -> bool {
    (i: nat) => i < |orders| && !InPlan(plan, orders[i]) && !InGaps(gaps, orders[i])
  }

  /** What is salvaged of a plan: its entries of wholly right milestones, all of them, in the plan's order. */
  lemma SalvagedAt(flow: Flow, catalog: Catalog, data: Match) returns (at: seq<nat>)
    ensures |SalvagedPlan(flow, catalog, data)| == |at|
    ensures Picks(at, |data.plan|, RightEntry(flow, catalog, data, data.plan))
    ensures forall k | 0 <= k < |at| :: SalvagedPlan(flow, catalog, data)[k] == data.plan[at[k]]
  {
    at := SalvagedUpTo(flow, catalog, data, data.plan, |data.plan|);
    assert data.plan[..|data.plan|] == data.plan;
  }

  lemma {:induction false} SalvagedUpTo(flow: Flow, catalog: Catalog, data: Match, plan: seq<PlanEntry>, n: nat)
    returns (at: seq<nat>)
    requires n <= |plan|
    ensures |SoundPlan(flow, catalog, data, plan[..n])| == |at| && Picks(at, n, RightEntry(flow, catalog, data, plan))
    ensures forall k | 0 <= k < |at| :: at[k] < n && SoundPlan(flow, catalog, data, plan[..n])[k] == plan[at[k]]
  {
    hide Sound, Picks;
    at := [];
    if n == 0 {
      NonePicked(RightEntry(flow, catalog, data, plan));
    } else {
      at := SalvagedUpTo(flow, catalog, data, plan, n - 1);
      PicksOn(at, n - 1, RightEntry(flow, catalog, data, plan));
      assert plan[..n][..n - 1] == plan[..n - 1];
      if RightEntry(flow, catalog, data, plan)(n - 1) { at := at + [n - 1]; }
    }
  }

  /** And its gaps likewise. */
  lemma {:induction false} SalvagedGapsUpTo(flow: Flow, catalog: Catalog, data: Match, gaps: seq<Gap>, n: nat)
    returns (at: seq<nat>)
    requires n <= |gaps|
    ensures |SoundGaps(flow, catalog, data, gaps[..n])| == |at| && Picks(at, n, RightGap(flow, catalog, data, gaps))
    ensures forall k | 0 <= k < |at| :: at[k] < n && SoundGaps(flow, catalog, data, gaps[..n])[k] == gaps[at[k]]
  {
    hide Sound, Picks;
    at := [];
    if n == 0 {
      NonePicked(RightGap(flow, catalog, data, gaps));
    } else {
      at := SalvagedGapsUpTo(flow, catalog, data, gaps, n - 1);
      PicksOn(at, n - 1, RightGap(flow, catalog, data, gaps));
      assert gaps[..n][..n - 1] == gaps[..n - 1];
      if RightGap(flow, catalog, data, gaps)(n - 1) { at := at + [n - 1]; }
    }
  }

  lemma {:induction false} MissingUpTo(orders: seq<nat>, plan: seq<PlanEntry>, gaps: seq<Gap>, n: nat)
    returns (at: seq<nat>)
    requires n <= |orders|
    ensures |Missing(orders[..n], plan, gaps)| == |at| && Picks(at, n, Forgotten(orders, plan, gaps))
    ensures forall k | 0 <= k < |at| :: at[k] < n && Missing(orders[..n], plan, gaps)[k] == orders[at[k]]
  {
    hide InPlan, InGaps, Picks;
    at := [];
    if n == 0 {
      NonePicked(Forgotten(orders, plan, gaps));
    } else {
      at := MissingUpTo(orders, plan, gaps, n - 1);
      PicksOn(at, n - 1, Forgotten(orders, plan, gaps));
      assert orders[..n][..n - 1] == orders[..n - 1];
      if Forgotten(orders, plan, gaps)(n - 1) { at := at + [n - 1]; }
    }
  }

  /**
   * The gaps stand, and after them comes one repair a milestone that is neither planned nor gapped, in the flow's
   * order, which says that no interface was found for that milestone.
   */
  lemma RepairsAt(flow: Flow, plan: seq<PlanEntry>, gaps: seq<Gap>) returns (at: seq<nat>)
    ensures |Repaired(flow, plan, gaps)| == |gaps| + |at| && gaps <= Repaired(flow, plan, gaps)
    ensures Picks(at, |flow.milestones|, Forgotten(Orders(flow), plan, gaps))
    ensures forall k | 0 <= k < |at| ::
              var repair := Repaired(flow, plan, gaps)[|gaps| + k];
              && repair.milestone == flow.milestones[at[k]].order && repair.kind == Mapping
              && repair.reason.NoInterfaceFor? && repair.reason.milestone in flow.milestones
              && repair.reason.milestone.order == flow.milestones[at[k]].order
  {
    hide Missing, InPlan, InGaps, Picks;
    at := MissingUpTo(Orders(flow), plan, gaps, |flow.milestones|);
    assert Orders(flow)[..|flow.milestones|] == Orders(flow);
    var missing := Missing(Orders(flow), plan, gaps);
    forall k | 0 <= k < |at|
      ensures var repair := Repaired(flow, plan, gaps)[|gaps| + k];
              && repair.milestone == flow.milestones[at[k]].order && repair.kind == Mapping
              && repair.reason.NoInterfaceFor? && repair.reason.milestone in flow.milestones
              && repair.reason.milestone.order == flow.milestones[at[k]].order
    {
      var order := flow.milestones[at[k]].order;
      assert Orders(flow)[at[k]] == order && order in Orders(flow) && missing[k] == order;
      MilestoneAtIs(flow.milestones, order);
      assert Repaired(flow, plan, gaps)[|gaps| + k] == RepairGap(flow, order);
    }
  }

  lemma {:induction false} MilestoneAtIs(milestones: seq<Milestone>, order: nat)
    ensures (exists i :: 0 <= i < |milestones| && milestones[i].order == order) ==>
              MilestoneAt(milestones, order) in milestones && MilestoneAt(milestones, order).order == order
  {
    if milestones != [] && milestones[0].order != order {
      MilestoneAtIs(milestones[1..], order);
      if i :| 0 <= i < |milestones| && milestones[i].order == order { assert milestones[1..][i - 1].order == order; }
    }
  }

  /** A refusal's gaps: one a milestone, in order, with its reason; any other reply's are its own. */
  lemma {:induction false} RefusedGapsAre(milestones: seq<Milestone>, reason: string)
    ensures |RefusedGaps(milestones, reason)| == |milestones|
    ensures forall i | 0 <= i < |milestones| ::
              RefusedGaps(milestones, reason)[i] == Gap(milestones[i].order, Mapping, Stated(reason))
  {
    if milestones != [] { RefusedGapsAre(milestones[1..], reason); }
  }

  /** The step is the first to use its interface. */
  ghost function FirstUse(steps: seq<PlanStep>): nat -> bool {
    (i: nat) => i < |steps| && forall j | 0 <= j < i :: steps[j].iface.id != steps[i].iface.id
  }

  /** The path lists interfaces by first use. */
  lemma PathByFirstUse(steps: seq<PlanStep>) returns (at: seq<nat>)
    ensures |PathOf(steps)| == |at| && Picks(at, |steps|, FirstUse(steps))
    ensures forall k | 0 <= k < |at| :: PathOf(steps)[k] == steps[at[k]].iface
  {
    at := PathUpTo(steps, |steps|);
    assert steps[..|steps|] == steps;
  }

  lemma {:induction false} PathUpTo(steps: seq<PlanStep>, n: nat) returns (at: seq<nat>)
    requires n <= |steps|
    ensures |PathOf(steps[..n])| == |at| && Picks(at, n, FirstUse(steps))
    ensures forall k | 0 <= k < |at| :: at[k] < n && PathOf(steps[..n])[k] == steps[at[k]].iface
  {
    hide Picks, OnPath;
    at := [];
    if n == 0 {
      NonePicked(FirstUse(steps));
    } else {
      at := PathUpTo(steps, n - 1);
      PicksOn(at, n - 1, FirstUse(steps));
      assert steps[..n][..n - 1] == steps[..n - 1];
      OnPathIsUsed(steps[..n - 1], steps[n - 1].iface.id);
      if FirstUse(steps)(n - 1) { at := at + [n - 1]; }
    }
  }

  lemma {:induction false} OnPathIsUsed(steps: seq<PlanStep>, id: string)
    ensures OnPath(PathOf(steps), id) <==> exists i :: 0 <= i < |steps| && steps[i].iface.id == id
  {
    PathNamesEachOnce(steps);
    if OnPath(PathOf(steps), id) {
      var k :| 0 <= k < |PathOf(steps)| && PathOf(steps)[k].id == id;
      assert UsedBy(steps, PathOf(steps)[k]);
    }
  }

  /**
   * Cache, call, and exactly one corrective call. A usable cached verdict is given back with no call; a first reply
   * that
   * answers is the outcome, and else the second, its forgotten milestones repaired; when neither answers, the outcome
   * is what the later reply that plans anything gets wholly right. What it stores is the verdict of a call that
   * answered, and gives the same outcome again.
   */
  method MatchFlow(flow: Flow, catalog: Catalog, cached: Option<Match>, replies: nat -> Reply)
    returns (outcome: Outcome, stored: Option<Match>)
    ensures Matches(flow, catalog, cached, replies(0), replies(1), outcome)
    ensures Sealed(flow, catalog, outcome) && CallsOf(outcome) <= 2
    ensures stored.Some? <==> Stores(flow, catalog, cached, replies(0), replies(1))
    ensures stored.Some? ==>
              && (outcome.Planned? || outcome.OnlyGaps?)
              && Gives(catalog, stored.value.plan, stored.value.gaps, 0, outcome.(calls := 0))
              && (flow.milestones != [] ==> Usable(flow, catalog, stored))
    ensures DistinctOrders(flow) && HasSoundPlan(flow, catalog, replies(0)) ==> !outcome.Error?
  {
    hide Sealed, Clean, StepsOf, Missing, RepairGaps, SoundPlan, SoundGaps, SchemaAccepts, DistinctOrders, HasSoundPlan,
         Settled, Recorded, PathOf, RefusedGaps, SalvagedPlan, SalvagedGaps, WithError, Gives, CacheValue;
    stored := None;
    var first, second := replies(0), replies(1);
    if cached.Some? && SchemaAccepts(cached.value) && cached.value.unrealizable.None? {
      SettledGives(flow, catalog, cached.value, 0, false);
      var settled := Settle(flow, catalog, cached.value, 0, false);
      if settled.Some? {
        SettledIsSealed(flow, catalog, cached.value, 0, false);
        return settled.value, None;
      }
    }
    var calls, attempt := 0, 0;
    var retained: Option<Outcome> := None;
    // the second attempt always returns
    while true
      invariant calls == attempt <= 1 && stored.None? && !Usable(flow, catalog, cached)
      invariant attempt == 0 ==> retained.None?
      invariant attempt == 1 ==> !first.CallFailed? && !Answers(flow, catalog, first)
      invariant attempt == 1 ==> (retained.Some? <==> Salvages(flow, catalog, first))
      invariant retained.Some? ==>
                  retained.value.Planned? && Sealed(flow, catalog, retained.value)
                  && Gives(catalog, SalvagedPlan(flow, catalog, first.data), SalvagedGaps(flow, catalog, first.data), 1,
                           retained.value)
      invariant attempt > 0 && DistinctOrders(flow) && HasSoundPlan(flow, catalog, first) ==> retained.Some?
      decreases 1 - attempt
    {
      calls := calls + 1;
      var reply := replies(attempt);
      if reply.CallFailed? { UnacceptedSalvagesNothing(flow, catalog, reply); }
      if reply.CallFailed? && reply.outOfCredits { return CreditsExhausted, None; }
      if reply.CallFailed? {
        outcome := Fallback(flow, catalog, retained, reply.error, calls);
        if retained.Some? {
          NotedStillGives(flow, catalog, first.data, 1, retained.value, reply.error, outcome);
        }
        return;
      }
      if reply.NotJson? || !SchemaAccepts(reply.data) {
        if attempt > 0 {
          outcome := Fallback(flow, catalog, retained, "output invalid", calls);
          UnacceptedSalvagesNothing(flow, catalog, reply);
          if retained.Some? {
            NotedStillGives(flow, catalog, first.data, 1, retained.value, "output invalid", outcome);
          }
          return;
        }
        UnacceptedSalvagesNothing(flow, catalog, reply);
        attempt := 1;
        continue;
      }
      if reply.data.unrealizable.Some? && attempt == 0 {
        RefusalSalvagesNothing(flow, catalog, reply.data);
        attempt := 1;
        continue;
      }
      SettledGives(flow, catalog, reply.data, calls, attempt > 0);
      var settled := Settle(flow, catalog, reply.data, calls, attempt > 0);
      if settled.Some? {
        SettledIsSealed(flow, catalog, reply.data, calls, attempt > 0);
        StoredIsUsable(flow, catalog, reply.data, calls, attempt > 0);
        return settled.value, Some(CacheValue(settled.value));
      }
      var partial := Retain(flow, catalog, reply.data, calls);
      if partial.Some? { retained := partial; }
      if attempt > 0 {
        outcome := Fallback(flow, catalog, retained, "references invalid", calls);
        if retained.Some? {
          var from, at := if partial.Some? then second.data else first.data, if partial.Some? then 2 else 1;
          NotedStillGives(flow, catalog, from, at, retained.value, "references invalid", outcome);
        }
        return;
      }
      attempt := 1;
    }
  }

  lemma RefusalSalvagesNothing(flow: Flow, catalog: Catalog, data: Match)
    requires SchemaAccepts(data) && data.unrealizable.Some?
    ensures !Salvages(flow, catalog, Replied(data))
    ensures !HasSoundPlan(flow, catalog, Replied(data))
  {
  }

  lemma UnacceptedSalvagesNothing(flow: Flow, catalog: Catalog, reply: Reply)
    requires reply.Replied? ==> !SchemaAccepts(reply.data)
    ensures !Salvages(flow, catalog, reply) && !HasSoundPlan(flow, catalog, reply)
    ensures Sealed(flow, catalog, CreditsExhausted)
  {
  }

  lemma StoredIsUsable(flow: Flow, catalog: Catalog, data: Match, calls: nat, repairMissing: bool)
    requires Settled(flow, catalog, data, calls, repairMissing).Some?
    ensures var outcome := Settled(flow, catalog, data, calls, repairMissing).value;
            var stored := CacheValue(outcome);
            && Gives(catalog, stored.plan, stored.gaps, 0, outcome.(calls := 0))
            && (flow.milestones != [] ==> Usable(flow, catalog, Some(stored)))
  {
    CachedVerdictResettles(flow, catalog, data, calls, repairMissing);
    SettledGives(flow, catalog, CacheValue(Settled(flow, catalog, data, calls, repairMissing).value), 0, false);
  }

  lemma NotedStillGives(flow: Flow, catalog: Catalog, data: Match, calls: nat, retained: Outcome, error: string,
                        outcome: Outcome)
    requires retained.Planned?
    requires Gives(catalog, SalvagedPlan(flow, catalog, data), SalvagedGaps(flow, catalog, data), calls, retained)
    requires outcome == retained.(gaps := WithError(retained.gaps, error), calls := 2)
    ensures GivesSalvaged(flow, catalog, data, error, 2, outcome)
  {
  }

  /** The retained plan with the correction's failure noted on its gaps, or the error itself. */
  method Fallback(flow: Flow, catalog: Catalog, retained: Option<Outcome>, error: string, calls: nat)
      returns (outcome: Outcome)
    requires retained.Some? ==> retained.value.Planned? && Sealed(flow, catalog, retained.value)
    ensures outcome == if retained.Some?
              then retained.value.(gaps := WithError(retained.value.gaps, error), calls := calls) else Error(calls)
    ensures Sealed(flow, catalog, outcome)
  {
    if retained.None? { return Error(calls); }
    ErrorNoteKeepsSeal(flow, catalog, retained.value, error, calls);
    outcome := retained.value.(gaps := WithError(retained.value.gaps, error), calls := calls);
  }
}
