/**
 * One area's synthesis value against its claim inventory and its existing flows
 * (packages/guard-generator/src/flows.ts: `orderMilestones`, `validateAreaSynthesis`, `reconcileAgainstPrior`,
 * `checkFlowSet`). The checker reads a value strictly, the fold leniently about what a replay produces.
 *
 * Proved: an accepted value puts each claim in a flow or under a no-flow decision, never both; and the checker
 * is clean exactly when the fold accepts the value and leaves nothing unaccounted.
 */
module FlowValidation {
  import opened Common
  import opened Text
  import opened FlowModel

  datatype SynthMilestone = SynthMilestone(claimId: string, order: Option<int>, note: string)

  datatype SynthFlow = SynthFlow(
    id: Option<string>, title: string, goal: string, startingState: Option<string>, milestones: seq<SynthMilestone>)

  datatype Retirement = Retirement(id: string, reason: string)

  datatype FlowSet = FlowSet(flows: seq<SynthFlow>, noFlow: seq<NoFlowClaim>, retired: seq<Retirement>)

  /** One synthesis unit: an area, or one chunk of a sharded one. */
  datatype Area = Area(areaId: string, claims: seq<Claim>, docs: seq<string>, chunk: Option<nat>)

  /** A flow before identity: composed and snapped, not yet named. `composedRefs` are digest positions (epics only). */
  datatype Draft = Draft(
    areaId: string,
    title: string,
    goal: string,
    startingState: Option<string>,
    milestones: seq<Milestone>,
    composedRefs: seq<nat>,
    continues: Option<string>)

  datatype Issue =
    | UnknownClaim(ref: string)
    | AssignedAndNoFlow(ref: string)
    | UnknownContinuation(id: string)
    | ContinuedTwice(id: string)
    | UnknownRetirement(id: string)
    | ContinuedAndRetired(id: string)
    | RetiredButReEmitted(id: string)
    | UnknownFlowRef(ref: string)
    | TooFewFlows(title: string)

  datatype Validation = Validation(
    flows: seq<Draft>,
    noFlow: seq<NoFlowClaim>,
    unaccountedNoFlow: seq<NoFlowClaim>,
    retired: seq<Retirement>,
    unknown: seq<Issue>,
    uncovered: seq<string>,
    unaccountedFlows: seq<string>)

  // --- Snapping and ordering ------------------------------------------------------------

  datatype Entry = Entry(order: Option<int>, note: string, claim: Claim)

  function SnapAll(claims: seq<Claim>, ms: seq<SynthMilestone>): seq<Entry> {
    if ms == [] then []
    else
      var last := ms[|ms| - 1];
      var claim := Snap(claims, last.claimId);
      SnapAll(claims, ms[..|ms| - 1]) + (if claim.Some? then [Entry(last.order, last.note, claim.value)] else [])
  }

  function UnknownRefs(claims: seq<Claim>, ms: seq<SynthMilestone>): seq<Issue> {
    if ms == [] then []
    else
      var last := ms[|ms| - 1];
      UnknownRefs(claims, ms[..|ms| - 1])
      + (if Snap(claims, last.claimId).Some? then [] else [UnknownClaim(last.claimId)])
  }

  predicate Complete(entries: seq<Entry>) { forall i | 0 <= i < |entries| :: entries[i].order.Some? }

  function InsertEntry(sorted: seq<Entry>, e: Entry): seq<Entry>
    requires Complete(sorted) && e.order.Some?
  {
    if sorted == [] || sorted[|sorted| - 1].order.value <= e.order.value then sorted + [e]
    else InsertEntry(sorted[..|sorted| - 1], e) + [sorted[|sorted| - 1]]
  }

  /** By explicit order, ties by position. */
  function SortEntries(entries: seq<Entry>): (sorted: seq<Entry>)
    requires Complete(entries)
    ensures Complete(sorted)
  {
    if entries == [] then []
    else
      var sorted := SortEntries(entries[..|entries| - 1]);
      InsertEntryComplete(sorted, entries[|entries| - 1]);
      InsertEntry(sorted, entries[|entries| - 1])
  }

  lemma {:induction false} InsertEntryComplete(sorted: seq<Entry>, e: Entry)
    requires Complete(sorted) && e.order.Some?
    ensures Complete(InsertEntry(sorted, e))
    ensures multiset(InsertEntry(sorted, e)) == multiset(sorted) + multiset{e}
  {
    if !(sorted == [] || sorted[|sorted| - 1].order.value <= e.order.value) {
      InsertEntryComplete(sorted[..|sorted| - 1], e);
      assert sorted == sorted[..|sorted| - 1] + [sorted[|sorted| - 1]];
    }
  }

  lemma {:induction false} SortEntriesPermutes(entries: seq<Entry>)
    requires Complete(entries)
    ensures multiset(SortEntries(entries)) == multiset(entries)
  {
    if entries != [] {
      var front, last := entries[..|entries| - 1], entries[|entries| - 1];
      SortEntriesPermutes(front);
      InsertEntryComplete(SortEntries(front), last);
      assert entries == front + [last];
    }
  }

  predicate HasClaim(entries: seq<Entry>, id: string) { exists i :: 0 <= i < |entries| && entries[i].claim.id == id }

  /** Repeats of a claim are dropped; the first stands. */
  function FirstOfEach(entries: seq<Entry>): seq<Entry> {
    if entries == [] then []
    else
      var firsts, last := FirstOfEach(entries[..|entries| - 1]), entries[|entries| - 1];
      if HasClaim(firsts, last.claim.id) then firsts else firsts + [last]
  }

  function Numbered(entries: seq<Entry>): seq<Milestone> {
    seq(|entries|, i requires 0 <= i < |entries| =>
      Milestone(i + 1, entries[i].claim.doc, entries[i].claim.id, entries[i].claim.title, entries[i].claim.sentences,
                entries[i].note))
  }

  function InStatedOrder(entries: seq<Entry>): seq<Entry> {
    if Complete(entries) then SortEntries(entries) else entries
  }

  function Ordered(entries: seq<Entry>): seq<Milestone> { Numbered(FirstOfEach(InStatedOrder(entries))) }

  lemma HasClaimAppend(entries: seq<Entry>, e: Entry, id: string)
    ensures HasClaim(entries + [e], id) <==> HasClaim(entries, id) || e.claim.id == id
  {
    var all := entries + [e];
    assert all[|entries|] == e;
    assert forall i | 0 <= i < |entries| :: all[i] == entries[i];
  }

  lemma {:induction false} FirstsKeepClaims(entries: seq<Entry>, id: string)
    ensures HasClaim(FirstOfEach(entries), id) <==> HasClaim(entries, id)
    ensures forall i, j | 0 <= i < j < |FirstOfEach(entries)| ::
              FirstOfEach(entries)[i].claim.id != FirstOfEach(entries)[j].claim.id
  {
    if entries != [] {
      var front, last := entries[..|entries| - 1], entries[|entries| - 1];
      FirstsKeepClaims(front, id);
      FirstsKeepClaims(front, last.claim.id);
      assert entries == front + [last];
      HasClaimAppend(front, last, id);
      HasClaimAppend(FirstOfEach(front), last, id);
    }
  }

  /** A path: numbered 1..n, one milestone a claim, exactly the claims it was given. */
  lemma OrderedPath(entries: seq<Entry>, id: string)
    ensures Names(Ordered(entries), id) <==> HasClaim(entries, id)
    ensures forall i | 0 <= i < |Ordered(entries)| :: Ordered(entries)[i].order == i + 1
    ensures forall i, j | 0 <= i < j < |Ordered(entries)| :: Ordered(entries)[i].claimId != Ordered(entries)[j].claimId
  {
    var stated := InStatedOrder(entries);
    if Complete(entries) {
      SortEntriesPermutes(entries);
      forall e
        ensures e in stated <==> e in entries
      {
        assert e in stated <==> e in multiset(stated);
        assert e in entries <==> e in multiset(entries);
      }
    }
    assert HasClaim(stated, id) <==> HasClaim(entries, id) by {
      if HasClaim(stated, id) {
        var i :| 0 <= i < |stated| && stated[i].claim.id == id;
        assert stated[i] in entries;
      }
      if HasClaim(entries, id) {
        var i :| 0 <= i < |entries| && entries[i].claim.id == id;
        assert entries[i] in stated;
      }
    }
    FirstsKeepClaims(stated, id);
    var firsts := FirstOfEach(stated);
    if HasClaim(firsts, id) {
      var i :| 0 <= i < |firsts| && firsts[i].claim.id == id;
      assert Ordered(entries)[i].claimId == id;
    }
  }

  /** By stated order where every entry states one, those of one order by place; otherwise by place. */
  predicate StandsBefore(entries: seq<Entry>, i: nat, j: nat)
    requires i < |entries| && j < |entries|
  {
    if Complete(entries) && entries[i].order != entries[j].order
    then entries[i].order.value < entries[j].order.value else i < j
  }

  /** Places of entries, each standing before the next. */
  ghost predicate InPathOrder(entries: seq<Entry>, at: seq<nat>) {
    && (forall k | 0 <= k < |at| :: at[k] < |entries|)
    && (forall k, l | 0 <= k < l < |at| :: StandsBefore(entries, at[k], at[l]))
  }

  lemma InPathOrderOn(entries: seq<Entry>, at: seq<nat>, n: nat)
    requires InPathOrder(entries, at) && n < |entries| && (at == [] || StandsBefore(entries, at[|at| - 1], n))
    ensures InPathOrder(entries, at + [n])
  {
    forall k | 0 <= k < |at|
      ensures StandsBefore(entries, at[k], n)
    {
      assert k < |at| - 1 ==> StandsBefore(entries, at[k], at[|at| - 1]);
    }
  }

  lemma {:induction false} InsertedAt(entries: seq<Entry>, sorted: seq<Entry>, at: seq<nat>) returns (places: seq<nat>)
    requires Complete(entries) && entries != [] && |sorted| == |at| && InPathOrder(entries, at)
    requires forall k | 0 <= k < |at| :: at[k] < |entries| - 1 && sorted[k] == entries[at[k]]
    ensures Complete(sorted) && |InsertEntry(sorted, entries[|entries| - 1])| == |places| == |at| + 1
    ensures InPathOrder(entries, places) && forall i :: i in places <==> i in at || i == |entries| - 1
    ensures places[|at|] == |entries| - 1 || (at != [] && places[|at|] == at[|at| - 1])
    ensures forall k | 0 <= k < |places| ::
              InsertEntry(sorted, entries[|entries| - 1])[k] == entries[places[k]]
  {
    hide InPathOrder;
    var n := |entries| - 1;
    if sorted == [] || sorted[|sorted| - 1].order.value <= entries[n].order.value {
      places := at + [n];
      InPathOrderOn(entries, at, n);
      InLonger(at, n);
    } else {
      var front, last := at[..|at| - 1], at[|at| - 1];
      assert at == front + [last];
      LastInPathOrder(entries, front, last);
      var before := InsertedAt(entries, sorted[..|sorted| - 1], front);
      places := before + [last];
      InPathOrderOn(entries, before, last);
      InLonger(before, last);
      InLonger(front, last);
    }
  }

  lemma LastInPathOrder(entries: seq<Entry>, front: seq<nat>, last: nat)
    requires InPathOrder(entries, front + [last])
    ensures InPathOrder(entries, front) && last < |entries|
    ensures front != [] ==> front[|front| - 1] < |entries| && StandsBefore(entries, front[|front| - 1], last)
  {
    var at := front + [last];
    assert forall k | 0 <= k < |front| :: at[k] == front[k];
    assert at[|front|] == last;
  }

  lemma StillInPathOrder(entries: seq<Entry>, longer: seq<Entry>, at: seq<nat>)
    requires InPathOrder(entries, at) && entries <= longer && Complete(longer)
    ensures InPathOrder(longer, at)
  {
    forall k, l | 0 <= k < l < |at|
      ensures StandsBefore(longer, at[k], at[l])
    {
      assert StandsBefore(entries, at[k], at[l]);
    }
  }

  /** Sorting moves every entry to its place in the path's order. */
  lemma {:induction false} SortedAt(entries: seq<Entry>) returns (at: seq<nat>)
    requires Complete(entries)
    ensures |SortEntries(entries)| == |at| == |entries| && InPathOrder(entries, at)
    ensures forall i: nat :: i in at <==> i < |entries|
    ensures forall k | 0 <= k < |at| :: at[k] < |entries| && SortEntries(entries)[k] == entries[at[k]]
  {
    at := [];
    if entries != [] {
      hide InPathOrder;
      var front := entries[..|entries| - 1];
      var before := SortedAt(front);
      StillInPathOrder(front, entries, before);
      at := InsertedAt(entries, SortEntries(front), before);
      forall k | 0 <= k < |at|
        ensures at[k] < |entries|
      {
        assert at[k] in at;
      }
    }
  }

  /** One of the places holds this entry's claim, and none later than it. */
  ghost predicate Kept(entries: seq<Entry>, at: seq<nat>, i: nat) {
    && i < |entries|
    && exists k :: 0 <= k < |at| && at[k] <= i && entries[at[k]].claim.id == entries[i].claim.id
  }

  /** Places of the first entry of each claim, in turn. */
  ghost predicate Firsts(entries: seq<Entry>, at: seq<nat>) {
    && (forall k | 0 <= k < |at| :: at[k] < |entries|)
    && (forall k, l | 0 <= k < l < |at| :: at[k] < at[l])
    && (forall i | 0 <= i < |entries| :: Kept(entries, at, i))
  }

  lemma OneMoreEntry(entries: seq<Entry>, e: Entry, at: seq<nat>, longer: seq<nat>)
    requires Firsts(entries, at) && (longer == at + [|entries|] || (longer == at && Kept(entries + [e], at, |entries|)))
    ensures Firsts(entries + [e], longer)
  {
    var all := entries + [e];
    forall i | 0 <= i < |all|
      ensures Kept(all, longer, i)
    {
      if i < |entries| {
        assert Kept(entries, at, i);
        var k :| 0 <= k < |at| && at[k] <= i && entries[at[k]].claim.id == entries[i].claim.id;
        assert longer[k] == at[k] && all[at[k]] == entries[at[k]];
      } else if longer != at { assert longer[|at|] == i; }
    }
  }

  lemma {:induction false} FirstsAt(entries: seq<Entry>) returns (at: seq<nat>)
    ensures Firsts(entries, at) && |FirstOfEach(entries)| == |at|
    ensures forall k | 0 <= k < |at| :: FirstOfEach(entries)[k] == entries[at[k]]
  {
    hide Kept;
    at := [];
    if entries != [] {
      var n, front := |entries| - 1, entries[..|entries| - 1];
      var before := FirstsAt(front);
      var firsts := FirstOfEach(front);
      assert entries == front + [entries[n]];
      if HasClaim(firsts, entries[n].claim.id) {
        var k :| 0 <= k < |firsts| && firsts[k].claim.id == entries[n].claim.id;
        KeptBy(entries, before, k, n);
        at := before;
      } else { at := before + [n]; }
      OneMoreEntry(front, entries[n], before, at);
    }
  }

  lemma KeptBy(entries: seq<Entry>, at: seq<nat>, k: nat, i: nat)
    requires k < |at| && at[k] <= i < |entries| && entries[at[k]].claim.id == entries[i].claim.id
    ensures Kept(entries, at, i)
  {
  }

  /** The entry's claim is on the path by this entry or one that stands before it. */
  ghost predicate Represented(entries: seq<Entry>, at: seq<nat>, i: nat)
    requires i < |entries| && forall k | 0 <= k < |at| :: at[k] < |entries|
  {
    exists k :: 0 <= k < |at| && entries[at[k]].claim.id == entries[i].claim.id
                && (at[k] == i || StandsBefore(entries, at[k], i))
  }

  /**
   * A path follows the stated orders: its milestones are entries in that order, and of the entries of one claim it is
   * the first in that order that stands.
   */
  lemma PathFollowsOrders(entries: seq<Entry>) returns (at: seq<nat>)
    ensures |Ordered(entries)| == |at| && InPathOrder(entries, at)
    ensures forall k | 0 <= k < |at| ::
              var e := entries[at[k]];
              Ordered(entries)[k] == Milestone(k + 1, e.claim.doc, e.claim.id, e.claim.title, e.claim.sentences, e.note)
    ensures forall i | 0 <= i < |entries| :: Represented(entries, at, i)
  {
    hide Kept, StandsBefore, InStatedOrder, FirstOfEach, Complete, Represented;
    var stated := InStatedOrder(entries);
    var places := StatedAt(entries);
    var picked := FirstsAt(stated);
    at := seq(|picked|, k requires 0 <= k < |picked| => places[picked[k]]);
    forall i | 0 <= i < |entries|
      ensures Represented(entries, at, i)
    {
      PlaceIsRepresented(entries, stated, places, picked, at, i);
    }
  }

  lemma StatedAt(entries: seq<Entry>) returns (at: seq<nat>)
    ensures |InStatedOrder(entries)| == |at| == |entries| && InPathOrder(entries, at)
    ensures forall i | 0 <= i < |entries| :: i in at
    ensures forall k | 0 <= k < |at| :: InStatedOrder(entries)[k] == entries[at[k]]
  {
    if Complete(entries) { at := SortedAt(entries); }
    else {
      at := seq(|entries|, i requires 0 <= i < |entries| => i);
      forall i | 0 <= i < |entries|
        ensures i in at
      {
        assert at[i] == i;
      }
    }
  }

  lemma PlaceIsRepresented(entries: seq<Entry>, stated: seq<Entry>, places: seq<nat>, picked: seq<nat>, at: seq<nat>,
                           i: nat)
    requires |stated| == |places| == |entries| && InPathOrder(entries, places) && i < |entries| && i in places
    requires forall k | 0 <= k < |places| :: stated[k] == entries[places[k]]
    requires Firsts(stated, picked) && |at| == |picked|
    requires forall k | 0 <= k < |at| :: at[k] == places[picked[k]]
    ensures (forall k | 0 <= k < |at| :: at[k] < |entries|) && Represented(entries, at, i)
  {
    hide StandsBefore;
    var j :| 0 <= j < |places| && places[j] == i;
    assert Kept(stated, picked, j);
    var k :| 0 <= k < |picked| && picked[k] <= j && stated[picked[k]].claim.id == stated[j].claim.id;
    assert entries[at[k]].claim.id == entries[i].claim.id;
    assert picked[k] < j ==> StandsBefore(entries, places[picked[k]], places[j]);
    assert at[k] == i || StandsBefore(entries, at[k], i);
  }

  method OrderMilestones(entries: seq<Entry>) returns (milestones: seq<Milestone>)
    ensures milestones == Ordered(entries)
  {
    var stated := InStatedOrder(entries);
    var seen: set<string> := {};
    milestones := [];
    ghost var firsts: seq<Entry> := [];
    for i := 0 to |stated|
      invariant firsts == FirstOfEach(stated[..i]) && milestones == Numbered(firsts)
      invariant forall id :: id in seen <==> HasClaim(firsts, id)
    {
      var e := stated[i];
      assert stated[..i + 1][..i] == stated[..i];
      HasClaimGrows(firsts, e);
      if e.claim.id !in seen {
        seen := seen + {e.claim.id};
        milestones := milestones
        + [Milestone(|milestones| + 1, e.claim.doc, e.claim.id, e.claim.title, e.claim.sentences, e.note)];
        firsts := firsts + [e];
      }
    }
    assert stated[..|stated|] == stated;
  }

  lemma HasClaimGrows(entries: seq<Entry>, e: Entry)
    ensures forall id :: HasClaim(entries + [e], id) <==> HasClaim(entries, id) || e.claim.id == id
  {
    forall id
      ensures HasClaim(entries + [e], id) <==> HasClaim(entries, id) || e.claim.id == id
    {
      HasClaimAppend(entries, e, id);
    }
  }

  // --- Drafts -------------------------------------------------------------------------------

  function DraftOf(area: Area, flow: SynthFlow): Draft {
    Draft(area.areaId, NormalizeText(flow.title), NormalizeText(flow.goal), flow.startingState,
          Ordered(SnapAll(area.claims, flow.milestones)), [], flow.id)
  }

  function DraftsOf(area: Area, flows: seq<SynthFlow>): seq<Draft> {
    if flows == [] then []
    else
      var draft := DraftOf(area, flows[|flows| - 1]);
      DraftsOf(area, flows[..|flows| - 1]) + (if draft.milestones == [] then [] else [draft])
  }

  ghost predicate NamesNone(claims: seq<Claim>, ref: string) {
    forall i | 0 <= i < |claims| :: claims[i].id != Trim(ref)
  }

  /** The milestone names an inventory claim. */
  ghost function Snaps(claims: seq<Claim>, ms: seq<SynthMilestone>): nat -> bool {
    (i: nat) => i < |ms| && !NamesNone(claims, ms[i].claimId)
  }

  /** The flow has a milestone that names an inventory claim. */
  ghost function HasPath(claims: seq<Claim>, flows: seq<SynthFlow>): nat -> bool {
    (i: nat) => i < |flows| && exists k :: Snaps(claims, flows[i].milestones)(k)
  }

  lemma SnapOrNone(claims: seq<Claim>, ref: string)
    ensures Snap(claims, ref).None? <==> NamesNone(claims, ref)
    ensures Snap(claims, ref).Some? ==> Snap(claims, ref).value in claims && Snap(claims, ref).value.id == Trim(ref)
  {
    FoundClaimIsListed(claims, Trim(ref));
  }

  /** The milestones that name an inventory claim, in the order given, each with what it says and its claim. */
  lemma {:induction false} SnappedAt(claims: seq<Claim>, ms: seq<SynthMilestone>, n: nat) returns (at: seq<nat>)
    requires n <= |ms|
    ensures |SnapAll(claims, ms[..n])| == |at| && Picks(at, n, Snaps(claims, ms))
    ensures forall k | 0 <= k < |at| ::
              var e := SnapAll(claims, ms[..n])[k];
              && at[k] < n && e.order == ms[at[k]].order && e.note == ms[at[k]].note
              && e.claim in claims && e.claim.id == Trim(ms[at[k]].claimId)
  {
    hide Trim, Snap, NamesNone, Picks;
    at := [];
    if n == 0 {
      NonePicked(Snaps(claims, ms));
    } else {
      at := SnappedAt(claims, ms, n - 1);
      PicksOn(at, n - 1, Snaps(claims, ms));
      SnapOrNone(claims, ms[n - 1].claimId);
      assert ms[..n][..n - 1] == ms[..n - 1];
      if Snaps(claims, ms)(n - 1) { at := at + [n - 1]; }
    }
  }

  lemma PathOrNone(claims: seq<Claim>, ms: seq<SynthMilestone>)
    ensures Ordered(SnapAll(claims, ms)) != [] <==> exists k :: Snaps(claims, ms)(k)
  {
    hide Snaps, InStatedOrder, FirstOfEach;
    var at := SnappedAt(claims, ms, |ms|);
    assert ms[..|ms|] == ms;
    PickedAny(at, |ms|, Snaps(claims, ms));
    NoneBeyond(claims, ms);
    var entries := SnapAll(claims, ms);
    if entries != [] {
      OrderedPath(entries, entries[0].claim.id);
      assert HasClaim(entries, entries[0].claim.id);
    } else { NothingOrdered(); }
  }

  lemma NothingOrdered()
    ensures Ordered([]) == []
  {
  }

  lemma NoneBeyond(claims: seq<Claim>, ms: seq<SynthMilestone>)
    ensures forall k: nat | k >= |ms| :: !Snaps(claims, ms)(k)
  {
  }

  lemma PickedAny(at: seq<nat>, n: nat, wanted: nat -> bool)
    requires Picks(at, n, wanted)
    ensures at != [] <==> exists k: nat :: k < n && wanted(k)
  {
    if at != [] { assert at[0] in at; }
  }

  /** The drafts are the flows with a path, in the order given, each with its own text and what it continues. */
  lemma {:induction false} DraftsAt(area: Area, flows: seq<SynthFlow>, n: nat) returns (at: seq<nat>)
    requires n <= |flows|
    ensures |DraftsOf(area, flows[..n])| == |at| && Picks(at, n, HasPath(area.claims, flows))
    ensures forall k | 0 <= k < |at| :: at[k] < n &&
              var d, flow := DraftsOf(area, flows[..n])[k], flows[at[k]];
              && d.areaId == area.areaId && d.composedRefs == [] && d.continues == flow.id
              && d.title == NormalizeText(flow.title) && d.goal == NormalizeText(flow.goal)
              && d.startingState == flow.startingState
              && d.milestones == Ordered(SnapAll(area.claims, flow.milestones))
  {
    hide NormalizeText, Ordered, SnapAll, Picks, Snaps;
    at := [];
    if n == 0 {
      NonePicked(HasPath(area.claims, flows));
    } else {
      at := DraftsAt(area, flows, n - 1);
      PicksOn(at, n - 1, HasPath(area.claims, flows));
      PathOrNone(area.claims, flows[n - 1].milestones);
      assert flows[..n][..n - 1] == flows[..n - 1];
      if HasPath(area.claims, flows)(n - 1) { at := at + [n - 1]; }
    }
  }

  function FlowIssues(claims: seq<Claim>, flows: seq<SynthFlow>): seq<Issue> {
    if flows == [] then []
    else FlowIssues(claims, flows[..|flows| - 1]) + UnknownRefs(claims, flows[|flows| - 1].milestones)
  }

  /** The claims the drafts place in a flow. */
  function AssignedClaims(drafts: seq<Draft>): set<string> {
    set d, m | d in drafts && m in d.milestones :: m.claimId
  }

  // --- No-flow decisions --------------------------------------------------------------------

  /** The prior decision on a claim: of several the last. */
  function PriorDecision(claims: seq<Claim>, prior: seq<NoFlowClaim>, id: string): Option<NoFlowClaim> {
    if prior == [] then None
    else if Snap(claims, prior[|prior| - 1].claimId).Some? && Snap(claims, prior[|prior| - 1].claimId).value.id == id
    then Some(prior[|prior| - 1])
    else PriorDecision(claims, prior[..|prior| - 1], id)
  }

  /** The claims with a prior decision, in the order first decided. */
  function DecidedClaims(claims: seq<Claim>, prior: seq<NoFlowClaim>): seq<string> {
    if prior == [] then []
    else
      var front, claim := DecidedClaims(claims, prior[..|prior| - 1]), Snap(claims, prior[|prior| - 1].claimId);
      if claim.Some? && claim.value.id !in front then front + [claim.value.id] else front
  }

  predicate Emitted(decisions: seq<NoFlowClaim>, id: string) {
    exists i :: 0 <= i < |decisions| && decisions[i].claimId == id
  }

  /** What a value re-emits: one decision a claim, a prior one's reason kept verbatim. */
  function NoFlowOut(claims: seq<Claim>, entries: seq<NoFlowClaim>, prior: seq<NoFlowClaim>): seq<NoFlowClaim> {
    if entries == [] then []
    else
      var front, last := NoFlowOut(claims, entries[..|entries| - 1], prior), entries[|entries| - 1];
      var claim := Snap(claims, last.claimId);
      if claim.None? || Emitted(front, claim.value.id) then front
      else
        var kept := PriorDecision(claims, prior, claim.value.id);
        front + [NoFlowClaim(claim.value.id, if kept.Some? then kept.value.reason else NormalizeText(last.reason))]
  }

  function NoFlowIssues(claims: seq<Claim>, entries: seq<NoFlowClaim>, placed: set<string>): seq<Issue> {
    if entries == [] then []
    else
      var last := entries[|entries| - 1];
      var claim := Snap(claims, last.claimId);
      NoFlowIssues(claims, entries[..|entries| - 1], placed)
      + (if claim.None? then [UnknownClaim(last.claimId)]
         else if claim.value.id in placed then [AssignedAndNoFlow(last.claimId)] else [])
  }

  /** Prior decisions the value neither re-emits nor covers with a milestone. */
  function Unmentioned(claims: seq<Claim>, prior: seq<NoFlowClaim>, decided: seq<string>, placed: set<string>,
                       emitted: seq<NoFlowClaim>): seq<NoFlowClaim> {
    if decided == [] then []
    else
      var last := decided[|decided| - 1];
      Unmentioned(claims, prior, decided[..|decided| - 1], placed, emitted)
      + (if last in placed || Emitted(emitted, last) || PriorDecision(claims, prior, last).None? then []
         else [PriorDecision(claims, prior, last).value])
  }

  function UncoveredClaims(claims: seq<Claim>, covered: set<string>): seq<string> {
    if claims == [] then []
    else
      UncoveredClaims(claims[..|claims| - 1], covered)
      + (if claims[|claims| - 1].id in covered then [] else [claims[|claims| - 1].id])
  }

  // --- Reconciliation -----------------------------------------------------------------------

  predicate Exists(prior: seq<Flow>, id: string) { exists p :: 0 <= p < |prior| && prior[p].id == id }

  /** The fold's reading of a continuation of a flow that has left the corpus: a new flow. */
  function Loosen(drafts: seq<Draft>, prior: seq<Flow>): seq<Draft> {
    seq(|drafts|, i requires 0 <= i < |drafts| =>
      if drafts[i].continues.Some? && !Exists(prior, drafts[i].continues.value) then drafts[i].(continues := None)
      else drafts[i])
  }

  function Continued(drafts: seq<Draft>, prior: seq<Flow>): set<string> {
    set d | d in drafts && d.continues.Some? && Exists(prior, d.continues.value) :: d.continues.value
  }

  function ContinueIssues(drafts: seq<Draft>, prior: seq<Flow>, strict: bool): seq<Issue> {
    if drafts == [] then []
    else
      var front, last := drafts[..|drafts| - 1], drafts[|drafts| - 1];
      ContinueIssues(front, prior, strict)
      + (if last.continues.None? then []
         else if !Exists(prior, last.continues.value)
             then (if strict then [UnknownContinuation(last.continues.value)] else [])
         else if last.continues.value in Continued(front, prior) then [ContinuedTwice(last.continues.value)] else [])
  }

  function DraftKey(d: Draft): Contract { ContractOf(d.milestones, d.startingState) }

  /** The contracts re-emitted without naming a flow. */
  function ReEmitted(drafts: seq<Draft>): set<Contract> { set d | d in drafts && d.continues.None? :: DraftKey(d) }

  function FlowWithId(prior: seq<Flow>, id: string): Option<Flow> {
    if prior == [] then None
    else if prior[|prior| - 1].id == id then Some(prior[|prior| - 1]) else FlowWithId(prior[..|prior| - 1], id)
  }

  datatype Fate = Retires | Ignored | Refused(issue: Issue)

  /** What a single retirement comes to, given what the drafts continue and re-emit. */
  function FateOf(r: Retirement, prior: seq<Flow>, continued: set<string>, reEmitted: set<Contract>,
                  strict: bool): Fate {
    var flow := FlowWithId(prior, r.id);
    if flow.None? then (if strict then Refused(UnknownRetirement(r.id)) else Ignored)
    else if r.id in continued then Refused(ContinuedAndRetired(r.id))
    else if ContractOf(flow.value.milestones, flow.value.startingState) in reEmitted
        then Refused(RetiredButReEmitted(r.id))
    else Retires
  }

  predicate RetiredIn(out: seq<Retirement>, id: string) { exists i :: 0 <= i < |out| && out[i].id == id }

  function RetiredOut(retired: seq<Retirement>, prior: seq<Flow>, continued: set<string>, reEmitted: set<Contract>,
                      strict: bool): seq<Retirement> {
    if retired == [] then []
    else
      var front, last := RetiredOut(retired[..|retired| - 1], prior, continued, reEmitted, strict),
          retired[|retired| - 1];
      if FateOf(last, prior, continued, reEmitted, strict).Retires? && !RetiredIn(front, last.id)
      then front + [Retirement(last.id, NormalizeText(last.reason))] else front
  }

  function RetireIssues(retired: seq<Retirement>, prior: seq<Flow>, continued: set<string>, reEmitted: set<Contract>,
                        strict: bool): seq<Issue> {
    if retired == [] then []
    else
      var fate := FateOf(retired[|retired| - 1], prior, continued, reEmitted, strict);
      RetireIssues(retired[..|retired| - 1], prior, continued, reEmitted, strict)
      + (if fate.Refused? then [fate.issue] else [])
  }

  function UnaccountedFlows(prior: seq<Flow>, continued: set<string>, out: seq<Retirement>,
                            reEmitted: set<Contract>): seq<string> {
    if prior == [] then []
    else
      var last := prior[|prior| - 1];
      UnaccountedFlows(prior[..|prior| - 1], continued, out, reEmitted)
      + (if last.id in continued || RetiredIn(out, last.id)
         || ContractOf(last.milestones, last.startingState) in reEmitted then [] else [last.id])
  }

  // --- The whole validation -------------------------------------------------------------------

  function EmittedIds(decisions: seq<NoFlowClaim>): set<string> { set n | n in decisions :: n.claimId }

  /** The claims the carried decisions account for, by their snapped id. */
  function SnappedIds(claims: seq<Claim>, decisions: seq<NoFlowClaim>): set<string> {
    set n | n in decisions && Snap(claims, n.claimId).Some? :: Snap(claims, n.claimId).value.id
  }

  function Validate(area: Area, data: FlowSet, prior: seq<Flow>, strict: bool,
                    priorNoFlow: seq<NoFlowClaim>): Validation {
    var composed := DraftsOf(area, data.flows);
    var placed := AssignedClaims(composed);
    var emitted := NoFlowOut(area.claims, data.noFlow, priorNoFlow);
    var unmentioned := Unmentioned(area.claims, priorNoFlow, DecidedClaims(area.claims, priorNoFlow), placed, emitted);
    var covered := placed + EmittedIds(emitted) + (if strict then {} else SnappedIds(area.claims, unmentioned));
    var flows := if strict then composed else Loosen(composed, prior);
    var continued, reEmitted := Continued(composed, prior), ReEmitted(flows);
    var retired := RetiredOut(data.retired, prior, continued, reEmitted, strict);
    Validation(
      flows,
      if strict then emitted else emitted + unmentioned,
      if strict then unmentioned else [],
      retired,
      FlowIssues(area.claims, data.flows) + NoFlowIssues(area.claims, data.noFlow, placed)
        + ContinueIssues(composed, prior, strict) + RetireIssues(data.retired, prior, continued, reEmitted, strict),
      UncoveredClaims(area.claims, covered),
      UnaccountedFlows(prior, continued, retired, reEmitted))
  }

  /** `isFlowSetClean` of the strict reading. */
  predicate CheckerClean(v: Validation) {
    v.unknown == [] && v.uncovered == [] && v.unaccountedFlows == [] && v.unaccountedNoFlow == []
  }

  /** What makes the fold settle an area. */
  predicate FoldAccepts(v: Validation) { v.unknown == [] && v.uncovered == [] }

  // --- Coverage -------------------------------------------------------------------------------

  ghost predicate InSomeFlow(flows: seq<Draft>, id: string) {
    exists i :: 0 <= i < |flows| && Names(flows[i].milestones, id)
  }

  ghost predicate InNoFlow(decisions: seq<NoFlowClaim>, id: string) {
    exists i :: 0 <= i < |decisions| && Trim(decisions[i].claimId) == id
  }

  lemma AssignedIsInSomeFlow(drafts: seq<Draft>, id: string)
    ensures id in AssignedClaims(drafts) <==> InSomeFlow(drafts, id)
  {
    if id in AssignedClaims(drafts) {
      var d, m :| d in drafts && m in d.milestones && m.claimId == id;
      var i :| 0 <= i < |drafts| && drafts[i] == d;
      assert Names(drafts[i].milestones, id);
    }
    if InSomeFlow(drafts, id) {
      var i :| 0 <= i < |drafts| && Names(drafts[i].milestones, id);
      var k :| 0 <= k < |drafts[i].milestones| && drafts[i].milestones[k].claimId == id;
      assert drafts[i] in drafts && drafts[i].milestones[k] in drafts[i].milestones;
    }
  }

  lemma LoosenKeepsFlows(drafts: seq<Draft>, prior: seq<Flow>, id: string)
    ensures InSomeFlow(Loosen(drafts, prior), id) <==> InSomeFlow(drafts, id)
  {
    var loose := Loosen(drafts, prior);
    if InSomeFlow(drafts, id) {
      var i :| 0 <= i < |drafts| && Names(drafts[i].milestones, id);
      assert loose[i].milestones == drafts[i].milestones;
    }
    if InSomeFlow(loose, id) {
      var i :| 0 <= i < |loose| && Names(loose[i].milestones, id);
      assert loose[i].milestones == drafts[i].milestones;
    }
  }

  lemma {:induction false} UncoveredAre(claims: seq<Claim>, covered: set<string>)
    ensures UncoveredClaims(claims, covered) == [] <==> forall i | 0 <= i < |claims| :: claims[i].id in covered
  {
    if claims != [] {
      var front, last := claims[..|claims| - 1], claims[|claims| - 1];
      UncoveredAre(front, covered);
      assert forall i | 0 <= i < |front| :: claims[i] == front[i];
      if UncoveredClaims(claims, covered) == [] {
        assert forall i | 0 <= i < |claims| :: i < |front| || claims[i] == last;
      }
    }
  }

  /**
   * What a value emits is each time the exact id of an inventory claim it
   * names, and nothing placed when no issue is raised.
   */
  lemma {:induction false} NoFlowOutIsSound(claims: seq<Claim>, entries: seq<NoFlowClaim>, prior: seq<NoFlowClaim>,
                                            placed: set<string>)
    ensures forall n | n in NoFlowOut(claims, entries, prior) :: Trim(n.claimId) == n.claimId
    ensures NoFlowIssues(claims, entries, placed) == [] ==>
              forall n | n in NoFlowOut(claims, entries, prior) :: n.claimId !in placed
  {
    if entries != [] {
      NoFlowOutIsSound(claims, entries[..|entries| - 1], prior, placed);
      var last := entries[|entries| - 1];
      FoundClaimIsListed(claims, Trim(last.claimId));
      TrimIsIdempotent(last.claimId);
    }
  }

  lemma {:induction false} PriorDecisionSnaps(claims: seq<Claim>, prior: seq<NoFlowClaim>, id: string)
    ensures PriorDecision(claims, prior, id).Some? ==>
              var n := PriorDecision(claims, prior, id).value;
              Snap(claims, n.claimId).Some? && Snap(claims, n.claimId).value.id == id && Trim(n.claimId) == id
  {
    if prior != [] {
      PriorDecisionSnaps(claims, prior[..|prior| - 1], id);
      FoundClaimIsListed(claims, Trim(prior[|prior| - 1].claimId));
    }
  }

  lemma {:induction false} UnmentionedIsSound(claims: seq<Claim>, prior: seq<NoFlowClaim>, decided: seq<string>,
                                              placed: set<string>, emitted: seq<NoFlowClaim>)
    ensures forall n | n in Unmentioned(claims, prior, decided, placed, emitted) ::
              Snap(claims, n.claimId).Some? && Snap(claims, n.claimId).value.id == Trim(n.claimId)
                  && Trim(n.claimId) !in placed
  {
    if decided != [] {
      UnmentionedIsSound(claims, prior, decided[..|decided| - 1], placed, emitted);
      PriorDecisionSnaps(claims, prior, decided[|decided| - 1]);
    }
  }

  /**
   * The coverage honesty rule: in a value the fold accepts (or the checker passes), every inventory claim is
   * placed in a flow or carries a no-flow decision, and no inventory claim is both.
   */
  lemma AcceptedValueCoversOnce(area: Area, data: FlowSet, prior: seq<Flow>, strict: bool,
                                priorNoFlow: seq<NoFlowClaim>, claim: Claim)
    requires FoldAccepts(Validate(area, data, prior, strict, priorNoFlow)) && claim in area.claims
    ensures var v := Validate(area, data, prior, strict, priorNoFlow);
            (InSomeFlow(v.flows, claim.id) || InNoFlow(v.noFlow, claim.id))
                && !(InSomeFlow(v.flows, claim.id) && InNoFlow(v.noFlow, claim.id))
  {
    hide Trim, DraftsOf, NoFlowOut, Unmentioned, DecidedClaims, FlowIssues, NoFlowIssues, ContinueIssues, RetireIssues,
         RetiredOut,
         UnaccountedFlows, UncoveredClaims, AssignedClaims, Continued, ReEmitted, InSomeFlow;
    var v := Validate(area, data, prior, strict, priorNoFlow);
    var composed := DraftsOf(area, data.flows);
    var placed := AssignedClaims(composed);
    var emitted := NoFlowOut(area.claims, data.noFlow, priorNoFlow);
    var decided := DecidedClaims(area.claims, priorNoFlow);
    var unmentioned := Unmentioned(area.claims, priorNoFlow, decided, placed, emitted);
    NoFlowOutIsSound(area.claims, data.noFlow, priorNoFlow, placed);
    UnmentionedIsSound(area.claims, priorNoFlow, decided, placed, emitted);
    AssignedIsInSomeFlow(composed, claim.id);
    LoosenKeepsFlows(composed, prior, claim.id);
    UncoveredAre(area.claims,
                 placed + EmittedIds(emitted) + (if strict then {} else SnappedIds(area.claims, unmentioned)));
    forall i | 0 <= i < |v.noFlow|
      ensures Trim(v.noFlow[i].claimId) !in placed
    {
      assert v.noFlow[i] in emitted || v.noFlow[i] in unmentioned;
    }
    if claim.id !in placed {
      var n :| (n in emitted && n.claimId == claim.id) || (!strict && n in unmentioned && Trim(n.claimId) == claim.id);
      assert n in v.noFlow;
      var i :| 0 <= i < |v.noFlow| && v.noFlow[i] == n;
      assert Trim(v.noFlow[i].claimId) == claim.id;
    }
  }

  // --- What a value says and leaves unsaid, read off its drafts and entries --------------------------

  /** A draft continues the flow of that id. */
  ghost predicate Continues(drafts: seq<Draft>, id: string) {
    exists i :: 0 <= i < |drafts| && drafts[i].continues == Some(id)
  }

  /** A draft that continues no flow has the contract of this one. */
  ghost predicate Restates(drafts: seq<Draft>, flow: Flow) {
    exists i :: 0 <= i < |drafts| && drafts[i].continues.None?
                && ContractOf(drafts[i].milestones, drafts[i].startingState)
                == ContractOf(flow.milestones, flow.startingState)
  }

  /** The flow is continued, retired or restated. */
  ghost predicate Accounted(drafts: seq<Draft>, retired: seq<Retirement>, flow: Flow) {
    Continues(drafts, flow.id) || RetiredIn(retired, flow.id) || Restates(drafts, flow)
  }

  /** The reference names the inventory claim of that id. */
  ghost predicate Refers(claims: seq<Claim>, ref: string, id: string) {
    Trim(ref) == id && exists i :: 0 <= i < |claims| && claims[i].id == id
  }

  ghost predicate DecidedIn(claims: seq<Claim>, decisions: seq<NoFlowClaim>, id: string) {
    exists i :: 0 <= i < |decisions| && Refers(claims, decisions[i].claimId, id)
  }

  /** The decision at `k` is the last of them on the claim. */
  ghost predicate LastOn(claims: seq<Claim>, decisions: seq<NoFlowClaim>, k: nat, id: string) {
    && k < |decisions| && Refers(claims, decisions[k].claimId, id)
    && forall l | k < l < |decisions| :: !Refers(claims, decisions[l].claimId, id)
  }

  ghost predicate FirstOn(claims: seq<Claim>, decisions: seq<NoFlowClaim>, k: nat, id: string) {
    && k < |decisions| && Refers(claims, decisions[k].claimId, id)
    && forall l | 0 <= l < k :: !Refers(claims, decisions[l].claimId, id)
  }

  /** An earlier decision is the last on a claim that no draft places and no entry decides. */
  ghost predicate Dropped(claims: seq<Claim>, drafts: seq<Draft>, entries: seq<NoFlowClaim>, prior: seq<NoFlowClaim>,
                          n: NoFlowClaim) {
    exists k: nat :: LastOn(claims, prior, k, Trim(n.claimId)) && n == prior[k]
                     && !InSomeFlow(drafts, Trim(n.claimId)) && !DecidedIn(claims, entries, Trim(n.claimId))
  }

  /** What is emitted on a claim: the first entry's decision, in the words of an earlier one where there is one. */
  ghost predicate Decides(claims: seq<Claim>, entries: seq<NoFlowClaim>, prior: seq<NoFlowClaim>, n: NoFlowClaim) {
    exists k: nat :: FirstOn(claims, entries, k, n.claimId)
                     && (DecidedIn(claims, prior, n.claimId) ==>
                         exists l: nat :: LastOn(claims, prior, l, n.claimId) && n.reason == prior[l].reason)
                     && (!DecidedIn(claims, prior, n.claimId) ==> n.reason == NormalizeText(entries[k].reason))
  }

  lemma SnapRefers(claims: seq<Claim>, ref: string)
    ensures Snap(claims, ref).None? <==> NamesNone(claims, ref)
    ensures forall id :: Refers(claims, ref, id) <==> Snap(claims, ref).Some? && Snap(claims, ref).value.id == id
  {
    FoundClaimIsListed(claims, Trim(ref));
  }

  lemma DecidedGrows(claims: seq<Claim>, prior: seq<NoFlowClaim>, last: NoFlowClaim, id: string)
    ensures DecidedIn(claims, prior + [last], id) <==> DecidedIn(claims, prior, id) || Refers(claims, last.claimId, id)
    ensures forall k: nat :: LastOn(claims, prior + [last], k, id) <==>
              if Refers(claims, last.claimId, id) then k == |prior| else LastOn(claims, prior, k, id)
  {
    hide Refers;
    var all := prior + [last];
    assert all[|prior|] == last && forall l | 0 <= l < |prior| :: all[l] == prior[l];
  }

  lemma {:induction false} PriorDecisionIsLast(claims: seq<Claim>, prior: seq<NoFlowClaim>, id: string)
    ensures PriorDecision(claims, prior, id).Some? <==> DecidedIn(claims, prior, id)
    ensures forall k: nat | LastOn(claims, prior, k, id) ::
              k < |prior| && PriorDecision(claims, prior, id) == Some(prior[k])
    ensures PriorDecision(claims, prior, id).Some? ==> exists k: nat :: LastOn(claims, prior, k, id)
  {
    if prior == [] {
      NothingLast(claims, id);
    } else {
      hide Snap, Refers, LastOn, DecidedIn;
      var front, last := prior[..|prior| - 1], prior[|prior| - 1];
      assert prior == front + [last];
      SnapRefers(claims, last.claimId);
      DecidedGrows(claims, front, last, id);
      PriorDecisionIsLast(claims, front, id);
      if Refers(claims, last.claimId, id) { assert LastOn(claims, prior, |front|, id); }
      else if PriorDecision(claims, front, id).Some? {
        var k: nat :| LastOn(claims, front, k, id);
        assert LastOn(claims, prior, k, id);
      }
    }
  }

  lemma NothingLast(claims: seq<Claim>, id: string)
    ensures !DecidedIn(claims, [], id) && forall k: nat :: !LastOn(claims, [], k, id)
  {
  }

  lemma {:induction false} DecidedClaimsAre(claims: seq<Claim>, prior: seq<NoFlowClaim>, id: string)
    ensures id in DecidedClaims(claims, prior) <==> DecidedIn(claims, prior, id)
  {
    if prior == [] {
      NothingLast(claims, id);
    } else {
      hide Snap, Refers, DecidedIn, LastOn;
      var front, last := prior[..|prior| - 1], prior[|prior| - 1];
      assert prior == front + [last];
      SnapRefers(claims, last.claimId);
      DecidedGrows(claims, front, last, id);
      DecidedClaimsAre(claims, front, id);
    }
  }

  lemma {:induction false} EmittedAre(claims: seq<Claim>, entries: seq<NoFlowClaim>, prior: seq<NoFlowClaim>,
                                      id: string)
    ensures Emitted(NoFlowOut(claims, entries, prior), id) <==> DecidedIn(claims, entries, id)
  {
    if entries == [] {
      NothingLast(claims, id);
    } else {
      hide Snap, Refers, DecidedIn, LastOn, NormalizeText, PriorDecision;
      var front, last := entries[..|entries| - 1], entries[|entries| - 1];
      assert entries == front + [last];
      SnapRefers(claims, last.claimId);
      DecidedGrows(claims, front, last, id);
      EmittedAre(claims, front, prior, id);
      var before, after := NoFlowOut(claims, front, prior), NoFlowOut(claims, entries, prior);
      if |after| > |before| { EmittedGrows(before, after[|before|], id); }
    }
  }

  lemma EmittedGrows(decisions: seq<NoFlowClaim>, n: NoFlowClaim, id: string)
    ensures Emitted(decisions + [n], id) <==> Emitted(decisions, id) || n.claimId == id
  {
    var all := decisions + [n];
    assert all[|decisions|] == n && forall i | 0 <= i < |decisions| :: all[i] == decisions[i];
  }

  lemma DecidesGrows(claims: seq<Claim>, entries: seq<NoFlowClaim>, last: NoFlowClaim, prior: seq<NoFlowClaim>,
                     n: NoFlowClaim)
    ensures Decides(claims, entries + [last], prior, n) <==>
            || Decides(claims, entries, prior, n)
            || (&& Refers(claims, last.claimId, n.claimId) && !DecidedIn(claims, entries, n.claimId)
                && (DecidedIn(claims, prior, n.claimId) ==>
                    exists l: nat :: LastOn(claims, prior, l, n.claimId) && n.reason == prior[l].reason)
                && (!DecidedIn(claims, prior, n.claimId) ==> n.reason == NormalizeText(last.reason)))
  {
    hide Refers, LastOn, NormalizeText;
    var all := entries + [last];
    forall k: nat | k < |entries|
      ensures FirstOn(claims, all, k, n.claimId) <==> FirstOn(claims, entries, k, n.claimId)
    {
      assert forall l | 0 <= l < |entries| :: all[l] == entries[l];
    }
    assert FirstOn(claims, all, |entries|, n.claimId) <==>
           Refers(claims, last.claimId, n.claimId) && !DecidedIn(claims, entries, n.claimId) by {
      assert forall l | 0 <= l < |entries| :: all[l] == entries[l];
      assert all[|entries|] == last;
    }
  }

  lemma {:induction false} NoFlowOutIs(claims: seq<Claim>, entries: seq<NoFlowClaim>, prior: seq<NoFlowClaim>,
                                       n: NoFlowClaim)
    ensures n in NoFlowOut(claims, entries, prior) <==> Decides(claims, entries, prior, n)
  {
    hide Snap, Refers, NamesNone, NormalizeText, Decides, DecidedIn, LastOn, Emitted;
    if entries == [] {
      NothingDecides(claims, prior, n);
    } else {
      var front, last := entries[..|entries| - 1], entries[|entries| - 1];
      assert entries == front + [last];
      NoFlowOutIs(claims, front, prior, n);
      DecidesGrows(claims, front, last, prior, n);
      SnapRefers(claims, last.claimId);
      EmittedAre(claims, front, prior, n.claimId);
      PriorDecisionIsLast(claims, prior, n.claimId);
    }
  }

  lemma NothingDecides(claims: seq<Claim>, prior: seq<NoFlowClaim>, n: NoFlowClaim)
    ensures !Decides(claims, [], prior, n)
  {
  }

  lemma {:induction false} UnmentionedIs(claims: seq<Claim>, prior: seq<NoFlowClaim>, decided: seq<string>,
                                         placed: set<string>, emitted: seq<NoFlowClaim>, n: NoFlowClaim)
    ensures n in Unmentioned(claims, prior, decided, placed, emitted) <==>
            && Trim(n.claimId) in decided && Trim(n.claimId) !in placed && !Emitted(emitted, Trim(n.claimId))
            && PriorDecision(claims, prior, Trim(n.claimId)) == Some(n)
  {
    hide Snap, Emitted, PriorDecision;
    if decided != [] {
      var front, last := decided[..|decided| - 1], decided[|decided| - 1];
      UnmentionedIs(claims, prior, front, placed, emitted, n);
      PriorDecisionSnaps(claims, prior, last);
      assert decided == front + [last];
    }
  }

  lemma DroppedIs(claims: seq<Claim>, drafts: seq<Draft>, entries: seq<NoFlowClaim>, prior: seq<NoFlowClaim>,
                  n: NoFlowClaim)
    ensures Dropped(claims, drafts, entries, prior, n) <==>
            n in Unmentioned(claims, prior, DecidedClaims(claims, prior), AssignedClaims(drafts),
                             NoFlowOut(claims, entries, prior))
  {
    hide Unmentioned, DecidedClaims, AssignedClaims, NoFlowOut, InSomeFlow, DecidedIn, LastOn, PriorDecision, Emitted;
    var id := Trim(n.claimId);
    UnmentionedIs(claims, prior, DecidedClaims(claims, prior), AssignedClaims(drafts),
                  NoFlowOut(claims, entries, prior), n);
    DecidedClaimsAre(claims, prior, id);
    PriorDecisionIsLast(claims, prior, id);
    EmittedAre(claims, entries, prior, id);
    AssignedIsInSomeFlow(drafts, id);
  }

  lemma LoosenKeepsDraft(drafts: seq<Draft>, prior: seq<Flow>, id: string)
    ensures Continues(Loosen(drafts, prior), id) <==> Continues(drafts, id) && Exists(prior, id)
    ensures Exists(prior, id) ==> (id in Continued(drafts, prior) <==> Continues(drafts, id))
  {
    hide Exists;
    var loose := Loosen(drafts, prior);
    if Continues(drafts, id) && Exists(prior, id) {
      var i :| 0 <= i < |drafts| && drafts[i].continues == Some(id);
      assert loose[i] == drafts[i] && drafts[i] in drafts;
    }
    if Continues(loose, id) {
      var i :| 0 <= i < |loose| && loose[i].continues == Some(id);
      assert drafts[i].continues == Some(id);
    }
    if id in Continued(drafts, prior) {
      var d :| d in drafts && d.continues == Some(id);
      var i :| 0 <= i < |drafts| && drafts[i] == d;
      assert drafts[i].continues == Some(id);
    }
  }

  lemma RestatedIs(drafts: seq<Draft>, flow: Flow)
    ensures ContractOf(flow.milestones, flow.startingState) in ReEmitted(drafts) <==> Restates(drafts, flow)
  {
    hide ContractOf;
    if Restates(drafts, flow) {
      var i :| 0 <= i < |drafts| && drafts[i].continues.None?
            && ContractOf(drafts[i].milestones, drafts[i].startingState)
            == ContractOf(flow.milestones, flow.startingState);
      assert drafts[i] in drafts && DraftKey(drafts[i]) == ContractOf(flow.milestones, flow.startingState);
    }
    if ContractOf(flow.milestones, flow.startingState) in ReEmitted(drafts) {
      var d :| d in drafts && d.continues.None? && DraftKey(d) == ContractOf(flow.milestones, flow.startingState);
      var i :| 0 <= i < |drafts| && drafts[i] == d;
      assert ContractOf(drafts[i].milestones, drafts[i].startingState) == DraftKey(d);
    }
  }

  lemma {:induction false} UnaccountedAre(prior: seq<Flow>, continued: set<string>, out: seq<Retirement>,
                                          reEmitted: set<Contract>, id: string)
    ensures id in UnaccountedFlows(prior, continued, out, reEmitted) <==>
            exists p :: 0 <= p < |prior| && prior[p].id == id && id !in continued && !RetiredIn(out, id)
                        && ContractOf(prior[p].milestones, prior[p].startingState) !in reEmitted
  {
    hide ContractOf, RetiredIn;
    if prior != [] {
      var front, last := prior[..|prior| - 1], prior[|prior| - 1];
      UnaccountedAre(front, continued, out, reEmitted, id);
      assert forall p | 0 <= p < |front| :: front[p] == prior[p];
      assert forall p | 0 <= p < |prior| :: p < |front| || prior[p] == last;
    }
  }

  /**
   * A flow is left unaccounted exactly when a prior flow has its id and no draft continues it, no retirement that
   * stands names it, and no draft that continues none has its contract.
   */
  lemma UnaccountedExactly(area: Area, data: FlowSet, prior: seq<Flow>, strict: bool, priorNoFlow: seq<NoFlowClaim>,
                           id: string)
    ensures var v := Validate(area, data, prior, strict, priorNoFlow);
            id in v.unaccountedFlows <==>
            exists p :: 0 <= p < |prior| && prior[p].id == id && !Accounted(v.flows, v.retired, prior[p])
  {
    hide DraftsOf, NoFlowOut, Unmentioned, DecidedClaims, FlowIssues, NoFlowIssues, ContinueIssues, RetireIssues,
         RetiredOut, UnaccountedFlows, UncoveredClaims, AssignedClaims, Continued, ReEmitted, Loosen, RetiredIn,
             ContractOf,
         Restates, Continues;
    var v := Validate(area, data, prior, strict, priorNoFlow);
    var composed := DraftsOf(area, data.flows);
    UnaccountedAre(prior, Continued(composed, prior), v.retired, ReEmitted(v.flows), id);
    forall p | 0 <= p < |prior| && prior[p].id == id
      ensures id in Continued(composed, prior) <==> Continues(v.flows, id)
      ensures Restates(v.flows, prior[p]) <==>
              ContractOf(prior[p].milestones, prior[p].startingState) in ReEmitted(v.flows)
    {
      LoosenKeepsDraft(composed, prior, id);
      RestatedIs(v.flows, prior[p]);
    }
  }

  /**
   * The decisions of a value are its entries', one a claim, in the words of the last earlier decision where there is
   * one; an earlier decision, the last on its claim, is unaccounted exactly when the value says nothing of the claim,
   * and the fold keeps it as it was.
   */
  lemma DecisionsExactly(area: Area, data: FlowSet, prior: seq<Flow>, strict: bool, priorNoFlow: seq<NoFlowClaim>,
                         n: NoFlowClaim)
    ensures var v := Validate(area, data, prior, strict, priorNoFlow);
            && (n in v.unaccountedNoFlow <==> strict && Dropped(area.claims, v.flows, data.noFlow, priorNoFlow, n))
            && (n in v.noFlow <==>
                 || Decides(area.claims, data.noFlow, priorNoFlow, n)
                 || (!strict && Dropped(area.claims, v.flows, data.noFlow, priorNoFlow, n)))
  {
    hide DraftsOf, NoFlowOut, Unmentioned, DecidedClaims, FlowIssues, NoFlowIssues, ContinueIssues, RetireIssues,
         RetiredOut, UnaccountedFlows, UncoveredClaims, AssignedClaims, Continued, ReEmitted, Loosen, InSomeFlow,
             Decides,
         DecidedIn, LastOn;
    var composed := DraftsOf(area, data.flows);
    NoFlowOutIs(area.claims, data.noFlow, priorNoFlow, n);
    DroppedIs(area.claims, composed, data.noFlow, priorNoFlow, n);
    LoosenKeepsFlows(composed, prior, Trim(n.claimId));
  }

  // --- The strict checker and the lenient fold --------------------------------------------------

  /** Every existing flow a value continues or retires is one the unit has. */
  ghost predicate NamesOnlyPrior(area: Area, data: FlowSet, prior: seq<Flow>) {
    && (forall id | Continues(DraftsOf(area, data.flows), id) :: Exists(prior, id))
    && (forall i | 0 <= i < |data.retired| :: Exists(prior, data.retired[i].id))
  }

  /** Every existing no-flow decision on an inventory claim is re-emitted or covered by a milestone. */
  ghost predicate MentionsDecisions(area: Area, data: FlowSet, priorNoFlow: seq<NoFlowClaim>) {
    forall i, id | 0 <= i < |priorNoFlow| && Refers(area.claims, priorNoFlow[i].claimId, id) ::
      InSomeFlow(DraftsOf(area, data.flows), id) || DecidedIn(area.claims, data.noFlow, id)
  }

  lemma {:induction false} StrictContinueIssues(drafts: seq<Draft>, prior: seq<Flow>)
    ensures ContinueIssues(drafts, prior, true) == [] <==>
            ContinueIssues(drafts, prior, false) == [] && forall id | Continues(drafts, id) :: Exists(prior, id)
  {
    hide Exists;
    if drafts != [] {
      var front, last := drafts[..|drafts| - 1], drafts[|drafts| - 1];
      StrictContinueIssues(front, prior);
      forall id
        ensures Continues(drafts, id) <==> Continues(front, id) || last.continues == Some(id)
      {
        ContinuesGrows(front, last, id);
        assert drafts == front + [last];
      }
    }
  }

  lemma ContinuesGrows(drafts: seq<Draft>, d: Draft, id: string)
    ensures Continues(drafts + [d], id) <==> Continues(drafts, id) || d.continues == Some(id)
  {
    var all := drafts + [d];
    assert all[|drafts|] == d && forall i | 0 <= i < |drafts| :: all[i] == drafts[i];
  }

  lemma {:induction false} StrictRetireIssues(retired: seq<Retirement>, prior: seq<Flow>, continued: set<string>,
                                              reEmitted: set<Contract>)
    ensures RetireIssues(retired, prior, continued, reEmitted, true) == [] <==>
            && RetireIssues(retired, prior, continued, reEmitted, false) == []
            && forall i | 0 <= i < |retired| :: Exists(prior, retired[i].id)
    ensures RetiredOut(retired, prior, continued, reEmitted, true) ==
              RetiredOut(retired, prior, continued, reEmitted, false)
  {
    hide FlowWithId, Exists;
    if retired != [] {
      var front, last := retired[..|retired| - 1], retired[|retired| - 1];
      StrictRetireIssues(front, prior, continued, reEmitted);
      FlowWithIdIs(prior, last.id);
      assert forall i | 0 <= i < |front| :: front[i] == retired[i];
      assert forall i | 0 <= i < |retired| :: i < |front| || retired[i] == last;
    }
  }

  /** The flow at `p` is the last of that id. */
  ghost predicate LastFlow(prior: seq<Flow>, p: nat, id: string) {
    p < |prior| && prior[p].id == id && forall q | p < q < |prior| :: prior[q].id != id
  }

  lemma {:induction false} FlowWithIdIs(prior: seq<Flow>, id: string)
    ensures FlowWithId(prior, id).Some? <==> Exists(prior, id)
    ensures forall p: nat | LastFlow(prior, p, id) :: FlowWithId(prior, id) == Some(prior[p])
    ensures Exists(prior, id) ==> exists p: nat :: LastFlow(prior, p, id)
  {
    if prior != [] {
      var n, front := |prior| - 1, prior[..|prior| - 1];
      assert forall q | 0 <= q < n :: front[q] == prior[q];
      if prior[n].id == id {
        assert LastFlow(prior, n, id);
      } else {
        FlowWithIdIs(front, id);
        assert forall p: nat :: LastFlow(prior, p, id) <==> LastFlow(front, p, id);
        if Exists(prior, id) {
          var q :| 0 <= q < |prior| && prior[q].id == id;
          assert front[q].id == id;
        }
      }
    }
  }

  /** A retirement may stand: the last prior flow it names is neither continued nor restated. */
  ghost predicate MayRetire(drafts: seq<Draft>, prior: seq<Flow>, id: string) {
    !Continues(drafts, id) && exists p: nat :: LastFlow(prior, p, id) && !Restates(drafts, prior[p])
  }

  /** The first retirement of the id. */
  ghost predicate FirstRetirement(retired: seq<Retirement>, k: nat, id: string) {
    k < |retired| && retired[k].id == id && forall l | 0 <= l < k :: retired[l].id != id
  }

  lemma FateIs(r: Retirement, composed: seq<Draft>, drafts: seq<Draft>, prior: seq<Flow>, strict: bool)
    requires drafts == if strict then composed else Loosen(composed, prior)
    ensures var fate := FateOf(r, prior, Continued(composed, prior), ReEmitted(drafts), strict);
            && (fate.Retires? <==> MayRetire(drafts, prior, r.id))
            && (fate.Ignored? <==> !strict && !Exists(prior, r.id))
  {
    hide Continued, ReEmitted, Loosen, Exists, FlowWithId, Continues, Restates, ContractOf, LastFlow;
    FlowWithIdIs(prior, r.id);
    if Exists(prior, r.id) {
      LoosenKeepsDraft(composed, prior, r.id);
      var p: nat :| LastFlow(prior, p, r.id);
      RestatedIs(drafts, FlowWithId(prior, r.id).value);
    } else {
      NoLastFlow(prior, r.id);
    }
  }

  lemma NoLastFlow(prior: seq<Flow>, id: string)
    requires !Exists(prior, id)
    ensures forall p: nat :: !LastFlow(prior, p, id)
  {
  }

  /** What a retirement that stands says: the first of its id, in its own words. */
  ghost predicate RetiresWith(retired: seq<Retirement>, r: Retirement) {
    exists k: nat :: FirstRetirement(retired, k, r.id) && r.reason == NormalizeText(retired[k].reason)
  }

  lemma RetiresWithGrows(retired: seq<Retirement>, last: Retirement, r: Retirement)
    ensures RetiresWith(retired + [last], r) <==>
            || RetiresWith(retired, r)
            || (!RetiredIn(retired, r.id) && last.id == r.id && r.reason == NormalizeText(last.reason))
  {
    hide NormalizeText;
    var all, n := retired + [last], |retired|;
    assert all[n] == last && forall l | 0 <= l < n :: all[l] == retired[l];
    assert forall k: nat | k < n :: FirstRetirement(all, k, r.id) <==> FirstRetirement(retired, k, r.id);
    assert FirstRetirement(all, n, r.id) <==> !RetiredIn(retired, r.id) && last.id == r.id;
  }

  lemma {:induction false} RetiredOutIs(retired: seq<Retirement>, prior: seq<Flow>, continued: set<string>,
                                        reEmitted: set<Contract>, strict: bool, r: Retirement)
    ensures r in RetiredOut(retired, prior, continued, reEmitted, strict) <==>
              FateOf(r, prior, continued, reEmitted, strict).Retires? && RetiresWith(retired, r)
    ensures RetiredIn(RetiredOut(retired, prior, continued, reEmitted, strict), r.id) <==>
              FateOf(r, prior, continued, reEmitted, strict).Retires? && RetiredIn(retired, r.id)
  {
    hide NormalizeText, FateOf, RetiresWith, RetiredIn;
    if retired == [] {
      NothingRetired(r);
    } else {
      var front, last := retired[..|retired| - 1], retired[|retired| - 1];
      assert retired == front + [last];
      RetiredOutIs(front, prior, continued, reEmitted, strict, r);
      RetiredOutIs(front, prior, continued, reEmitted, strict, last);
      var before := RetiredOut(front, prior, continued, reEmitted, strict);
      RetiresWithGrows(front, last, r);
      RetiredInGrows(front, last, r.id);
      RetiredInGrows(before, Retirement(last.id, NormalizeText(last.reason)), r.id);
      SameFate(last, r, prior, continued, reEmitted, strict);
    }
  }

  lemma NothingRetired(r: Retirement)
    ensures !RetiresWith([], r) && !RetiredIn([], r.id)
  {
  }

  lemma SameFate(a: Retirement, b: Retirement, prior: seq<Flow>, continued: set<string>, reEmitted: set<Contract>,
                 strict: bool)
    ensures a.id == b.id ==>
              FateOf(a, prior, continued, reEmitted, strict) == FateOf(b, prior, continued, reEmitted, strict)
  {
  }

  lemma RetiredInGrows(out: seq<Retirement>, r: Retirement, id: string)
    ensures RetiredIn(out + [r], id) <==> RetiredIn(out, id) || r.id == id
  {
    var all := out + [r];
    assert all[|out|] == r && forall i | 0 <= i < |out| :: all[i] == out[i];
  }

  /**
   * A retirement stands exactly when it is the first of its id and the flow it names is one the unit has that no
   * draft continues or restates; it stands with its own reason.
   */
  lemma RetiredExactly(area: Area, data: FlowSet, prior: seq<Flow>, strict: bool, priorNoFlow: seq<NoFlowClaim>,
                       r: Retirement)
    ensures var v := Validate(area, data, prior, strict, priorNoFlow);
            r in v.retired <==> MayRetire(v.flows, prior, r.id) && RetiresWith(data.retired, r)
  {
    hide DraftsOf, NoFlowOut, Unmentioned, DecidedClaims, FlowIssues, NoFlowIssues, ContinueIssues, RetireIssues,
         RetiredOut, UnaccountedFlows, UncoveredClaims, AssignedClaims, Continued, ReEmitted, Loosen, FateOf, MayRetire,
         RetiresWith;
    var v := Validate(area, data, prior, strict, priorNoFlow);
    var composed := DraftsOf(area, data.flows);
    RetiredOutIs(data.retired, prior, Continued(composed, prior), ReEmitted(v.flows), strict, r);
    FateIs(r, composed, v.flows, prior, strict);
  }

  // --- What is refused --------------------------------------------------------------------------

  ghost predicate RefsKnown(claims: seq<Claim>, flows: seq<SynthFlow>) {
    forall i, k | 0 <= i < |flows| && 0 <= k < |flows[i].milestones| ::
      !NamesNone(claims, flows[i].milestones[k].claimId)
  }

  /** Each no-flow entry names an inventory claim, and one that no draft places. */
  ghost predicate EntriesKnown(claims: seq<Claim>, entries: seq<NoFlowClaim>, drafts: seq<Draft>) {
    forall i | 0 <= i < |entries| ::
      !NamesNone(claims, entries[i].claimId) && !InSomeFlow(drafts, Trim(entries[i].claimId))
  }

  /** No two drafts continue one existing flow. */
  ghost predicate ContinuedOnce(drafts: seq<Draft>, prior: seq<Flow>) {
    forall i, j | 0 <= i < j < |drafts| && drafts[i].continues.Some? && drafts[i].continues == drafts[j].continues ::
      !Exists(prior, drafts[i].continues.value)
  }

  /** Each retirement of an existing flow is of one that may retire. */
  ghost predicate RetirementsMayStand(retired: seq<Retirement>, drafts: seq<Draft>, prior: seq<Flow>) {
    forall i | 0 <= i < |retired| && Exists(prior, retired[i].id) :: MayRetire(drafts, prior, retired[i].id)
  }

  lemma {:induction false} UnknownRefsAre(claims: seq<Claim>, ms: seq<SynthMilestone>)
    ensures UnknownRefs(claims, ms) == [] <==>
            forall k | 0 <= k < |ms| :: !NamesNone(claims, ms[k].claimId)
  {
    hide Snap, NamesNone;
    if ms != [] {
      var front, last := ms[..|ms| - 1], ms[|ms| - 1];
      UnknownRefsAre(claims, front);
      SnapRefers(claims, last.claimId);
      assert forall k | 0 <= k < |front| :: front[k] == ms[k];
      assert forall k | 0 <= k < |ms| :: k < |front| || ms[k] == last;
    }
  }

  lemma {:induction false} FlowIssuesAre(claims: seq<Claim>, flows: seq<SynthFlow>)
    ensures FlowIssues(claims, flows) == [] <==> RefsKnown(claims, flows)
  {
    hide NamesNone, UnknownRefs;
    if flows != [] {
      var front, last := flows[..|flows| - 1], flows[|flows| - 1];
      FlowIssuesAre(claims, front);
      UnknownRefsAre(claims, last.milestones);
      assert forall i | 0 <= i < |front| :: front[i] == flows[i];
      if RefsKnown(claims, flows) { assert flows[|front|] == last; }
      if RefsKnown(claims, front) && UnknownRefs(claims, last.milestones) == [] {
        forall i, k | 0 <= i < |flows| && 0 <= k < |flows[i].milestones|
          ensures !NamesNone(claims, flows[i].milestones[k].claimId)
        {
          assert i < |front| || flows[i] == last;
        }
      }
    }
  }

  lemma {:induction false} NoFlowIssuesAre(claims: seq<Claim>, entries: seq<NoFlowClaim>, drafts: seq<Draft>)
    ensures NoFlowIssues(claims, entries, AssignedClaims(drafts)) == [] <==> EntriesKnown(claims, entries, drafts)
  {
    hide Snap, NamesNone, AssignedClaims, InSomeFlow, Trim;
    if entries != [] {
      var front, last := entries[..|entries| - 1], entries[|entries| - 1];
      NoFlowIssuesAre(claims, front, drafts);
      SnapRefers(claims, last.claimId);
      if Snap(claims, last.claimId).Some? { assert Refers(claims, last.claimId, Snap(claims, last.claimId).value.id); }
      AssignedIsInSomeFlow(drafts, Trim(last.claimId));
      assert forall k | 0 <= k < |front| :: front[k] == entries[k];
      assert forall k | 0 <= k < |entries| :: k < |front| || entries[k] == last;
      if EntriesKnown(claims, entries, drafts) { assert entries[|front|] == last; }
    }
  }

  lemma {:induction false} ContinueIssuesAre(drafts: seq<Draft>, prior: seq<Flow>)
    ensures ContinueIssues(drafts, prior, false) == [] <==> ContinuedOnce(drafts, prior)
  {
    hide Exists;
    if drafts != [] {
      var front, last := drafts[..|drafts| - 1], drafts[|drafts| - 1];
      ContinueIssuesAre(front, prior);
      assert forall k | 0 <= k < |front| :: front[k] == drafts[k];
      if last.continues.Some? && Exists(prior, last.continues.value) {
        LoosenKeepsDraft(front, prior, last.continues.value);
        if Continues(front, last.continues.value) {
          var i :| 0 <= i < |front| && front[i].continues == Some(last.continues.value);
          assert drafts[i].continues == drafts[|front|].continues;
          assert !ContinuedOnce(drafts, prior);
        }
      }
      if ContinueIssues(drafts, prior, false) == [] {
        forall i, j | 0 <= i < j < |drafts| && drafts[i].continues.Some? && drafts[i].continues == drafts[j].continues
          ensures !Exists(prior, drafts[i].continues.value)
        {
          if j < |front| { assert front[i].continues == front[j].continues; }
          else { assert Continues(front, drafts[i].continues.value) by { assert front[i] == drafts[i]; } }
        }
      }
    }
  }

  lemma {:induction false} RetireIssuesAre(retired: seq<Retirement>, composed: seq<Draft>, prior: seq<Flow>)
    ensures RetireIssues(retired, prior, Continued(composed, prior), ReEmitted(Loosen(composed, prior)), false) == []
            <==> RetirementsMayStand(retired, Loosen(composed, prior), prior)
  {
    hide Continued, ReEmitted, Loosen, FateOf, Exists, MayRetire;
    if retired != [] {
      var front, last := retired[..|retired| - 1], retired[|retired| - 1];
      RetireIssuesAre(front, composed, prior);
      FateIs(last, composed, Loosen(composed, prior), prior, false);
      NothingRetires(Loosen(composed, prior), prior, last.id);
      assert forall k | 0 <= k < |front| :: front[k] == retired[k];
      assert forall k | 0 <= k < |retired| :: k < |front| || retired[k] == last;
    }
  }

  lemma NothingRetires(drafts: seq<Draft>, prior: seq<Flow>, id: string)
    ensures !Exists(prior, id) ==> !MayRetire(drafts, prior, id)
  {
  }

  /** The fold accepts a value exactly when it contradicts neither the inventory nor itself and places every claim. */
  lemma FoldAcceptsExactlyWhen(area: Area, data: FlowSet, prior: seq<Flow>, priorNoFlow: seq<NoFlowClaim>)
    ensures var v := Validate(area, data, prior, false, priorNoFlow);
            FoldAccepts(v) <==>
              && RefsKnown(area.claims, data.flows) && EntriesKnown(area.claims, data.noFlow, v.flows)
              && ContinuedOnce(v.flows, prior) && RetirementsMayStand(data.retired, v.flows, prior)
              && forall i | 0 <= i < |area.claims| ::
                  InSomeFlow(v.flows, area.claims[i].id) || InNoFlow(v.noFlow, area.claims[i].id)
  {
    hide Trim, DraftsOf, NoFlowOut, Unmentioned, DecidedClaims, FlowIssues, NoFlowIssues, ContinueIssues, RetireIssues,
         RetiredOut, UnaccountedFlows, UncoveredClaims, AssignedClaims, Continued, ReEmitted, InSomeFlow, Loosen,
             InNoFlow,
         EntriesKnown, RefsKnown, ContinuedOnce, RetirementsMayStand;
    var v := Validate(area, data, prior, false, priorNoFlow);
    var composed := DraftsOf(area, data.flows);
    FlowIssuesAre(area.claims, data.flows);
    NoFlowIssuesAre(area.claims, data.noFlow, composed);
    ContinueIssuesAre(composed, prior);
    RetireIssuesAre(data.retired, composed, prior);
    LooseSayTheSame(area.claims, data.noFlow, composed, prior);
    CoveredAre(area, data, prior, false, priorNoFlow);
  }

  lemma LooseSayTheSame(claims: seq<Claim>, entries: seq<NoFlowClaim>, drafts: seq<Draft>, prior: seq<Flow>)
    ensures EntriesKnown(claims, entries, Loosen(drafts, prior)) <==> EntriesKnown(claims, entries, drafts)
    ensures ContinuedOnce(Loosen(drafts, prior), prior) <==> ContinuedOnce(drafts, prior)
  {
    hide InSomeFlow, Exists, NamesNone;
    forall id
      ensures InSomeFlow(Loosen(drafts, prior), id) <==> InSomeFlow(drafts, id)
    {
      LoosenKeepsFlows(drafts, prior, id);
    }
    var loose := Loosen(drafts, prior);
    assert forall i | 0 <= i < |drafts| && drafts[i].continues.Some? && Exists(prior, drafts[i].continues.value) ::
        loose[i] == drafts[i];
    assert forall i | 0 <= i < |drafts| && loose[i].continues.Some? ::
        loose[i] == drafts[i] && Exists(prior, drafts[i].continues.value);
  }

  /** A claim is covered by a milestone, a decision emitted, or one the fold keeps; the rest are reported. */
  lemma CoveredAre(area: Area, data: FlowSet, prior: seq<Flow>, strict: bool, priorNoFlow: seq<NoFlowClaim>)
    ensures var v := Validate(area, data, prior, strict, priorNoFlow);
            v.uncovered == [] <==> forall i | 0 <= i < |area.claims| ::
              InSomeFlow(v.flows, area.claims[i].id) || InNoFlow(v.noFlow, area.claims[i].id)
  {
    hide Trim, DraftsOf, NoFlowOut, Unmentioned, DecidedClaims, FlowIssues, NoFlowIssues, ContinueIssues, RetireIssues,
         RetiredOut, UnaccountedFlows, UncoveredClaims, AssignedClaims, Continued, ReEmitted, InSomeFlow, InNoFlow,
             Loosen,
         EmittedIds, SnappedIds;
    var v := Validate(area, data, prior, strict, priorNoFlow);
    var composed := DraftsOf(area, data.flows);
    var placed := AssignedClaims(composed);
    var emitted := NoFlowOut(area.claims, data.noFlow, priorNoFlow);
    var left := Unmentioned(area.claims, priorNoFlow, DecidedClaims(area.claims, priorNoFlow), placed, emitted);
    var covered := placed + EmittedIds(emitted) + (if strict then {} else SnappedIds(area.claims, left));
    UncoveredAre(area.claims, covered);
    NoFlowOutIsSound(area.claims, data.noFlow, priorNoFlow, placed);
    UnmentionedIsSound(area.claims, priorNoFlow, DecidedClaims(area.claims, priorNoFlow), placed, emitted);
    forall i | 0 <= i < |area.claims|
      ensures area.claims[i].id in covered <==>
              InSomeFlow(v.flows, area.claims[i].id) || InNoFlow(v.noFlow, area.claims[i].id)
    {
      var id := area.claims[i].id;
      AssignedIsInSomeFlow(composed, id);
      LoosenKeepsFlows(composed, prior, id);
      EmittedIsInNoFlow(emitted, id);
      LeftIsInNoFlow(area.claims, left, id);
      InNoFlowSplits(emitted, left, id);
    }
  }

  lemma EmittedIsInNoFlow(emitted: seq<NoFlowClaim>, id: string)
    requires forall n | n in emitted :: Trim(n.claimId) == n.claimId
    ensures id in EmittedIds(emitted) <==> InNoFlow(emitted, id)
  {
    hide Trim;
    if id in EmittedIds(emitted) {
      var n :| n in emitted && n.claimId == id;
      var i :| 0 <= i < |emitted| && emitted[i] == n;
      assert Trim(emitted[i].claimId) == id;
    }
    if InNoFlow(emitted, id) {
      var i :| 0 <= i < |emitted| && Trim(emitted[i].claimId) == id;
      assert emitted[i] in emitted;
    }
  }

  lemma LeftIsInNoFlow(claims: seq<Claim>, left: seq<NoFlowClaim>, id: string)
    requires forall n | n in left ::
               Snap(claims, n.claimId).Some? && Snap(claims, n.claimId).value.id == Trim(n.claimId)
    ensures id in SnappedIds(claims, left) <==> InNoFlow(left, id)
  {
    hide Trim, Snap;
    if id in SnappedIds(claims, left) {
      var n :| n in left && Snap(claims, n.claimId).Some? && Snap(claims, n.claimId).value.id == id;
      var i :| 0 <= i < |left| && left[i] == n;
      assert Trim(left[i].claimId) == id;
    }
    if InNoFlow(left, id) {
      var i :| 0 <= i < |left| && Trim(left[i].claimId) == id;
      assert left[i] in left;
    }
  }

  lemma InNoFlowSplits(a: seq<NoFlowClaim>, b: seq<NoFlowClaim>, id: string)
    ensures InNoFlow(a + b, id) <==> InNoFlow(a, id) || InNoFlow(b, id)
  {
    hide Trim;
    var all := a + b;
    assert forall i | 0 <= i < |a| :: all[i] == a[i];
    assert forall i | 0 <= i < |b| :: all[|a| + i] == b[i];
    if InNoFlow(all, id) {
      var i :| 0 <= i < |all| && Trim(all[i].claimId) == id;
      if i >= |a| { assert Trim(b[i - |a|].claimId) == id; } else { assert Trim(a[i].claimId) == id; }
    }
  }

  /** No earlier decision is dropped exactly when every one on an inventory claim is mentioned. */
  lemma NoneDropped(area: Area, data: FlowSet, drafts: seq<Draft>, priorNoFlow: seq<NoFlowClaim>)
    requires drafts == DraftsOf(area, data.flows)
    ensures Unmentioned(area.claims, priorNoFlow, DecidedClaims(area.claims, priorNoFlow), AssignedClaims(drafts),
                        NoFlowOut(area.claims, data.noFlow, priorNoFlow)) == [] <==>
            MentionsDecisions(area, data, priorNoFlow)
  {
    hide Unmentioned, DecidedClaims, AssignedClaims, NoFlowOut, InSomeFlow, DecidedIn, LastOn, PriorDecision, Emitted,
         DraftsOf,
         Refers;
    var left := Unmentioned(area.claims, priorNoFlow, DecidedClaims(area.claims, priorNoFlow), AssignedClaims(drafts),
                            NoFlowOut(area.claims, data.noFlow, priorNoFlow));
    if left != [] {
      DroppedIs(area.claims, drafts, data.noFlow, priorNoFlow, left[0]);
      var k: nat :| LastOn(area.claims, priorNoFlow, k, Trim(left[0].claimId));
      LastRefers(area.claims, priorNoFlow, k, Trim(left[0].claimId));
    }
    if left == [] {
      forall i, id | 0 <= i < |priorNoFlow| && Refers(area.claims, priorNoFlow[i].claimId, id)
        ensures InSomeFlow(drafts, id) || DecidedIn(area.claims, data.noFlow, id)
      {
        var k := SomeLast(area.claims, priorNoFlow, i, id);
        DroppedIs(area.claims, drafts, data.noFlow, priorNoFlow, priorNoFlow[k]);
        LastRefers(area.claims, priorNoFlow, k, id);
      }
    }
  }

  lemma LastRefers(claims: seq<Claim>, prior: seq<NoFlowClaim>, k: nat, id: string)
    requires LastOn(claims, prior, k, id)
    ensures k < |prior| && Refers(claims, prior[k].claimId, id) && Trim(prior[k].claimId) == id
  {
  }

  lemma {:induction false} SomeLast(claims: seq<Claim>, prior: seq<NoFlowClaim>, i: nat, id: string) returns (k: nat)
    requires i < |prior| && Refers(claims, prior[i].claimId, id)
    ensures k < |prior| && LastOn(claims, prior, k, id)
    decreases |prior| - i
  {
    if j :| i < j < |prior| && Refers(claims, prior[j].claimId, id) { k := SomeLast(claims, prior, j, id); }
    else { k := i; }
  }

  /**
   * The checker passes a value exactly when the fold accepts it, it names only flows the unit has, every flow of the
   * unit is continued, retired or restated by it, and every earlier no-flow decision is re-emitted or placed; and then
   * the fold keeps the very same drafts, no-flow claims and retirements.
   */
  lemma CheckerAgreesWithFold(area: Area, data: FlowSet, prior: seq<Flow>, priorNoFlow: seq<NoFlowClaim>)
    ensures var strict, lenient := Validate(area, data, prior, true, priorNoFlow),
              Validate(area, data, prior, false, priorNoFlow);
            CheckerClean(strict) <==>
              && FoldAccepts(lenient)
              && (forall p | 0 <= p < |prior| :: Accounted(lenient.flows, lenient.retired, prior[p]))
              && NamesOnlyPrior(area, data, prior) && MentionsDecisions(area, data, priorNoFlow)
    ensures var strict, lenient := Validate(area, data, prior, true, priorNoFlow),
              Validate(area, data, prior, false, priorNoFlow);
            CheckerClean(strict) ==>
              lenient.flows == strict.flows && lenient.noFlow == strict.noFlow && lenient.retired == strict.retired
  {
    hide DraftsOf, NoFlowOut, RetiredOut, RetireIssues, ContinueIssues, FlowIssues, NoFlowIssues, Unmentioned,
         UncoveredClaims, UnaccountedFlows, DecidedClaims, Continued, ReEmitted, Exists, FlowWithId, Accounted,
         MentionsDecisions, Loosen, Continues, AssignedClaims;
    var composed := DraftsOf(area, data.flows);
    StrictContinueIssues(composed, prior);
    NoneDropped(area, data, composed, priorNoFlow);
    AllAccounted(area, data, prior, priorNoFlow);
    if forall id | Continues(composed, id) :: Exists(prior, id) {
      NothingLoosened(composed, prior);
      StrictRetireIssues(data.retired, prior, Continued(composed, prior), ReEmitted(composed));
      if MentionsDecisions(area, data, priorNoFlow) {
        var emitted := NoFlowOut(area.claims, data.noFlow, priorNoFlow);
        assert emitted + [] == emitted;
        assert SnappedIds(area.claims, []) == {};
        assert AssignedClaims(composed) + EmittedIds(emitted) + {} == AssignedClaims(composed) + EmittedIds(emitted);
      }
    }
  }

  lemma NothingLoosened(drafts: seq<Draft>, prior: seq<Flow>)
    requires forall id | Continues(drafts, id) :: Exists(prior, id)
    ensures Loosen(drafts, prior) == drafts
  {
    hide Exists;
    forall i | 0 <= i < |drafts| && drafts[i].continues.Some?
      ensures Exists(prior, drafts[i].continues.value)
    {
      assert Continues(drafts, drafts[i].continues.value);
    }
  }

  lemma AllAccounted(area: Area, data: FlowSet, prior: seq<Flow>, priorNoFlow: seq<NoFlowClaim>)
    ensures var v := Validate(area, data, prior, false, priorNoFlow);
            v.unaccountedFlows == [] <==> forall p | 0 <= p < |prior| :: Accounted(v.flows, v.retired, prior[p])
  {
    hide Validate, Accounted;
    var v := Validate(area, data, prior, false, priorNoFlow);
    if v.unaccountedFlows != [] {
      UnaccountedExactly(area, data, prior, false, priorNoFlow, v.unaccountedFlows[0]);
    }
    forall p | 0 <= p < |prior| && v.unaccountedFlows == []
      ensures Accounted(v.flows, v.retired, prior[p])
    {
      UnaccountedExactly(area, data, prior, false, priorNoFlow, prior[p].id);
    }
  }

  // --- The loops themselves -----------------------------------------------------------------------

  /** The fold's own pass over a value's flows: snap, order, keep what has a path. */
  method ComposeDrafts(area: Area, flows: seq<SynthFlow>) returns (drafts: seq<Draft>, unknown: seq<Issue>)
    ensures drafts == DraftsOf(area, flows) && unknown == FlowIssues(area.claims, flows)
  {
    drafts, unknown := [], [];
    for i := 0 to |flows|
      invariant drafts == DraftsOf(area, flows[..i]) && unknown == FlowIssues(area.claims, flows[..i])
    {
      var ms := flows[i].milestones;
      assert flows[..i + 1][..i] == flows[..i];
      var snapped: seq<Entry>, missed: seq<Issue> := [], [];
      for k := 0 to |ms|
        invariant snapped == SnapAll(area.claims, ms[..k]) && missed == UnknownRefs(area.claims, ms[..k])
      {
        assert ms[..k + 1][..k] == ms[..k];
        var claim := Snap(area.claims, ms[k].claimId);
        if claim.None? { missed := missed + [UnknownClaim(ms[k].claimId)]; }
        else { snapped := snapped + [Entry(ms[k].order, ms[k].note, claim.value)]; }
      }
      assert ms[..|ms|] == ms;
      unknown := unknown + missed;
      var milestones := OrderMilestones(snapped);
      if milestones != [] {
        drafts := drafts + [Draft(area.areaId, NormalizeText(flows[i].title), NormalizeText(flows[i].goal),
                                  flows[i].startingState, milestones, [], flows[i].id)];
      }
    }
    assert flows[..|flows|] == flows;
  }

  method EmitNoFlow(claims: seq<Claim>, entries: seq<NoFlowClaim>, prior: seq<NoFlowClaim>, placed: set<string>)
    returns (decisions: seq<NoFlowClaim>, unknown: seq<Issue>)
    ensures decisions == NoFlowOut(claims, entries, prior) && unknown == NoFlowIssues(claims, entries, placed)
  {
    hide Snap, PriorDecision, Emitted, NormalizeText;
    decisions, unknown := [], [];
    for i := 0 to |entries|
      invariant decisions == NoFlowOut(claims, entries[..i], prior)
      invariant unknown == NoFlowIssues(claims, entries[..i], placed)
    {
      assert entries[..i + 1][..i] == entries[..i];
      var claim := Snap(claims, entries[i].claimId);
      if claim.None? {
        unknown := unknown + [UnknownClaim(entries[i].claimId)];
        continue;
      }
      if claim.value.id in placed { unknown := unknown + [AssignedAndNoFlow(entries[i].claimId)]; }
      if !Emitted(decisions, claim.value.id) {
        var kept := PriorDecision(claims, prior, claim.value.id);
        decisions := decisions
        + [NoFlowClaim(claim.value.id, if kept.Some? then kept.value.reason else NormalizeText(entries[i].reason))];
      }
    }
    assert entries[..|entries|] == entries;
  }

  /** First half: what the drafts continue; the fold reads a flow that has left the corpus as a new one. */
  method ReconcileContinuations(drafts: seq<Draft>, prior: seq<Flow>, strict: bool)
    returns (reconciled: seq<Draft>, continued: set<string>, unknown: seq<Issue>)
    ensures reconciled == if strict then drafts else Loosen(drafts, prior)
    ensures continued == Continued(drafts, prior) && unknown == ContinueIssues(drafts, prior, strict)
  {
    hide Exists, Continued;
    reconciled, continued, unknown := drafts, {}, [];
    NoneContinued(prior);
    for i := 0 to |drafts|
      invariant |reconciled| == |drafts|
      invariant forall k | i <= k < |drafts| :: reconciled[k] == drafts[k]
      invariant forall k | 0 <= k < i :: reconciled[k] == if strict then drafts[k] else Loosen(drafts, prior)[k]
      invariant continued == Continued(drafts[..i], prior) && unknown == ContinueIssues(drafts[..i], prior, strict)
    {
      assert drafts[..i + 1] == drafts[..i] + [drafts[i]];
      var id := drafts[i].continues;
      ContinuedGrows(drafts[..i], drafts[i], prior);
      if id.Some? {
        if !Exists(prior, id.value) {
          if strict { unknown := unknown + [UnknownContinuation(id.value)]; }
          else { reconciled := reconciled[i := drafts[i].(continues := None)]; }
        } else {
          if id.value in continued { unknown := unknown + [ContinuedTwice(id.value)]; }
          continued := continued + {id.value};
        }
      }
    }
    assert drafts[..|drafts|] == drafts;
  }

  lemma NoneContinued(prior: seq<Flow>)
    ensures Continued([], prior) == {}
  {
  }

  /** Second half: the retirements, against what the drafts continue and re-emit. */
  method ReconcileRetirements(retired: seq<Retirement>, prior: seq<Flow>, continued: set<string>,
                              reEmitted: set<Contract>, strict: bool)
    returns (out: seq<Retirement>, unknown: seq<Issue>)
    ensures out == RetiredOut(retired, prior, continued, reEmitted, strict)
    ensures unknown == RetireIssues(retired, prior, continued, reEmitted, strict)
  {
    hide FateOf;
    out, unknown := [], [];
    for i := 0 to |retired|
      invariant out == RetiredOut(retired[..i], prior, continued, reEmitted, strict)
      invariant unknown == RetireIssues(retired[..i], prior, continued, reEmitted, strict)
    {
      assert retired[..i + 1][..i] == retired[..i];
      match FateOf(retired[i], prior, continued, reEmitted, strict) {
        case Ignored =>
        case Refused(issue) => unknown := unknown + [issue];
        case Retires =>
          if !RetiredIn(out, retired[i].id) {
            out := out + [Retirement(retired[i].id, NormalizeText(retired[i].reason))];
          }
      }
    }
    assert retired[..|retired|] == retired;
  }

  /** `reconcileAgainstPrior`: every existing flow continued, retired with a reason, or re-emitted unchanged. */
  method ReconcileAgainstPrior(drafts: seq<Draft>, retired: seq<Retirement>, prior: seq<Flow>, strict: bool)
    returns (reconciled: seq<Draft>, out: seq<Retirement>, unaccounted: seq<string>, unknown: seq<Issue>)
    ensures reconciled == if strict then drafts else Loosen(drafts, prior)
    ensures out == RetiredOut(retired, prior, Continued(drafts, prior), ReEmitted(reconciled), strict)
    ensures unaccounted == UnaccountedFlows(prior, Continued(drafts, prior), out, ReEmitted(reconciled))
    ensures unknown == ContinueIssues(drafts, prior, strict)
              + RetireIssues(retired, prior, Continued(drafts, prior), ReEmitted(reconciled), strict)
  {
    var continued, issues;
    reconciled, continued, unknown := ReconcileContinuations(drafts, prior, strict);
    var reEmitted := ReEmitted(reconciled);
    out, issues := ReconcileRetirements(retired, prior, continued, reEmitted, strict);
    unknown := unknown + issues;
    unaccounted := UnaccountedFlows(prior, continued, out, reEmitted);
  }

  lemma ContinuedGrows(drafts: seq<Draft>, d: Draft, prior: seq<Flow>)
    ensures Continued(drafts + [d], prior) ==
            Continued(drafts, prior)
            + (if d.continues.Some? && Exists(prior, d.continues.value) then {d.continues.value} else {})
  {
    assert forall x :: x in drafts + [d] <==> x in drafts || x == d;
  }

  method LeftUnmentioned(claims: seq<Claim>, prior: seq<NoFlowClaim>, placed: set<string>, emitted: seq<NoFlowClaim>)
    returns (unmentioned: seq<NoFlowClaim>)
    ensures unmentioned == Unmentioned(claims, prior, DecidedClaims(claims, prior), placed, emitted)
  {
    var decided := DecidedClaims(claims, prior);
    unmentioned := [];
    for i := 0 to |decided|
      invariant unmentioned == Unmentioned(claims, prior, decided[..i], placed, emitted)
    {
      assert decided[..i + 1][..i] == decided[..i];
      var decision := PriorDecision(claims, prior, decided[i]);
      if !(decided[i] in placed || Emitted(emitted, decided[i]) || decision.None?) {
        unmentioned := unmentioned + [decision.value];
      }
    }
    assert decided[..|decided|] == decided;
  }

  method ValidateAreaSynthesis(area: Area, data: FlowSet, prior: seq<Flow>, strict: bool, priorNoFlow: seq<NoFlowClaim>)
    returns (v: Validation)
    ensures v == Validate(area, data, prior, strict, priorNoFlow)
  {
    hide DraftsOf, AssignedClaims, NoFlowOut, Unmentioned, DecidedClaims, EmittedIds, SnappedIds, Loosen, Continued,
         ReEmitted, RetiredOut,
         FlowIssues, NoFlowIssues, ContinueIssues, RetireIssues, UncoveredClaims, UnaccountedFlows;
    var composed, unknown := ComposeDrafts(area, data.flows);
    var placed := AssignedClaims(composed);
    var emitted, conflicts := EmitNoFlow(area.claims, data.noFlow, priorNoFlow, placed);
    var unmentioned := LeftUnmentioned(area.claims, priorNoFlow, placed, emitted);
    var covered := placed + EmittedIds(emitted) + (if strict then {} else SnappedIds(area.claims, unmentioned));
    var uncovered := UncoveredClaims(area.claims, covered);
    var flows, retired, unaccounted, issues := ReconcileAgainstPrior(composed, data.retired, prior, strict);
    assert unknown + conflicts + issues ==
           unknown + conflicts + ContinueIssues(composed, prior, strict)
           + RetireIssues(data.retired, prior, Continued(composed, prior), ReEmitted(flows), strict);
    v := Validation(flows,
                    if strict then emitted else emitted + unmentioned, if strict then unmentioned else [], retired,
                    unknown + conflicts + issues, uncovered, unaccounted);
  }
}
