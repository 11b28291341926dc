/**
 * The policy half of an agent session (packages/agent-loop/src/agent-loop.ts, `track`): budget grants, the
 * wrap-up window, the context ceiling, the malformed streak and the one-shot steers, as a fold over whatever
 * the driver emits. An external abort may fall between any two events.
 */
module SessionPolicy {
  import opened Common

  const WRAP_UP_TURNS: nat := 3

  datatype Usage = Usage(input: nat, output: nat, cacheRead: nat, cacheCreate: nat)

  /** Every bucket the provider billed for. */
  function TotalTokens(u: Usage): nat { u.input + u.output + u.cacheRead + u.cacheCreate }

  /** What the model saw on one turn; its own output is not context yet. */
  function ContextTokens(u: Usage): nat { u.input + u.cacheRead + u.cacheCreate }

  datatype Event =
    | AssistantTurn(usage: Usage)
    | ReAsk
    | ToolResult(toolName: string)
    | QuestionAsked(id: string)
    | QuestionResolved(id: string)
    | OtherEvent

  datatype Item = Emitted(event: Event) | Abort

  datatype Checkpoint = Checkpoint(tool: string, afterTurn: nat)

  datatype Budget = Budget(turns: nat, maxResumes: nat, tokenCeiling: nat)

  datatype Def = Def(budget: Budget, preconditionTool: Option<string>, checkpoint: Option<Checkpoint>)

  datatype Cause = BudgetCause | ContextCause | MalformedCause | AbortedCause

  /** What the shell asks of the session, stamped with the turn count at which it asks. */
  datatype Request =
    | Grant(turn: nat, number: nat)
    | WrapUp(turn: nat)
    | Nudge(turn: nat)
    | Interrupt(turn: nat, cause: Cause)

  datatype Policy = Policy(
    turns: nat,
    turnsThisGrant: nat,
    grantsUsed: nat,
    wrapUpLeft: Option<int>,
    cause: Option<Cause>,
    prevTurnMalformed: bool,
    currentTurnMalformed: bool,
    preconditionMet: bool,
    checkpointMet: bool,
    checkpointFired: bool,
    questions: set<string>,
    tokens: nat,
    requests: seq<Request>)

  function Fresh(preconditionMet: bool, checkpointMet: bool): Policy {
    Policy(0, 0, 0, None, None, false, false, preconditionMet, checkpointMet, false, {}, 0, [])
  }

  function Interrupted(p: Policy, cause: Cause): Policy {
    p.(cause := Some(cause), requests := p.requests + [Interrupt(p.turns, cause)])
  }

  /** The counters of one assistant turn, before any decision. */
  function CountTurn(p: Policy, usage: Usage): Policy {
    p.(turns := p.turns + 1, turnsThisGrant := p.turnsThisGrant + 1, tokens := p.tokens + TotalTokens(usage),
       prevTurnMalformed := p.currentTurnMalformed, currentTurnMalformed := false)
  }

  /** What binds at a turn: the ceiling first, then the grant, the wrap-up demand, and the end of its window. */
  function Bind(def: Def, p: Policy, usage: Usage): Policy {
    if ContextTokens(usage) >= def.budget.tokenCeiling then Interrupted(p, ContextCause)
    else if p.turnsThisGrant < def.budget.turns then p
    else if p.grantsUsed < def.budget.maxResumes then
      p.(grantsUsed := p.grantsUsed + 1, turnsThisGrant := 0,
         requests := p.requests + [Grant(p.turns, p.grantsUsed + 1)])
    else if p.wrapUpLeft.None? then
      p.(wrapUpLeft := Some(WRAP_UP_TURNS), requests := p.requests + [WrapUp(p.turns)])
    else
      var left := p.wrapUpLeft.value - 1;
      var q := p.(wrapUpLeft := Some(left));
      if left <= 0 then Interrupted(q, BudgetCause) else q
  }

  function NudgeDraft(def: Def, p: Policy): Policy {
    if def.checkpoint.Some? && !p.checkpointMet && !p.checkpointFired
       && p.turns >= def.checkpoint.value.afterTurn && p.cause.None? && p.wrapUpLeft.None?
    then p.(checkpointFired := true, requests := p.requests + [Nudge(p.turns)])
    else p
  }

  function Track(def: Def, p: Policy, item: Item): Policy {
    match item
    case Abort => Interrupted(p, AbortedCause)
    case Emitted(AssistantTurn(usage)) => NudgeDraft(def, Bind(def, CountTurn(p, usage), usage))
    case Emitted(ReAsk) =>
      if p.currentTurnMalformed then p
      else
        var q := p.(currentTurnMalformed := true);
        if p.prevTurnMalformed then Interrupted(q, MalformedCause) else q
    case Emitted(ToolResult(tool)) =>
      p.(preconditionMet := p.preconditionMet || def.preconditionTool == Some(tool),
         checkpointMet := p.checkpointMet || (def.checkpoint.Some? && def.checkpoint.value.tool == tool))
    case Emitted(QuestionAsked(id)) => p.(questions := p.questions + {id})
    case Emitted(QuestionResolved(id)) => p.(questions := p.questions - {id})
    case Emitted(OtherEvent) => p
  }

  function Replay(def: Def, from: Policy, items: seq<Item>): Policy {
    if items == [] then from
    else Track(def, Replay(def, from, items[..|items| - 1]), items[|items| - 1])
  }

  lemma ReplayGrows(def: Def, from: Policy, items: seq<Item>, item: Item)
    ensures Replay(def, from, items + [item]) == Track(def, Replay(def, from, items), item)
  {
    hide Track;
    assert (items + [item])[..|items|] == items;
  }

  // --- The hard turn limit --------------------------------------------------------------

  /** A zero-turn budget binds after one turn, exactly as a one-turn budget does. */
  function GrantSize(def: Def): nat { if def.budget.turns == 0 then 1 else def.budget.turns }

  /** Turns spent in full grants: `grants * GrantSize`, see `SpentIsProduct`. */
  function Spent(def: Def, grants: nat): nat {
    if grants == 0 then 0 else Spent(def, grants - 1) + GrantSize(def)
  }

  /** The turn at which the last grant's budget binds. */
  function DemandTurn(def: Def): nat { Spent(def, def.budget.maxResumes + 1) }

  /** The grant, among the first `upTo`, that falls at a turn. */
  function GrantAt(def: Def, turn: nat, upTo: nat): Option<nat> {
    if upTo == 0 then None
    else if turn == Spent(def, upTo) then Some(upTo)
    else GrantAt(def, turn, upTo - 1)
  }

  /** The budget's whole schedule, as a function of the turn number alone. */
  function Scheduled(def: Def, turn: nat): seq<Request> {
    var grant := GrantAt(def, turn, def.budget.maxResumes);
    if grant.Some? then [Grant(turn, grant.value)]
    else if turn == DemandTurn(def) then [WrapUp(turn)]
    else if turn >= DemandTurn(def) + 3 then [Interrupt(turn, BudgetCause)]
    else []
  }

  function Schedule(def: Def, turns: nat): seq<Request> {
    if turns == 0 then [] else Schedule(def, turns - 1) + Scheduled(def, turns)
  }

  /** The shell's requests without the draft nudges. */
  function BudgetRequests(requests: seq<Request>): seq<Request> {
    if requests == [] then []
    else
      BudgetRequests(requests[..|requests| - 1])
      + (if requests[|requests| - 1].Nudge? then [] else [requests[|requests| - 1]])
  }

  function TurnCount(items: seq<Item>): nat {
    if items == [] then 0 else TurnCount(items[..|items| - 1]) + (if IsTurn(items[|items| - 1]) then 1 else 0)
  }

  predicate IsTurn(item: Item) { item.Emitted? && item.event.AssistantTurn? }

  predicate IsReAsk(item: Item) { item == Emitted(ReAsk) }

  /** Nothing but the budget stops the session: no turn at the ceiling, no abort, no malformed streak. */
  ghost predicate OnlyBudgetBinds(def: Def, items: seq<Item>) {
    && (forall i | 0 <= i < |items| :: !items[i].Abort?)
    && (forall i | 0 <= i < |items| && IsTurn(items[i]) ::
        ContextTokens(items[i].event.usage) < def.budget.tokenCeiling)
    && !MalformedStreak(items)
  }

  /** Where an uninterrupted budget stands after some turns. */
  ghost predicate OnSchedule(def: Def, p: Policy) {
    && p.grantsUsed <= def.budget.maxResumes
    && p.turns == Spent(def, p.grantsUsed) + p.turnsThisGrant
    && (p.grantsUsed < def.budget.maxResumes ==> p.turnsThisGrant < GrantSize(def) && p.wrapUpLeft.None?)
    && (p.wrapUpLeft.None? ==> p.turnsThisGrant < GrantSize(def))
    && (p.wrapUpLeft.Some? ==> p.turnsThisGrant >= GrantSize(def)
                               && p.wrapUpLeft.value == GrantSize(def) + WRAP_UP_TURNS - p.turnsThisGrant)
    && BudgetRequests(p.requests) == Schedule(def, p.turns)
  }

  lemma BudgetRequestsAppend(requests: seq<Request>, r: Request)
    ensures BudgetRequests(requests + [r]) == BudgetRequests(requests) + (if r.Nudge? then [] else [r])
  {
    assert (requests + [r])[..|requests + [r]| - 1] == requests;
  }

  lemma {:induction false} SpentIsProduct(def: Def, grants: nat)
    ensures Spent(def, grants) == grants * GrantSize(def)
  {
    if grants > 0 {
      SpentIsProduct(def, grants - 1);
      assert (grants - 1) * GrantSize(def) + GrantSize(def) == grants * GrantSize(def);
    }
  }

  lemma {:induction false} SpentGrows(def: Def, few: nat, many: nat)
    requires few < many
    ensures Spent(def, few) + GrantSize(def) <= Spent(def, many)
  {
    if few < many - 1 { SpentGrows(def, few, many - 1); }
  }

  /** Between two multiples of the grant size no grant falls; on one, its own. */
  lemma {:induction false} GrantWithin(def: Def, grants: nat, rest: nat, upTo: nat)
    requires rest < GrantSize(def)
    ensures GrantAt(def, Spent(def, grants) + rest, upTo) ==
              if rest == 0 && 0 < grants <= upTo then Some(grants) else None
  {
    if upTo > 0 {
      GrantWithin(def, grants, rest, upTo - 1);
      if grants < upTo { SpentGrows(def, grants, upTo); }
      if upTo < grants { SpentGrows(def, upTo, grants); }
    }
  }

  /** From the demand turn on no grant falls. */
  lemma {:induction false} NoGrantPast(def: Def, turn: nat, upTo: nat)
    requires upTo <= def.budget.maxResumes && turn >= DemandTurn(def)
    ensures GrantAt(def, turn, upTo).None?
  {
    if upTo > 0 {
      SpentGrows(def, upTo, def.budget.maxResumes + 1);
      NoGrantPast(def, turn, upTo - 1);
    }
  }

  lemma ScheduledWithin(def: Def, grants: nat, rest: nat)
    requires rest < GrantSize(def) && grants <= def.budget.maxResumes
    ensures Scheduled(def, Spent(def, grants) + rest) ==
              if rest == 0 && grants > 0 then [Grant(Spent(def, grants), grants)] else []
  {
    GrantWithin(def, grants, rest, def.budget.maxResumes);
    SpentGrows(def, grants, def.budget.maxResumes + 1);
  }

  /** A turn inside a grant asks for nothing. */
  lemma InsideGrant(def: Def, p: Policy, c: Policy)
    requires OnSchedule(def, p) && c.turnsThisGrant < GrantSize(def)
    requires c == p.(turns := p.turns + 1, turnsThisGrant := p.turnsThisGrant + 1, tokens := c.tokens,
                     prevTurnMalformed := c.prevTurnMalformed, currentTurnMalformed := c.currentTurnMalformed)
    ensures OnSchedule(def, c)
  {
    hide Schedule, Scheduled, BudgetRequests;
    ScheduledWithin(def, c.grantsUsed, c.turnsThisGrant);
    ScheduleGrows(def, p.turns);
  }

  lemma ScheduleGrows(def: Def, turns: nat)
    ensures Schedule(def, turns + 1) == Schedule(def, turns) + Scheduled(def, turns + 1)
  {
  }

  /** A turn that fills a grant is answered with the next one. */
  lemma GrantFilled(def: Def, p: Policy, q: Policy)
    requires OnSchedule(def, p) && p.grantsUsed < def.budget.maxResumes && p.turnsThisGrant + 1 == GrantSize(def)
    requires q == p.(turns := p.turns + 1, turnsThisGrant := 0, grantsUsed := p.grantsUsed + 1, tokens := q.tokens,
                     prevTurnMalformed := q.prevTurnMalformed, currentTurnMalformed := q.currentTurnMalformed,
                     requests := p.requests + [Grant(p.turns + 1, p.grantsUsed + 1)])
    ensures OnSchedule(def, q)
  {
    hide Schedule, Scheduled, BudgetRequests;
    ScheduledWithin(def, p.grantsUsed + 1, 0);
    BudgetRequestsAppend(p.requests, Grant(p.turns + 1, p.grantsUsed + 1));
    ScheduleGrows(def, p.turns);
  }

  /** The turns from the demand on: the demand, a silent window, then interrupts. */
  lemma LastGrantBound(def: Def, p: Policy, c: Policy, asked: seq<Request>, left: int)
    requires OnSchedule(def, p) && p.grantsUsed == def.budget.maxResumes && p.turnsThisGrant + 1 >= GrantSize(def)
    requires left == GrantSize(def) + WRAP_UP_TURNS - (p.turnsThisGrant + 1)
    requires asked == if left == WRAP_UP_TURNS then [WrapUp(p.turns + 1)]
               else if left <= 0 then [Interrupt(p.turns + 1, BudgetCause)] else []
    requires c == p.(turns := p.turns + 1, turnsThisGrant := p.turnsThisGrant + 1, tokens := c.tokens,
                     prevTurnMalformed := c.prevTurnMalformed, currentTurnMalformed := c.currentTurnMalformed,
                     cause := c.cause, wrapUpLeft := Some(left), requests := p.requests + asked)
    ensures OnSchedule(def, c)
  {
    NoGrantPast(def, c.turns, def.budget.maxResumes);
    assert asked == Scheduled(def, c.turns);
    if asked != [] { BudgetRequestsAppend(p.requests, asked[0]); assert asked == [asked[0]]; }
    else { assert p.requests + [] == p.requests; }
    assert Schedule(def, c.turns) == Schedule(def, p.turns) + Scheduled(def, c.turns);
  }

  lemma TurnStaysOnSchedule(def: Def, p: Policy, usage: Usage)
    requires OnSchedule(def, p) && ContextTokens(usage) < def.budget.tokenCeiling
    ensures OnSchedule(def, Bind(def, CountTurn(p, usage), usage))
    ensures Bind(def, CountTurn(p, usage), usage).turns == p.turns + 1
  {
    hide Spent, Schedule, BudgetRequests;
    var c := CountTurn(p, usage);
    var q := Bind(def, c, usage);
    if c.turnsThisGrant < GrantSize(def) {
      InsideGrant(def, p, c);
    } else if c.grantsUsed < def.budget.maxResumes {
      GrantFilled(def, p, q);
    } else {
      var left := GrantSize(def) + WRAP_UP_TURNS - c.turnsThisGrant;
      var asked := if left == WRAP_UP_TURNS then [WrapUp(c.turns)]
          else if left <= 0 then [Interrupt(c.turns, BudgetCause)] else [];
      assert p.requests + [] == p.requests;
      LastGrantBound(def, p, q, asked, left);
    }
  }

  lemma NudgeStaysOnSchedule(def: Def, p: Policy)
    requires OnSchedule(def, p)
    ensures OnSchedule(def, NudgeDraft(def, p)) && NudgeDraft(def, p).turns == p.turns
  {
    BudgetRequestsAppend(p.requests, Nudge(p.turns));
  }

  lemma ReAskStaysOnSchedule(def: Def, met: bool, drafted: bool, items: seq<Item>)
    requires OnSchedule(def, Replay(def, Fresh(met, drafted), items))
    requires !MalformedStreak(items + [Emitted(ReAsk)])
    ensures OnSchedule(def, Track(def, Replay(def, Fresh(met, drafted), items), Emitted(ReAsk)))
  {
    MalformedFlags(def, met, drafted, items);
    StreakGrows(items, Emitted(ReAsk));
  }

  /**
   * The hard limit, exactly: while only the budget binds, the shell's requests are the schedule of the turn
   * count and nothing else: grants 1..R at turns T, 2T, .., RT, the outcome demand at (R+1)T, an interrupt at
   * (R+1)T + 3 and at every turn the driver still takes after it.
   */
  lemma {:induction false} RequestsFollowSchedule(def: Def, met: bool, drafted: bool, items: seq<Item>)
    requires OnlyBudgetBinds(def, items)
    ensures Replay(def, Fresh(met, drafted), items).turns == TurnCount(items)
    ensures OnSchedule(def, Replay(def, Fresh(met, drafted), items))
    ensures BudgetRequests(Replay(def, Fresh(met, drafted), items).requests) == Schedule(def, TurnCount(items))
  {
    if items != [] {
      var front, last := items[..|items| - 1], items[|items| - 1];
      assert front + [last] == items;
      FrontBindsToo(def, front, last);
      RequestsFollowSchedule(def, met, drafted, front);
      var p := Replay(def, Fresh(met, drafted), front);
      ItemStaysOnSchedule(def, met, drafted, front, last);
    }
  }

  lemma FrontBindsToo(def: Def, front: seq<Item>, last: Item)
    requires OnlyBudgetBinds(def, front + [last])
    ensures OnlyBudgetBinds(def, front) && !last.Abort?
    ensures IsTurn(last) ==> ContextTokens(last.event.usage) < def.budget.tokenCeiling
  {
    var items := front + [last];
    StreakGrows(front, last);
    assert items[|front|] == last;
    assert forall i | 0 <= i < |front| :: front[i] == items[i];
  }

  /** Tool results, questions and the rest touch neither the budget nor the malformed flags. */
  lemma QuietItem(def: Def, p: Policy, item: Item) returns (q: Policy)
    requires item.Emitted? && !item.event.AssistantTurn? && !item.event.ReAsk?
    ensures q == Track(def, p, item)
    ensures q.turns == p.turns && q.turnsThisGrant == p.turnsThisGrant && q.grantsUsed == p.grantsUsed
    ensures q.wrapUpLeft == p.wrapUpLeft && q.requests == p.requests && q.cause == p.cause
    ensures q.prevTurnMalformed == p.prevTurnMalformed && q.currentTurnMalformed == p.currentTurnMalformed
  {
    q := Track(def, p, item);
    match item.event
    case ToolResult(_) =>
    case QuestionAsked(_) =>
    case QuestionResolved(_) =>
    case OtherEvent =>
  }

  lemma ItemStaysOnSchedule(def: Def, met: bool, drafted: bool, front: seq<Item>, last: Item)
    requires OnSchedule(def, Replay(def, Fresh(met, drafted), front))
    requires OnlyBudgetBinds(def, front + [last])
    ensures var p := Replay(def, Fresh(met, drafted), front);
            OnSchedule(def, Track(def, p, last))
                && Track(def, p, last).turns == p.turns + (if IsTurn(last) then 1 else 0)
  {
    var p := Replay(def, Fresh(met, drafted), front);
    FrontBindsToo(def, front, last);
    if IsTurn(last) {
      TurnStaysOnSchedule(def, p, last.event.usage);
      NudgeStaysOnSchedule(def, Bind(def, CountTurn(p, last.event.usage), last.event.usage));
    } else if IsReAsk(last) {
      ReAskStaysOnSchedule(def, met, drafted, front);
    } else {
      var _ := QuietItem(def, p, last);
    }
  }

  // --- The malformed streak -----------------------------------------------------------------

  /** Assistant turns after position `i`. */
  function TurnsAfter(items: seq<Item>, i: nat): nat
    requires i < |items|
  {
    TurnCount(items[i + 1..])
  }

  ghost predicate ReAskedAgo(items: seq<Item>, turns: nat) {
    exists i :: 0 <= i < |items| && IsReAsk(items[i]) && TurnsAfter(items, i) == turns
  }

  /** Two adjacent turns each contain a re-ask: exactly one assistant turn lies between some two re-asks. */
  ghost predicate MalformedStreak(items: seq<Item>) {
    exists j :: 0 <= j < |items| && IsReAsk(items[j]) && ReAskedAgo(items[..j], 1)
  }

  lemma TurnCountAppend(items: seq<Item>, last: Item)
    ensures TurnCount(items + [last]) == TurnCount(items) + (if IsTurn(last) then 1 else 0)
  {
    assert (items + [last])[..|items + [last]| - 1] == items;
  }

  lemma ReAskedAgoAppend(items: seq<Item>, last: Item, turns: nat)
    ensures ReAskedAgo(items + [last], turns) <==>
            || (IsTurn(last) && turns > 0 && ReAskedAgo(items, turns - 1))
            || (!IsTurn(last) && ReAskedAgo(items, turns))
            || (IsReAsk(last) && turns == 0)
  {
    var all := items + [last];
    forall i | 0 <= i < |items|
      ensures TurnsAfter(all, i) == TurnsAfter(items, i) + (if IsTurn(last) then 1 else 0)
    {
      assert all[i + 1..] == items[i + 1..] + [last];
      TurnCountAppend(items[i + 1..], last);
    }
    assert all[|items| + 1..] == [];
    assert TurnsAfter(all, |items|) == 0;
    if ReAskedAgo(items, turns) {
      var i :| 0 <= i < |items| && IsReAsk(items[i]) && TurnsAfter(items, i) == turns;
      assert all[i] == items[i];
    }
    if turns > 0 && ReAskedAgo(items, turns - 1) {
      var i :| 0 <= i < |items| && IsReAsk(items[i]) && TurnsAfter(items, i) == turns - 1;
      assert all[i] == items[i];
    }
    assert all[|items|] == last;
  }

  lemma StreakGrows(items: seq<Item>, last: Item)
    ensures MalformedStreak(items + [last]) <==> MalformedStreak(items) || (IsReAsk(last) && ReAskedAgo(items, 1))
  {
    var all := items + [last];
    assert all[..|items|] == items && all[|items|] == last;
    forall j | 0 <= j < |items|
      ensures all[..j] == items[..j] && all[j] == items[j]
    {
    }
  }

  /** The shell's own flags, read off the whole trace. */
  ghost predicate RaisedMalformed(p: Policy) {
    exists i :: 0 <= i < |p.requests| && p.requests[i].Interrupt? && p.requests[i].cause == MalformedCause
  }

  ghost predicate FlagsRead(p: Policy, items: seq<Item>) {
    && (p.currentTurnMalformed <==> ReAskedAgo(items, 0))
    && (p.prevTurnMalformed <==> ReAskedAgo(items, 1))
    && (RaisedMalformed(p) <==> MalformedStreak(items))
    && (p.currentTurnMalformed && p.prevTurnMalformed ==> MalformedStreak(items))
  }

  lemma RaisedAppend(p: Policy, q: Policy)
    requires q.requests == p.requests
               || exists r :: q.requests == p.requests + [r] && !(r.Interrupt? && r.cause == MalformedCause)
    ensures RaisedMalformed(q) <==> RaisedMalformed(p)
  {
    if RaisedMalformed(p) {
      var i :| 0 <= i < |p.requests| && p.requests[i].Interrupt? && p.requests[i].cause == MalformedCause;
      assert q.requests[i] == p.requests[i];
    }
  }

  lemma RaisedAppendOne(p: Policy, q: Policy, r: Request)
    requires q.requests == p.requests + [r] && !(r.Interrupt? && r.cause == MalformedCause)
    ensures RaisedMalformed(q) <==> RaisedMalformed(p)
  {
    RaisedAppend(p, q);
  }

  lemma BindRaisesNothing(def: Def, c: Policy, usage: Usage)
    ensures RaisedMalformed(Bind(def, c, usage)) <==> RaisedMalformed(c)
  {
    hide RaisedMalformed;
    var b := Bind(def, c, usage);
    if ContextTokens(usage) >= def.budget.tokenCeiling { RaisedAppendOne(c, b, Interrupt(c.turns, ContextCause)); }
    else if c.turnsThisGrant < def.budget.turns { RaisedAppend(c, b); }
    else if c.grantsUsed < def.budget.maxResumes { RaisedAppendOne(c, b, Grant(c.turns, c.grantsUsed + 1)); }
    else if c.wrapUpLeft.None? { RaisedAppendOne(c, b, WrapUp(c.turns)); }
    else if c.wrapUpLeft.value <= 1 { RaisedAppendOne(c, b, Interrupt(c.turns, BudgetCause)); }
    else { RaisedAppend(c, b); }
  }

  lemma NudgeRaisesNothing(def: Def, b: Policy)
    ensures RaisedMalformed(NudgeDraft(def, b)) <==> RaisedMalformed(b)
  {
    hide RaisedMalformed;
    var n := NudgeDraft(def, b);
    assert n.requests == b.requests || n.requests == b.requests + [Nudge(b.turns)];
    RaisedAppend(b, n);
  }

  lemma TurnRequestsAppend(def: Def, p: Policy, usage: Usage)
    ensures RaisedMalformed(NudgeDraft(def, Bind(def, CountTurn(p, usage), usage))) <==> RaisedMalformed(p)
  {
    hide RaisedMalformed, Bind, NudgeDraft;
    var c := CountTurn(p, usage);
    RaisedAppend(p, c);
    BindRaisesNothing(def, c, usage);
    NudgeRaisesNothing(def, Bind(def, c, usage));
  }

  lemma FlagsAfterReAsk(def: Def, p: Policy, items: seq<Item>)
    requires FlagsRead(p, items)
    ensures FlagsRead(Track(def, p, Emitted(ReAsk)), items + [Emitted(ReAsk)])
  {
    var last := Emitted(ReAsk);
    ReAskedAgoAppend(items, last, 0);
    ReAskedAgoAppend(items, last, 1);
    StreakGrows(items, last);
    var q := Track(def, p, last);
    if !p.currentTurnMalformed && p.prevTurnMalformed {
      assert q.requests[|q.requests| - 1] == Interrupt(p.turns, MalformedCause);
    } else {
      RaisedAppend(p, q);
    }
  }

  lemma FlagsAfterTurn(def: Def, p: Policy, items: seq<Item>, usage: Usage)
    requires FlagsRead(p, items)
    ensures FlagsRead(Track(def, p, Emitted(AssistantTurn(usage))), items + [Emitted(AssistantTurn(usage))])
  {
    var last := Emitted(AssistantTurn(usage));
    ReAskedAgoAppend(items, last, 0);
    ReAskedAgoAppend(items, last, 1);
    StreakGrows(items, last);
    TurnRequestsAppend(def, p, usage);
    var q := Track(def, p, last);
    assert !q.currentTurnMalformed && q.prevTurnMalformed == p.currentTurnMalformed;
  }

  lemma FlagsAfterOther(def: Def, p: Policy, items: seq<Item>, last: Item)
    requires FlagsRead(p, items) && !IsTurn(last) && !IsReAsk(last)
    ensures FlagsRead(Track(def, p, last), items + [last])
  {
    ReAskedAgoAppend(items, last, 0);
    ReAskedAgoAppend(items, last, 1);
    StreakGrows(items, last);
    var q := Track(def, p, last);
    if last.Emitted? {
      q := QuietItem(def, p, last);
    } else {
      assert q.requests == p.requests + [Interrupt(p.turns, AbortedCause)];
    }
    RaisedAppend(p, q);
  }

  /** The incremental flags refine the reading of the whole trace, however many re-asks one turn has. */
  lemma {:induction false} MalformedFlags(def: Def, met: bool, drafted: bool, items: seq<Item>)
    ensures FlagsRead(Replay(def, Fresh(met, drafted), items), items)
  {
    if items == [] {
    } else {
      var front, last := items[..|items| - 1], items[|items| - 1];
      MalformedFlags(def, met, drafted, front);
      var p := Replay(def, Fresh(met, drafted), front);
      assert front + [last] == items;
      if IsTurn(last) { FlagsAfterTurn(def, p, front, last.event.usage); }
      else if IsReAsk(last) { FlagsAfterReAsk(def, p, front); }
      else { FlagsAfterOther(def, p, front, last); }
    }
  }

  // --- No stream escapes the limit -----------------------------------------------------------

  ghost predicate Stopped(p: Policy, limit: nat) {
    exists i :: 0 <= i < |p.requests| && p.requests[i].Interrupt? && p.requests[i].turn <= limit
  }

  /** Requests are only ever added, each stamped with the current turn. */
  lemma TrackAppends(def: Def, p: Policy, item: Item)
    requires forall i | 0 <= i < |p.requests| :: p.requests[i].turn <= p.turns
    ensures p.requests <= Track(def, p, item).requests
    ensures Track(def, p, item).turns == p.turns + (if IsTurn(item) then 1 else 0)
    ensures forall i | 0 <= i < |Track(def, p, item).requests| ::
              Track(def, p, item).requests[i].turn <= Track(def, p, item).turns
  {
    if IsTurn(item) {
      var b := Bind(def, CountTurn(p, item.event.usage), item.event.usage);
      assert p.requests <= b.requests && b.turns == p.turns + 1;
      assert forall i | 0 <= i < |b.requests| :: b.requests[i].turn <= b.turns;
    } else if item.Emitted? && !IsReAsk(item) {
      var _ := QuietItem(def, p, item);
    }
  }

  lemma {:induction false} StampsBounded(def: Def, met: bool, drafted: bool, items: seq<Item>)
    ensures var p := Replay(def, Fresh(met, drafted), items);
            p.turns == TurnCount(items) && forall i | 0 <= i < |p.requests| :: p.requests[i].turn <= p.turns
  {
    if items != [] {
      StampsBounded(def, met, drafted, items[..|items| - 1]);
      TrackAppends(def, Replay(def, Fresh(met, drafted), items[..|items| - 1]), items[|items| - 1]);
    }
  }

  lemma {:induction false} BudgetRequestsAmong(requests: seq<Request>, r: Request)
    requires r in BudgetRequests(requests)
    ensures r in requests
  {
    if r !in BudgetRequests(requests[..|requests| - 1]) { assert r == requests[|requests| - 1]; }
    else { BudgetRequestsAmong(requests[..|requests| - 1], r); }
  }

  lemma {:induction false} ScheduleStops(def: Def, turns: nat)
    requires turns >= DemandTurn(def) + WRAP_UP_TURNS
    ensures Interrupt(DemandTurn(def) + WRAP_UP_TURNS, BudgetCause) in Schedule(def, turns)
  {
    if turns == DemandTurn(def) + WRAP_UP_TURNS { NoGrantPast(def, turns, def.budget.maxResumes); }
    else { ScheduleStops(def, turns - 1); }
  }

  /** A ceiling hit or an abort is an interrupt at once. */
  lemma BindingStops(def: Def, p: Policy, item: Item)
    requires item.Abort? || (IsTurn(item) && ContextTokens(item.event.usage) >= def.budget.tokenCeiling)
    ensures |p.requests| < |Track(def, p, item).requests| && Track(def, p, item).requests[|p.requests|].Interrupt?
  {
    if IsTurn(item) {
      var c := CountTurn(p, item.event.usage);
      assert Bind(def, c, item.event.usage) == Interrupted(c, ContextCause);
    }
  }

  lemma RaisedIsStopped(p: Policy)
    requires RaisedMalformed(p) && forall i | 0 <= i < |p.requests| :: p.requests[i].turn <= p.turns
    ensures Stopped(p, p.turns)
  {
  }

  lemma UnstoppedFront(def: Def, f: Policy, last: Item)
    requires forall i | 0 <= i < |f.requests| :: f.requests[i].turn <= f.turns
    requires !Stopped(Track(def, f, last), Track(def, f, last).turns)
    ensures !Stopped(f, f.turns)
    ensures !last.Abort? && (IsTurn(last) ==> ContextTokens(last.event.usage) < def.budget.tokenCeiling)
  {
    var p := Track(def, f, last);
    TrackAppends(def, f, last);
    assert forall i | 0 <= i < |f.requests| :: f.requests[i] == p.requests[i];
    if last.Abort? || (IsTurn(last) && ContextTokens(last.event.usage) >= def.budget.tokenCeiling) {
      BindingStops(def, f, last);
    }
  }

  lemma {:induction false} UnstoppedOnlyBudget(def: Def, met: bool, drafted: bool, items: seq<Item>)
    requires !Stopped(Replay(def, Fresh(met, drafted), items), TurnCount(items))
    ensures OnlyBudgetBinds(def, items)
  {
    StampsBounded(def, met, drafted, items);
    MalformedFlags(def, met, drafted, items);
    if RaisedMalformed(Replay(def, Fresh(met, drafted), items)) {
      RaisedIsStopped(Replay(def, Fresh(met, drafted), items));
    }
    if items != [] {
      var front, last := items[..|items| - 1], items[|items| - 1];
      StampsBounded(def, met, drafted, front);
      UnstoppedFront(def, Replay(def, Fresh(met, drafted), front), last);
      UnstoppedOnlyBudget(def, met, drafted, front);
      assert forall i | 0 <= i < |items| :: items[i] == if i < |front| then front[i] else last;
    }
  }

  /** While no interrupt has been requested, nothing but the budget has bound, and its limit is not reached. */
  lemma UnstoppedIsWithinBudget(def: Def, met: bool, drafted: bool, items: seq<Item>)
    requires !Stopped(Replay(def, Fresh(met, drafted), items), TurnCount(items))
    ensures OnlyBudgetBinds(def, items) && TurnCount(items) < DemandTurn(def) + WRAP_UP_TURNS
  {
    UnstoppedOnlyBudget(def, met, drafted, items);
    RequestsFollowSchedule(def, met, drafted, items);
    if TurnCount(items) >= DemandTurn(def) + WRAP_UP_TURNS {
      ScheduleStops(def, TurnCount(items));
      BudgetRequestsAmong(Replay(def, Fresh(met, drafted), items).requests,
                          Interrupt(DemandTurn(def) + WRAP_UP_TURNS, BudgetCause));
    }
  }

  /**
   * Whatever the driver emits and whoever aborts, an interrupt has been requested no later than turn
   * (R+1)T + 3; and no earlier than that by the budget, which by `RequestsFollowSchedule` interrupts exactly then
   * when nothing else does.
   */
  lemma {:induction false} EveryStreamIsStopped(def: Def, met: bool, drafted: bool, items: seq<Item>)
    requires TurnCount(items) >= DemandTurn(def) + WRAP_UP_TURNS
    ensures Stopped(Replay(def, Fresh(met, drafted), items), DemandTurn(def) + WRAP_UP_TURNS)
    ensures DemandTurn(def) == (def.budget.maxResumes + 1) * GrantSize(def)
  {
    SpentIsProduct(def, def.budget.maxResumes + 1);
    var front, last := items[..|items| - 1], items[|items| - 1];
    StampsBounded(def, met, drafted, front);
    var f, p := Replay(def, Fresh(met, drafted), front), Replay(def, Fresh(met, drafted), items);
    TrackAppends(def, f, last);
    if TurnCount(front) >= DemandTurn(def) + WRAP_UP_TURNS {
      EveryStreamIsStopped(def, met, drafted, front);
      assert forall i | 0 <= i < |f.requests| :: f.requests[i] == p.requests[i];
    } else if !Stopped(p, TurnCount(items)) {
      UnstoppedIsWithinBudget(def, met, drafted, items);
    }
  }
}
