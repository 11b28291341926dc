/**
 * What the policy shell remembers and asks, as readings of all it was shown
 * (packages/agent-loop/src/agent-loop.ts, `track`).
 */
module SessionMemory {
  // `SessionPolicy` proves the budget's requests and the malformed streak. Here, of every stream, whatever binds:
  //  - the tokens are those billed, a tool is taken to have answered exactly when it did, and a question is pending
  //    exactly when it was asked and not resolved since;
  //  - a ceiling interrupt is asked at exactly the turns whose context reached the ceiling, an abort's at each abort;
  //  - the draft is nudged once, at the first turn that is late enough with nothing drafted, stopped or wrapping up;
  //  - and what stopped the session is what the last interrupt was asked for.

  import opened Common
  import opened SessionPolicy

  // --- Readings of what was shown -------------------------------------------------------------------

  predicate Answers(item: Item, tool: Option<string>) {
    item.Emitted? && item.event.ToolResult? && tool == Some(item.event.toolName)
  }

  ghost predicate Answered(items: seq<Item>, tool: Option<string>) {
    exists i :: 0 <= i < |items| && Answers(items[i], tool)
  }

  ghost predicate Pending(items: seq<Item>, id: string) {
    exists i :: 0 <= i < |items| && items[i] == Emitted(QuestionAsked(id))
                && forall j | i < j < |items| :: items[j] != Emitted(QuestionResolved(id))
  }

  function Billed(items: seq<Item>): nat {
    if items == [] then 0
    else
      var last := items[|items| - 1];
      Billed(items[..|items| - 1])
      + if IsTurn(last)
        then
          last.event.usage.input + last.event.usage.output
          + last.event.usage.cacheRead + last.event.usage.cacheCreate
        else 0
  }

  /** The turns whose prompt, cached or not, reached the ceiling; what the model wrote is not part of it. */
  function CeilingTurns(ceiling: nat, items: seq<Item>): seq<nat> {
    if items == [] then []
    else
      var last := items[|items| - 1];
      CeilingTurns(ceiling, items[..|items| - 1])
      + if IsTurn(last) && last.event.usage.input + last.event.usage.cacheRead + last.event.usage.cacheCreate >= ceiling
        then [TurnCount(items)] else []
  }

  function AbortTurns(items: seq<Item>): seq<nat> {
    if items == [] then []
    else AbortTurns(items[..|items| - 1]) + if items[|items| - 1].Abort? then [TurnCount(items)] else []
  }

  ghost function CheckpointTool(def: Def): Option<string> {
    if def.checkpoint.Some? then Some(def.checkpoint.value.tool) else None
  }

  /** The last turn shown is late enough, with nothing drafted and the session neither stopped nor wrapping up. */
  ghost predicate NudgeDue(def: Def, met: bool, drafted: bool, items: seq<Item>) {
    && items != [] && IsTurn(items[|items| - 1])
    && def.checkpoint.Some? && TurnCount(items) >= def.checkpoint.value.afterTurn
    && !drafted && !Answered(items, CheckpointTool(def))
    && var p := Replay(def, Fresh(met, drafted), items); p.cause.None? && p.wrapUpLeft.None?
  }

  /** The turn of the first nudge due, if any. */
  ghost function NudgeTurn(def: Def, met: bool, drafted: bool, items: seq<Item>): Option<nat> {
    if items == [] then None
    else
      var before := NudgeTurn(def, met, drafted, items[..|items| - 1]);
      if before.Some? then before
      else if NudgeDue(def, met, drafted, items) then Some(TurnCount(items)) else None
  }

  // --- Readings of what was asked -------------------------------------------------------------------

  /** The turns at which an interrupt was asked for that cause. */
  function InterruptTurns(requests: seq<Request>, cause: Cause): seq<nat> {
    if requests == [] then []
    else
      var last := requests[|requests| - 1];
      InterruptTurns(requests[..|requests| - 1], cause)
      + if last.Interrupt? && last.cause == cause then [last.turn] else []
  }

  function NudgeTurns(requests: seq<Request>): seq<nat> {
    if requests == [] then []
    else
      var last := requests[|requests| - 1];
      NudgeTurns(requests[..|requests| - 1]) + if last.Nudge? then [last.turn] else []
  }

  function LastCause(requests: seq<Request>): Option<Cause> {
    if requests == [] then None
    else if requests[|requests| - 1].Interrupt? then Some(requests[|requests| - 1].cause)
    else LastCause(requests[..|requests| - 1])
  }

  // --- One item ---------------------------------------------------------------------------------------

  lemma AskOne(requests: seq<Request>, r: Request)
    ensures forall cause :: InterruptTurns(requests + [r], cause) ==
              InterruptTurns(requests, cause) + if r.Interrupt? && r.cause == cause then [r.turn] else []
    ensures NudgeTurns(requests + [r]) == NudgeTurns(requests) + if r.Nudge? then [r.turn] else []
    ensures LastCause(requests + [r]) == if r.Interrupt? then Some(r.cause) else LastCause(requests)
  {
    assert (requests + [r])[..|requests|] == requests;
  }

  /** What a step adds to the interrupts of the ceiling and of aborts, to the nudges, and to the cause. */
  ghost predicate Asks(p: Policy, q: Policy, ceiling: seq<nat>, aborted: seq<nat>, nudged: seq<nat>) {
    && InterruptTurns(q.requests, ContextCause) == InterruptTurns(p.requests, ContextCause) + ceiling
    && InterruptTurns(q.requests, AbortedCause) == InterruptTurns(p.requests, AbortedCause) + aborted
    && NudgeTurns(q.requests) == NudgeTurns(p.requests) + nudged
    && (p.cause == LastCause(p.requests) ==> q.cause == LastCause(q.requests))
  }

  lemma BindAsks(def: Def, c: Policy, usage: Usage)
    ensures Asks(c, Bind(def, c, usage),
                 if usage.input + usage.cacheRead + usage.cacheCreate >= def.budget.tokenCeiling then [c.turns] else [],
                 [], [])
  {
    hide InterruptTurns, NudgeTurns, LastCause;
    if ContextTokens(usage) >= def.budget.tokenCeiling { AskOne(c.requests, Interrupt(c.turns, ContextCause)); }
    else if c.turnsThisGrant < def.budget.turns { }
    else if c.grantsUsed < def.budget.maxResumes { AskOne(c.requests, Grant(c.turns, c.grantsUsed + 1)); }
    else if c.wrapUpLeft.None? { AskOne(c.requests, WrapUp(c.turns)); }
    else { AskOne(c.requests, Interrupt(c.turns, BudgetCause)); }
  }

  lemma BindKeeps(def: Def, c: Policy, usage: Usage)
    ensures var b := Bind(def, c, usage);
            b == c.(grantsUsed := b.grantsUsed, turnsThisGrant := b.turnsThisGrant, wrapUpLeft := b.wrapUpLeft,
                    cause := b.cause, requests := b.requests)
  {
  }

  lemma NudgeAsks(def: Def, b: Policy)
    ensures var n := NudgeDraft(def, b);
            && n == b.(checkpointFired := n.checkpointFired, requests := n.requests)
            && Asks(b, n, [], [], if n.checkpointFired && !b.checkpointFired then [b.turns] else [])
            && (n.checkpointFired <==>
                || b.checkpointFired
                || (def.checkpoint.Some? && !b.checkpointMet && b.turns >= def.checkpoint.value.afterTurn
                    && b.cause.None? && b.wrapUpLeft.None?))
  {
    hide InterruptTurns, NudgeTurns, LastCause;
    AskOne(b.requests, Nudge(b.turns));
  }

  lemma TurnAsks(def: Def, p: Policy, usage: Usage)
    ensures var q := Track(def, p, Emitted(AssistantTurn(usage)));
            && Asks(p, q,
                    if usage.input + usage.cacheRead + usage.cacheCreate >= def.budget.tokenCeiling
                    then [p.turns + 1] else [],
                    [], if q.checkpointFired && !p.checkpointFired then [p.turns + 1] else [])
            && q.turns == p.turns + 1 && q.questions == p.questions
            && q.tokens == p.tokens + (usage.input + usage.output + usage.cacheRead + usage.cacheCreate)
            && q.preconditionMet == p.preconditionMet && q.checkpointMet == p.checkpointMet
            && (q.checkpointFired <==>
                || p.checkpointFired
                || (def.checkpoint.Some? && !p.checkpointMet && p.turns + 1 >= def.checkpoint.value.afterTurn
                    && q.cause.None? && q.wrapUpLeft.None?))
  {
    hide InterruptTurns, NudgeTurns, LastCause, Bind, NudgeDraft;
    var c := CountTurn(p, usage);
    BindAsks(def, c, usage);
    BindKeeps(def, c, usage);
    NudgeAsks(def, Bind(def, c, usage));
  }

  lemma OtherAsks(def: Def, p: Policy, item: Item)
    requires !IsTurn(item)
    ensures var q := Track(def, p, item);
            && Asks(p, q, [], if item.Abort? then [p.turns] else [], [])
            && q.turns == p.turns && q.tokens == p.tokens && q.checkpointFired == p.checkpointFired
            && (q.preconditionMet <==> p.preconditionMet || Answers(item, def.preconditionTool))
            && (q.checkpointMet <==> p.checkpointMet || Answers(item, CheckpointTool(def)))
            && q.questions == (match item
                               case Emitted(QuestionAsked(id)) => p.questions + {id}
                               case Emitted(QuestionResolved(id)) => p.questions - {id}
                               case _ => p.questions)
  {
    hide InterruptTurns, NudgeTurns, LastCause;
    AskOne(p.requests, Interrupt(p.turns, AbortedCause));
    AskOne(p.requests, Interrupt(p.turns, MalformedCause));
    if item.Emitted? && !IsReAsk(item) { var _ := QuietItem(def, p, item); }
  }

  // --- Growth of the readings ----------------------------------------------------------------------------

  lemma AnsweredGrows(items: seq<Item>, last: Item, tool: Option<string>)
    ensures Answered(items + [last], tool) <==>
            Answered(items, tool) || Answers(last, tool)
  {
    var all := items + [last];
    assert all[|items|] == last && forall i | 0 <= i < |items| :: all[i] == items[i];
  }

  lemma PendingGrows(items: seq<Item>, last: Item, id: string)
    ensures Pending(items + [last], id) <==>
            || last == Emitted(QuestionAsked(id))
            || (Pending(items, id) && last != Emitted(QuestionResolved(id)))
  {
    var all := items + [last];
    assert all[|items|] == last && forall i | 0 <= i < |items| :: all[i] == items[i];
    if Pending(items, id) && last != Emitted(QuestionResolved(id)) {
      var i :| 0 <= i < |items| && items[i] == Emitted(QuestionAsked(id))
            && forall j | i < j < |items| :: items[j] != Emitted(QuestionResolved(id));
      assert all[i] == Emitted(QuestionAsked(id));
      assert forall j | i < j < |all| :: all[j] != Emitted(QuestionResolved(id));
    }
  }

  // --- The shell's variables are these readings -------------------------------------------------------------

  /** The variables that only remember. */
  lemma {:induction false} ShellRemembers(def: Def, met: bool, drafted: bool, items: seq<Item>)
    ensures var p := Replay(def, Fresh(met, drafted), items);
            && p.turns == TurnCount(items) && p.tokens == Billed(items)
            && (p.preconditionMet <==> met || Answered(items, def.preconditionTool))
            && (p.checkpointMet <==> drafted || Answered(items, CheckpointTool(def)))
            && forall id :: id in p.questions <==> Pending(items, id)
  {
    if items != [] {
      var front, last := items[..|items| - 1], items[|items| - 1];
      ShellRemembers(def, met, drafted, front);
      var p := Replay(def, Fresh(met, drafted), front);
      assert items == front + [last];
      hide Track, Answered, Answers, Pending, Asks, CheckpointTool;
      AnsweredGrows(front, last, def.preconditionTool);
      AnsweredGrows(front, last, CheckpointTool(def));
      if IsTurn(last) { TurnAsks(def, p, last.event.usage); } else { OtherAsks(def, p, last); }
      assert IsTurn(last) ==> !Answers(last, def.preconditionTool) && !Answers(last, CheckpointTool(def)) by {
        TurnsDoNotAnswer(last, def.preconditionTool);
        TurnsDoNotAnswer(last, CheckpointTool(def));
      }
      forall id
        ensures id in Track(def, p, last).questions <==> Pending(items, id)
      {
        PendingGrows(front, last, id);
      }
    } else { NothingShown(def); }
  }

  lemma TurnsDoNotAnswer(item: Item, tool: Option<string>)
    ensures IsTurn(item) ==> !Answers(item, tool)
  {
  }

  lemma NothingShown(def: Def)
    ensures !Answered([], def.preconditionTool) && !Answered([], CheckpointTool(def))
    ensures forall id :: !Pending([], id)
  {
  }

  /** What it asks apart from the budget and the malformed streak. */
  lemma {:induction false} ShellAsks(def: Def, met: bool, drafted: bool, items: seq<Item>)
    ensures var p := Replay(def, Fresh(met, drafted), items);
            && InterruptTurns(p.requests, ContextCause) == CeilingTurns(def.budget.tokenCeiling, items)
            && InterruptTurns(p.requests, AbortedCause) == AbortTurns(items)
            && NudgeTurns(p.requests) ==
               (match NudgeTurn(def, met, drafted, items) case Some(turn) => [turn] case None => [])
            && p.cause == LastCause(p.requests)
            && (p.checkpointFired <==> NudgeTurn(def, met, drafted, items).Some?)
  {
    if items != [] {
      var front, last := items[..|items| - 1], items[|items| - 1];
      ShellAsks(def, met, drafted, front);
      ShellRemembers(def, met, drafted, front);
      ShellRemembers(def, met, drafted, items);
      var p := Replay(def, Fresh(met, drafted), front);
      assert items == front + [last];
      AnsweredGrows(front, last, CheckpointTool(def));
      hide Track, Answered, Answers, Pending, InterruptTurns, NudgeTurns, LastCause, Billed, CheckpointTool;
      TurnsDoNotAnswer(last, CheckpointTool(def));
      if IsTurn(last) { TurnAsks(def, p, last.event.usage); } else { OtherAsks(def, p, last); }
    }
  }
}
