/**
 * One agent session from start to its recorded end (packages/agent-loop/src/agent-loop.ts, `startSession`):
 * the policy shell around a driver that may do anything within runs that each finish. The driver, the
 * outcome's schema and its validator are arbitrary functions; aborts may come at any moment.
 */
module AgentSession {
  import opened Common
  import opened SessionPolicy

  type Value = string

  datatype Retryability = Transient | Blocked | NotRetryable
  datatype FailureKind = Transport | BudgetExhausted | ContextExhausted | Malformed | SessionLost
  datatype Failure = Failure(kind: FailureKind, retryability: Retryability)

  datatype DriverResult = Produced(value: Value) | Ended(failure: Failure)

  /** One driver run: everything it emits, and how it settles. A rejected run settles as a transport failure. */
  datatype DriverRun = DriverRun(items: seq<Item>, result: DriverResult)

  datatype Verdict = Accepts | Refuses | Throws

  datatype Reason = First | Retry | Precondition | Correction

  /** A start of the driver: why, and whether the shell had already decided to stop the session. */
  datatype Call = Call(reason: Reason, stopped: bool)

  datatype Recorded =
    | FromDriver(event: Event)
    | ResumeGrant(grant: nat, of: nat)
    | FailureRecord(failure: Failure)
    | OutcomeRecord(value: Value)

  datatype Status = Running | Completed | Parked | Failed

  datatype Result = Completion(output: Value) | Failing(failure: Failure)

  /** Everything a session is given. `run(k)` is what the driver does on its k-th start. */
  datatype Setup = Setup(
    def: Def,
    priorMetPrecondition: bool,
    priorMetCheckpoint: bool,
    abortedAtStart: bool,
    run: nat -> DriverRun,
    parse: (Value, seq<Recorded>) -> Option<Value>,
    schemaRepairs: nat,
    hasResolver: bool,
    hasValidator: bool,
    verdict: nat -> Verdict,
    abortDuringVerdict: nat -> bool)

  function RefusalLimit(def: Def): nat { def.budget.turns * (def.budget.maxResumes + 1) + WRAP_UP_TURNS }

  /** The shell's stop rewrites the driver's generic ending; without one the driver's own failure stands. */
  function Rewritten(cause: Option<Cause>, failure: Failure): Failure {
    match cause
    case None => failure
    case Some(BudgetCause) => Failure(BudgetExhausted, NotRetryable)
    case Some(ContextCause) => Failure(ContextExhausted, NotRetryable)
    case Some(MalformedCause) => Failure(Malformed, NotRetryable)
    case Some(AbortedCause) => Failure(Transport, NotRetryable)
  }

  /**
   * Starts are numbered by reason: one first, then at most one retry and one
   * precondition refusal, and no start after a stop.
   */
  ghost predicate CallsInOrder(calls: seq<Call>) {
    && (forall i | 0 <= i < |calls| :: calls[i].reason == First <==> i == 0)
    && (forall i | 0 < i < |calls| :: !calls[i].stopped)
    && (forall i, j | 0 <= i < j < |calls| && calls[i].reason == calls[j].reason :: calls[i].reason == Correction)
  }

  // --- What a session must do, read off its setup and the starts so far ----------------------------

  /** Everything the driver has emitted by the end of its run `k`, no start after the first following a stop. */
  ghost function Shown(setup: Setup, k: nat): seq<Item> {
    (if k > 0 then Shown(setup, k - 1) else if setup.abortedAtStart then [Abort] else []) + setup.run(k).items
  }

  /** Where the policy stands once run `k` has settled. */
  ghost function PolicyAfter(setup: Setup, k: nat): Policy {
    Replay(setup.def, Fresh(setup.priorMetPrecondition, setup.priorMetCheckpoint), Shown(setup, k))
  }

  ghost predicate StoppedAfter(setup: Setup, k: nat) { PolicyAfter(setup, k).cause.Some? }

  /** What one item leaves in the transcript: the event, and the grant it brought about. */
  ghost function Noted(def: Def, p: Policy, item: Item): seq<Recorded> {
    match item
    case Abort => []
    case Emitted(event) =>
      var after := SessionPolicy.Track(def, p, item);
      [FromDriver(event)]
      + (if after.grantsUsed > p.grantsUsed then [ResumeGrant(after.grantsUsed, def.budget.maxResumes)] else [])
  }

  ghost function AllNoted(def: Def, p: Policy, items: seq<Item>): seq<Recorded> {
    if items == [] then []
    else
      AllNoted(def, p, items[..|items| - 1])
      + Noted(def, Replay(def, p, items[..|items| - 1]), items[|items| - 1])
  }

  /** The transcript once run `k` has settled; a failure that is retried stands between the first two runs. */
  ghost function Told(setup: Setup, k: nat): seq<Recorded> {
    if k == 0 then AllNoted(setup.def, Fresh(setup.priorMetPrecondition, setup.priorMetCheckpoint), Shown(setup, 0))
    else
      Told(setup, k - 1)
      + (if RetryDue(setup, k - 1) then [FailureRecord(setup.run(0).result.failure)] else [])
      + AllNoted(setup.def, PolicyAfter(setup, k - 1), setup.run(k).items)
  }

  /** The first run failed transiently and nothing has stopped the session. */
  ghost predicate RetryDue(setup: Setup, k: nat) {
    k == 0 && setup.run(0).result.Ended? && setup.run(0).result.failure.retryability.Transient?
        && !StoppedAfter(setup, 0)
  }

  /** The opening produced an outcome before the required tool ever answered, and nothing has stopped the session. */
  ghost predicate PreconditionDue(setup: Setup, calls: seq<Call>, k: nat)
    requires k < |calls|
  {
    && (calls[k].reason.First? || calls[k].reason.Retry?) && setup.run(k).result.Produced?
    && setup.def.preconditionTool.Some? && !PolicyAfter(setup, k).preconditionMet && !StoppedAfter(setup, k)
  }

  ghost function Outcome(setup: Setup, k: nat): Option<Value>
    requires setup.run(k).result.Produced?
  {
    setup.parse(setup.run(k).result.value, Told(setup, k))
  }

  ghost function Corrections(calls: seq<Call>): nat {
    if calls == [] then 0
    else Corrections(calls[..|calls| - 1]) + (if calls[|calls| - 1].reason.Correction? then 1 else 0)
  }

  /** How many of the corrections were of an outcome that did not parse. */
  ghost function SchemaCorrections(setup: Setup, calls: seq<Call>): nat {
    if |calls| <= 1 then 0
    else
      SchemaCorrections(setup, calls[..|calls| - 1])
      + (if calls[|calls| - 1].reason.Correction? && setup.run(|calls| - 2).result.Produced?
            && Outcome(setup, |calls| - 2).None? then 1 else 0)
  }

  /** Run `k` produced an outcome that somebody judges. */
  ghost predicate Judged(setup: Setup, calls: seq<Call>, k: nat)
    requires k < |calls|
  {
    && setup.run(k).result.Produced? && !PreconditionDue(setup, calls, k)
    && (setup.hasValidator || setup.schemaRepairs > 0 || setup.hasResolver)
  }

  /** An outcome that does not parse is refused while repairs are left; one that does has the validator's verdict. */
  ghost function VerdictOn(setup: Setup, calls: seq<Call>, k: nat): Verdict
    requires k < |calls| && setup.run(k).result.Produced?
  {
    if Outcome(setup, k).None?
    then if SchemaCorrections(setup, calls[..k + 1]) < setup.schemaRepairs then Refuses else Accepts
    else if setup.hasValidator then setup.verdict(Corrections(calls[..k + 1])) else Accepts
  }

  /** The caller aborts while the validator is at work. */
  ghost predicate StopsMeanwhile(setup: Setup, calls: seq<Call>, k: nat)
    requires k < |calls|
  {
    && Judged(setup, calls, k) && Outcome(setup, k).Some? && setup.hasValidator
    && setup.abortDuringVerdict(Corrections(calls[..k + 1]))
  }

  /** The outcome is refused, nothing has stopped the session, and the limit leaves a correction. */
  ghost predicate CorrectionDue(setup: Setup, calls: seq<Call>, k: nat)
    requires k < |calls|
  {
    && Judged(setup, calls, k) && VerdictOn(setup, calls, k).Refuses?
    && !StoppedAfter(setup, k) && !StopsMeanwhile(setup, calls, k)
    && Corrections(calls[..k + 1]) < setup.def.budget.turns * (setup.def.budget.maxResumes + 1) + 3
  }

  ghost predicate Due(setup: Setup, calls: seq<Call>, k: nat, reason: Reason)
    requires k < |calls|
  {
    match reason
    case First => false
    case Retry => RetryDue(setup, k)
    case Precondition => PreconditionDue(setup, calls, k)
    case Correction => CorrectionDue(setup, calls, k)
  }

  /** Each start after the first was due when it was made. */
  ghost predicate StartedWhenDue(setup: Setup, calls: seq<Call>) {
    && calls != [] && calls[0].reason.First?
    && forall k | 0 < k < |calls| :: Due(setup, calls, k - 1, calls[k].reason)
  }

  /** After the last start no other was due. */
  ghost predicate NoneDue(setup: Setup, calls: seq<Call>)
    requires calls != []
  {
    var k := |calls| - 1;
    !RetryDue(setup, k) && !PreconditionDue(setup, calls, k) && !CorrectionDue(setup, calls, k)
  }

  /** What stopped the session by the end: the shell's own stop, or an abort during the last verdict. */
  ghost function FinalCause(setup: Setup, calls: seq<Call>): Option<Cause>
    requires calls != []
  {
    if StopsMeanwhile(setup, calls, |calls| - 1) then Some(AbortedCause) else PolicyAfter(setup, |calls| - 1).cause
  }

  /** A refused outcome fails as what stopped the session, and otherwise as its budget. */
  function RefusedAs(cause: Option<Cause>): FailureKind {
    match cause
    case Some(ContextCause) => ContextExhausted
    case Some(AbortedCause) => Transport
    case _ => BudgetExhausted
  }

  /** What the session must come to. */
  ghost function Verdicted(setup: Setup, calls: seq<Call>): Result
    requires calls != []
  {
    var k := |calls| - 1;
    match setup.run(k).result
    case Ended(failure) => Failing(Rewritten(FinalCause(setup, calls), failure))
    case Produced(_) =>
      if Judged(setup, calls, k) && VerdictOn(setup, calls, k).Throws? then Failing(Failure(Malformed, NotRetryable))
      else if Judged(setup, calls, k) && VerdictOn(setup, calls, k).Refuses?
      then Failing(Failure(RefusedAs(FinalCause(setup, calls)), NotRetryable))
      else
        match Outcome(setup, k)
        case None => Failing(Failure(Malformed, NotRetryable))
        case Some(output) => Completion(output)
  }

  function LastRecord(result: Result): Recorded {
    match result
    case Completion(output) => OutcomeRecord(output)
    case Failing(failure) => FailureRecord(failure)
  }

  function StatusOf(result: Result): Status {
    match result
    case Completion(_) => Completed
    case Failing(failure) => if failure.retryability.Blocked? then Parked else Failed
  }

  // --- Proofs about it ------------------------------------------------------------------------------

  /** At most one start is due. */
  lemma DueIsUnique(setup: Setup, calls: seq<Call>, k: nat, a: Reason, b: Reason)
    requires k < |calls| && Due(setup, calls, k, a) && Due(setup, calls, k, b)
    ensures a == b
  {
  }

  /** A session that completes does so with the last outcome, which parses and which the validator accepts. */
  lemma CompletionIsAccepted(setup: Setup, calls: seq<Call>, output: Value)
    requires calls != [] && NoneDue(setup, calls) && Verdicted(setup, calls) == Completion(output)
    ensures setup.run(|calls| - 1).result.Produced? && Outcome(setup, |calls| - 1) == Some(output)
    ensures setup.hasValidator ==> setup.verdict(Corrections(calls)).Accepts?
  {
    assert calls[..|calls|] == calls;
  }

  lemma LimitIs(def: Def)
    ensures RefusalLimit(def) == def.budget.turns * (def.budget.maxResumes + 1) + 3
  {
  }

  /**
   * A session that fails after a stop fails as what stopped it; a malformed streak that leaves a refused outcome in
   * hand fails as its budget. One that nothing stopped fails as its driver did, or for its outcome.
   */
  lemma FailureNamesTheStop(setup: Setup, calls: seq<Call>, failure: Failure)
    requires calls != [] && NoneDue(setup, calls) && Verdicted(setup, calls) == Failing(failure)
    ensures var final, cause := setup.run(|calls| - 1).result, FinalCause(setup, calls);
            match cause
            case Some(ContextCause) => failure.kind in {ContextExhausted, Malformed}
            case Some(AbortedCause) => failure.kind in {Transport, Malformed}
            case Some(BudgetCause) => failure.kind in {BudgetExhausted, Malformed}
            case Some(MalformedCause) => failure.kind in {Malformed, BudgetExhausted}
            case None => final == Ended(failure) || (final.Produced? && failure.kind in {Malformed, BudgetExhausted})
    ensures setup.run(|calls| - 1).result.Ended? && FinalCause(setup, calls).Some? ==>
              failure.retryability.NotRetryable? &&
              failure.kind == match FinalCause(setup, calls).value
                              case BudgetCause => BudgetExhausted
                              case ContextCause => ContextExhausted
                              case MalformedCause => Malformed
                              case AbortedCause => Transport
    ensures setup.run(|calls| - 1).result.Produced? ==> failure.retryability.NotRetryable?
  {
    hide PolicyAfter, Told, Corrections, SchemaCorrections, RetryDue, PreconditionDue;
  }

  /** What is due after a run does not depend on later starts. */
  lemma DueIgnoresLater(setup: Setup, calls: seq<Call>, next: Call, k: nat, reason: Reason)
    requires k < |calls|
    ensures Due(setup, calls + [next], k, reason) <==> Due(setup, calls, k, reason)
  {
    hide RetryDue, PolicyAfter, Stopped, Told, Outcome, Corrections, SchemaCorrections;
    assert (calls + [next])[..k + 1] == calls[..k + 1];
  }

  lemma {:induction false} ReplayInTwo(def: Def, from: Policy, a: seq<Item>, b: seq<Item>)
    ensures Replay(def, from, a + b) == Replay(def, Replay(def, from, a), b)
  {
    hide SessionPolicy.Track;
    if b == [] { assert a + b == a; }
    else {
      ReplayInTwo(def, from, a, b[..|b| - 1]);
      assert (a + b)[..|a + b| - 1] == a + b[..|b| - 1];
    }
  }

  lemma {:induction false} AllNotedInTwo(def: Def, from: Policy, a: seq<Item>, b: seq<Item>)
    ensures AllNoted(def, from, a + b) == AllNoted(def, from, a) + AllNoted(def, Replay(def, from, a), b)
  {
    hide Noted, Replay;
    if b == [] { assert a + b == a; }
    else {
      AllNotedInTwo(def, from, a, b[..|b| - 1]);
      ReplayInTwo(def, from, a, b[..|b| - 1]);
      assert (a + b)[..|a + b| - 1] == a + b[..|b| - 1];
    }
  }

  /** A session starts with its first run. */
  lemma FirstStart(setup: Setup, stopped: bool)
    ensures StartedWhenDue(setup, [Call(First, stopped)]) && CallsInOrder([Call(First, stopped)])
    ensures Corrections([Call(First, stopped)]) == 0
  {
    hide Due;
    assert Corrections([]) == 0;
  }

  /** Which shows and tells all there is. */
  lemma FirstTold(setup: Setup, before: seq<Item>)
    requires before == if setup.abortedAtStart then [Abort] else []
    ensures Shown(setup, 0) == before + setup.run(0).items
    ensures var start := Fresh(setup.priorMetPrecondition, setup.priorMetCheckpoint);
            Told(setup, 0) == AllNoted(setup.def, Replay(setup.def, start, before), setup.run(0).items)
  {
    var start := Fresh(setup.priorMetPrecondition, setup.priorMetCheckpoint);
    AllNotedInTwo(setup.def, start, before, setup.run(0).items);
    AbortIsNotNoted(setup.def, start);
    hide Replay, AllNoted;
  }

  lemma AbortIsNotNoted(def: Def, p: Policy)
    ensures AllNoted(def, p, []) == [] && AllNoted(def, p, [Abort]) == []
    ensures Replay(def, p, []) == p && Replay(def, p, [Abort]) == SessionPolicy.Track(def, p, Abort)
    ensures Noted(def, p, Abort) == []
  {
    assert [Abort][..0] == [];
  }

  /** One more start that is due, and was not before unless it is a correction. */
  lemma OneMoreStart(setup: Setup, calls: seq<Call>, reason: Reason)
    requires StartedWhenDue(setup, calls) && CallsInOrder(calls) && Due(setup, calls, |calls| - 1, reason)
    requires forall i | 0 <= i < |calls| && calls[i].reason == reason :: reason.Correction?
    ensures StartedWhenDue(setup, calls + [Call(reason, false)]) && CallsInOrder(calls + [Call(reason, false)])
    ensures Shown(setup, |calls|) == Shown(setup, |calls| - 1) + setup.run(|calls|).items
    ensures Told(setup, |calls|) ==
            Told(setup, |calls| - 1)
            + (if RetryDue(setup, |calls| - 1) then [FailureRecord(setup.run(0).result.failure)] else [])
            + AllNoted(setup.def, PolicyAfter(setup, |calls| - 1), setup.run(|calls|).items)
  {
    hide RetryDue, PreconditionDue, CorrectionDue, PolicyAfter, AllNoted;
    var next := Call(reason, false);
    var all := calls + [next];
    assert !reason.First?;
    forall k | 0 < k < |all|
      ensures Due(setup, all, k - 1, all[k].reason)
    {
      DueIgnoresLater(setup, calls, next, k - 1, all[k].reason);
    }
  }

  lemma CorrectionsGrow(setup: Setup, calls: seq<Call>, next: Call)
    requires calls != []
    ensures Corrections(calls + [next]) == Corrections(calls) + (if next.reason.Correction? then 1 else 0)
    ensures SchemaCorrections(setup, calls + [next]) ==
            SchemaCorrections(setup, calls)
            + (if next.reason.Correction? && setup.run(|calls| - 1).result.Produced?
                  && Outcome(setup, |calls| - 1).None? then 1 else 0)
  {
    hide Outcome;
    assert (calls + [next])[..|calls|] == calls;
  }

  lemma OnlyCorrectionsFollow(setup: Setup, calls: seq<Call>)
    requires |calls| > 1 && calls[|calls| - 1].reason.Correction?
    ensures !RetryDue(setup, |calls| - 1) && !PreconditionDue(setup, calls, |calls| - 1)
  {
  }

  /** What the last run's outcome comes to when it is judged, by the counts so far. */
  lemma LastIsJudged(setup: Setup, calls: seq<Call>, k: nat, value: Value, parsed: Option<Value>)
    requires |calls| == k + 1 && setup.run(k).result == Produced(value)
    requires parsed == setup.parse(value, Told(setup, k))
    requires !PreconditionDue(setup, calls, k)
    requires setup.hasValidator || setup.schemaRepairs > 0 || setup.hasResolver
    ensures Judged(setup, calls, k) && Outcome(setup, k) == parsed
    ensures VerdictOn(setup, calls, k) ==
            (if parsed.None? then (if SchemaCorrections(setup, calls) < setup.schemaRepairs then Refuses else Accepts)
             else if setup.hasValidator then setup.verdict(Corrections(calls)) else Accepts)
    ensures StopsMeanwhile(setup, calls, k) <==>
            parsed.Some? && setup.hasValidator && setup.abortDuringVerdict(Corrections(calls))
    ensures FinalCause(setup, calls) ==
            if StopsMeanwhile(setup, calls, k) then Some(AbortedCause) else PolicyAfter(setup, k).cause
    ensures Verdicted(setup, calls) ==
            match VerdictOn(setup, calls, k)
            case Throws => Failing(Failure(Malformed, NotRetryable))
            case Refuses => Failing(Failure(RefusedAs(FinalCause(setup, calls)), NotRetryable))
            case Accepts => if parsed.Some? then Completion(parsed.value) else Failing(Failure(Malformed, NotRetryable))
  {
    hide Told, StoppedAfter, Corrections, SchemaCorrections, PreconditionDue, RefusalLimit, PolicyAfter;
    assert calls[..|calls|] == calls;
  }

  /** A correction of it is due while it is refused, nothing has stopped the session, and the limit leaves one. */
  lemma LastIsCorrected(setup: Setup, calls: seq<Call>, k: nat)
    requires |calls| == k + 1 && Judged(setup, calls, k)
    ensures Due(setup, calls, k, Correction) <==> CorrectionDue(setup, calls, k)
    ensures CorrectionDue(setup, calls, k) <==>
            && VerdictOn(setup, calls, k).Refuses? && FinalCause(setup, calls).None?
            && Corrections(calls) < RefusalLimit(setup.def)
  {
    hide VerdictOn, Corrections, Judged, PolicyAfter;
    assert calls[..|calls|] == calls;
  }

  /** Nobody judges the last run. */
  lemma LastIsNotJudged(setup: Setup, calls: seq<Call>, k: nat)
    requires |calls| == k + 1
    requires setup.run(k).result.Produced? ==> !(setup.hasValidator || setup.schemaRepairs > 0 || setup.hasResolver)
    ensures !StopsMeanwhile(setup, calls, k)
    ensures NoneDue(setup, calls) <==> !RetryDue(setup, k) && !PreconditionDue(setup, calls, k)
    ensures Verdicted(setup, calls) ==
            match setup.run(k).result
            case Ended(failure) => Failing(Rewritten(PolicyAfter(setup, k).cause, failure))
            case Produced(value) =>
              match setup.parse(value, Told(setup, k))
              case Some(output) => Completion(output)
              case None => Failing(Failure(Malformed, NotRetryable))
  {
    hide PolicyAfter, Told;
  }

  lemma AllNotedGrows(def: Def, from: Policy, items: seq<Item>, item: Item)
    ensures AllNoted(def, from, items + [item]) ==
              AllNoted(def, from, items) + Noted(def, Replay(def, from, items), item)
  {
    hide Noted, Replay;
    assert (items + [item])[..|items|] == items;
  }

  class Session {
    const setup: Setup
    var turns: nat
    var turnsThisGrant: nat
    var grantsUsed: nat
    var wrapUpTurnsLeft: Option<int>
    var interruptCause: Option<Cause>
    var prevTurnMalformed: bool
    var currentTurnMalformed: bool
    var preconditionMet: bool
    var checkpointMet: bool
    var checkpointFired: bool
    var pendingQuestions: set<string>
    var tokens: nat
    var requests: seq<Request>
    var transcript: seq<Recorded>
    var status: Status
    var calls: seq<Call>
    ghost var seen: seq<Item>

    ghost function State(): Policy
      reads this
    {
      Policy(turns, turnsThisGrant, grantsUsed, wrapUpTurnsLeft, interruptCause, prevTurnMalformed,
             currentTurnMalformed,
             preconditionMet, checkpointMet, checkpointFired, pendingQuestions, tokens, requests)
    }

    /** The shell's variables are always the replay of everything it was shown. */
    ghost predicate Valid()
      reads this
    {
      State() == Replay(setup.def, Fresh(setup.priorMetPrecondition, setup.priorMetCheckpoint), seen)
    }

    constructor (setup: Setup)
      ensures this.setup == setup && Valid() && seen == [] && calls == [] && transcript == []
    {
      this.setup := setup;
      turns, turnsThisGrant, grantsUsed, wrapUpTurnsLeft, interruptCause := 0, 0, 0, None, None;
      prevTurnMalformed, currentTurnMalformed := false, false;
      preconditionMet, checkpointMet, checkpointFired := setup.priorMetPrecondition, setup.priorMetCheckpoint, false;
      pendingQuestions, tokens, requests, transcript, status, calls := {}, 0, [], [], Running, [];
      seen := [];
    }

    method RequestInterrupt(cause: Cause)
      modifies `interruptCause, `requests
      ensures State() == Interrupted(old(State()), cause)
    {
      interruptCause := Some(cause);
      requests := requests + [Interrupt(turns, cause)];
    }

    method Append(record: Recorded)
      modifies `transcript
      ensures transcript == old(transcript) + [record]
    {
      transcript := transcript + [record];
    }

    /** One item shown to the shell. */
    method Track(item: Item)
      requires Valid()
      modifies this
      ensures Valid() && seen == old(seen) + [item]
      ensures State() == SessionPolicy.Track(setup.def, old(State()), item)
      ensures calls == old(calls) && status == old(status)
      ensures transcript == old(transcript) + Noted(setup.def, old(State()), item)
    {
      ReplayGrows(setup.def, Fresh(setup.priorMetPrecondition, setup.priorMetCheckpoint), seen, item);
      hide SessionPolicy.CountTurn, SessionPolicy.Bind, SessionPolicy.NudgeDraft, Replay;
      seen := seen + [item];
      if item.Abort? {
        RequestInterrupt(AbortedCause);
      } else {
        Append(FromDriver(item.event));
        Switch(item.event);
      }
    }

    /** The switch of `track`, on the shell's own variables. */
    method Switch(event: Event)
      modifies this
      ensures State() == SessionPolicy.Track(setup.def, old(State()), Emitted(event))
      ensures calls == old(calls) && status == old(status) && seen == old(seen)
      ensures transcript == old(transcript) + Noted(setup.def, old(State()), Emitted(event))[1..]
    {
      hide SessionPolicy.CountTurn, SessionPolicy.Bind, SessionPolicy.NudgeDraft;
      match event
      case AssistantTurn(usage) =>
        CountTurn(usage);
        Bind(usage);
        NudgeDraft();
      case ReAsk => FlagReAsk();
      case ToolResult(tool) => NoteTool(tool);
      case QuestionAsked(id) => pendingQuestions := pendingQuestions + {id};
      case QuestionResolved(id) => pendingQuestions := pendingQuestions - {id};
      case OtherEvent =>
    }

    method FlagReAsk()
      modifies `currentTurnMalformed, `interruptCause, `requests
      ensures State() == SessionPolicy.Track(setup.def, old(State()), Emitted(ReAsk))
    {
      if !currentTurnMalformed {
        currentTurnMalformed := true;
        if prevTurnMalformed { RequestInterrupt(MalformedCause); }
      }
    }

    method NoteTool(tool: string)
      modifies `preconditionMet, `checkpointMet
      ensures State() == SessionPolicy.Track(setup.def, old(State()), Emitted(ToolResult(tool)))
    {
      if setup.def.preconditionTool == Some(tool) { preconditionMet := true; }
      if setup.def.checkpoint.Some? && setup.def.checkpoint.value.tool == tool { checkpointMet := true; }
    }

    method CountTurn(usage: Usage)
      modifies `turns, `turnsThisGrant, `tokens, `prevTurnMalformed, `currentTurnMalformed
      ensures State() == SessionPolicy.CountTurn(old(State()), usage)
    {
      turns, turnsThisGrant := turns + 1, turnsThisGrant + 1;
      tokens := tokens + usage.input + usage.output + usage.cacheRead + usage.cacheCreate;
      prevTurnMalformed, currentTurnMalformed := currentTurnMalformed, false;
    }

    /** The record of a grant, if one was made since. */
    ghost function GrantNoted(before: nat): seq<Recorded>
      reads this
    {
      if grantsUsed > before then [ResumeGrant(grantsUsed, setup.def.budget.maxResumes)] else []
    }

    method Bind(usage: Usage)
      modifies `grantsUsed, `turnsThisGrant, `transcript, `requests, `wrapUpTurnsLeft, `interruptCause
      ensures State() == SessionPolicy.Bind(setup.def, old(State()), usage)
      ensures transcript == old(transcript) + GrantNoted(old(grantsUsed))
    {
      var budget := setup.def.budget;
      if ContextTokens(usage) >= budget.tokenCeiling {
        RequestInterrupt(ContextCause);
      } else if turnsThisGrant >= budget.turns {
        if grantsUsed < budget.maxResumes {
          grantsUsed, turnsThisGrant := grantsUsed + 1, 0;
          Append(ResumeGrant(grantsUsed, budget.maxResumes));
          requests := requests + [Grant(turns, grantsUsed)];
        } else if wrapUpTurnsLeft.None? {
          wrapUpTurnsLeft := Some(WRAP_UP_TURNS);
          requests := requests + [WrapUp(turns)];
        } else {
          wrapUpTurnsLeft := Some(wrapUpTurnsLeft.value - 1);
          if wrapUpTurnsLeft.value <= 0 { RequestInterrupt(BudgetCause); }
        }
      }
    }

    method NudgeDraft()
      modifies `checkpointFired, `requests
      ensures State() == SessionPolicy.NudgeDraft(setup.def, old(State()))
    {
      if setup.def.checkpoint.Some? && !checkpointMet && !checkpointFired
         && turns >= setup.def.checkpoint.value.afterTurn && interruptCause.None? && wrapUpTurnsLeft.None? {
        checkpointFired := true;
        requests := requests + [Nudge(turns)];
      }
    }

    /** Starts the driver once and tracks everything it emits until it settles. */
    method RunOnce(reason: Reason) returns (result: DriverResult)
      requires Valid()
      modifies this
      ensures Valid() && status == old(status)
      ensures result == setup.run(|old(calls)|).result
      ensures seen == old(seen) + setup.run(|old(calls)|).items
      ensures calls == old(calls) + [Call(reason, old(interruptCause).Some?)]
      ensures transcript == old(transcript) + AllNoted(setup.def, old(State()), setup.run(|old(calls)|).items)
    {
      AbortIsNotNoted(setup.def, State());
      hide SessionPolicy.Track, Noted, AllNoted, Replay;
      var run := setup.run(|calls|);
      calls := calls + [Call(reason, interruptCause.Some?)];
      ghost var before, from, told := seen, State(), transcript;
      for i := 0 to |run.items|
        invariant Valid() && status == old(status)
        invariant calls == old(calls) + [Call(reason, old(interruptCause).Some?)]
        invariant seen == before + run.items[..i]
        invariant State() == Replay(setup.def, from, run.items[..i])
        invariant transcript == told + AllNoted(setup.def, from, run.items[..i])
      {
        assert run.items[..i + 1] == run.items[..i] + [run.items[i]];
        AllNotedGrows(setup.def, from, run.items[..i], run.items[i]);
        ReplayGrows(setup.def, from, run.items[..i], run.items[i]);
        Track(run.items[i]);
      }
      assert run.items[..|run.items|] == run.items;
      result := run.result;
    }

    method Fail(failure: Failure) returns (result: Result)
      requires Valid()
      modifies this
      ensures Valid() && calls == old(calls) && seen == old(seen)
      ensures result == Failing(failure)
      ensures transcript == old(transcript) + [FailureRecord(failure)]
      ensures status == if failure.retryability.Blocked? then Parked else Failed
      ensures interruptCause == old(interruptCause)
    {
      transcript := transcript + [FailureRecord(failure)];
      status := if failure.retryability.Blocked? then Parked else Failed;
      result := Failing(failure);
    }

    /** Between two runs: the last one's result in hand, all it showed and told taken in, each start made when due. */
    ghost predicate Between(driven: DriverResult)
      reads this
    {
      && Valid() && calls != [] && StartedWhenDue(setup, calls) && CallsInOrder(calls)
      && driven == setup.run(|calls| - 1).result
      && seen == Shown(setup, |calls| - 1) && transcript == Told(setup, |calls| - 1)
    }

    /** The session is over, as its setup says it must be. */
    ghost predicate Over(result: Result)
      reads this
    {
      && Valid() && calls != [] && StartedWhenDue(setup, calls) && NoneDue(setup, calls) && CallsInOrder(calls)
      && result == Verdicted(setup, calls)
      && transcript == Told(setup, |calls| - 1) + [LastRecord(result)] && status == StatusOf(result)
      && seen == Shown(setup, |calls| - 1) + (if StopsMeanwhile(setup, calls, |calls| - 1) then [Abort] else [])
    }

    /** One more start, which is due. */
    method StartAgain(reason: Reason) returns (driven: DriverResult)
      requires Valid() && calls != [] && StartedWhenDue(setup, calls) && CallsInOrder(calls)
      requires seen == Shown(setup, |calls| - 1) && interruptCause.None?
      requires transcript == Told(setup, |calls| - 1)
               + (if RetryDue(setup, |calls| - 1) then [FailureRecord(setup.run(0).result.failure)] else [])
      requires Due(setup, calls, |calls| - 1, reason)
      requires forall i | 0 <= i < |calls| && calls[i].reason == reason :: reason.Correction?
      modifies this
      ensures Between(driven) && calls == old(calls) + [Call(reason, false)]
    {
      hide Due, Told, Shown, CallsInOrder, StartedWhenDue, RetryDue, AllNoted, Replay;
      OneMoreStart(setup, calls, reason);
      driven := RunOnce(reason);
    }

    /** The first run. */
    method Start() returns (driven: DriverResult)
      requires Valid() && calls == [] && seen == [] && transcript == []
      modifies this
      ensures Between(driven) && |calls| == 1 && calls[0].reason.First? && Corrections(calls) == 0
      ensures interruptCause.Some? <==> StoppedAfter(setup, 0)
    {
      hide SessionPolicy.Track, Told, Shown, CallsInOrder, StartedWhenDue, AllNoted, Noted, Corrections;
      AbortIsNotNoted(setup.def, State());
      if setup.abortedAtStart { Track(Abort); }
      ghost var stopped := interruptCause.Some?;
      FirstTold(setup, seen);
      FirstStart(setup, stopped);
      driven := RunOnce(First);
      assert calls == [Call(First, stopped)];
    }

    /** The first run and, after a transient failure, its one retry. */
    method StartOrRetry() returns (driven: DriverResult)
      requires Valid() && calls == [] && seen == [] && transcript == []
      modifies this
      ensures Between(driven) && 1 <= |calls| <= 2 && !RetryDue(setup, |calls| - 1)
      ensures Corrections(calls) == 0 && SchemaCorrections(setup, calls) == 0
      ensures calls[|calls| - 1].reason.First? || calls[|calls| - 1].reason.Retry?
      ensures forall i | 0 <= i < |calls| :: !calls[i].reason.Precondition?
    {
      hide Told, Shown, CallsInOrder, StartedWhenDue, AllNoted, StoppedAfter, Outcome;
      driven := Start();
      if driven.Ended? && driven.failure.retryability.Transient? && interruptCause.None? {
        Append(FailureRecord(driven.failure));
        CorrectionsGrow(setup, calls, Call(Retry, false));
        driven := StartAgain(Retry);
      }
    }

    /** Then the one precondition refusal. */
    method Open() returns (driven: DriverResult)
      requires Valid() && calls == [] && seen == [] && transcript == []
      modifies this
      ensures Between(driven) && 1 <= |calls| <= 3 && Corrections(calls) == 0 && SchemaCorrections(setup, calls) == 0
      ensures !RetryDue(setup, |calls| - 1) && !PreconditionDue(setup, calls, |calls| - 1)
    {
      hide Told, Shown, CallsInOrder, StartedWhenDue, AllNoted, Outcome, Corrections, SchemaCorrections;
      driven := StartOrRetry();
      if driven.Produced? && setup.def.preconditionTool.Some? && !preconditionMet && interruptCause.None? {
        CorrectionsGrow(setup, calls, Call(Precondition, false));
        driven := StartAgain(Precondition);
      }
    }

    /** A refused outcome goes back, and the session goes on. */
    method Correct(ghost refused: Value) returns (driven: DriverResult)
      requires Between(Produced(refused)) && Due(setup, calls, |calls| - 1, Correction) && interruptCause.None?
      requires !RetryDue(setup, |calls| - 1)
      modifies this
      ensures Between(driven) && |calls| == |old(calls)| + 1 && Corrections(calls) == Corrections(old(calls)) + 1
      ensures SchemaCorrections(setup, calls) ==
              SchemaCorrections(setup, old(calls))
              + if setup.parse(refused, old(transcript)).None? then 1 else 0
      ensures !RetryDue(setup, |calls| - 1) && !PreconditionDue(setup, calls, |calls| - 1)
    {
      hide Due, Told, Shown, CallsInOrder, StartedWhenDue, RetryDue, PreconditionDue, AllNoted, Replay, Corrections,
           SchemaCorrections;
      CorrectionsGrow(setup, calls, Call(Correction, false));
      driven := StartAgain(Correction);
      OnlyCorrectionsFollow(setup, calls);
    }

    method Finalize(driven: DriverResult) returns (result: Result)
      requires Valid() && calls != [] && driven == setup.run(|calls| - 1).result
      modifies this
      ensures Valid() && calls == old(calls) && seen == old(seen)
      ensures result == (match driven
                         case Produced(value) =>
                           (match setup.parse(value, old(transcript))
                            case Some(output) => Completion(output)
                            case None => Failing(Failure(Malformed, NotRetryable)))
                         case Ended(failure) => Failing(Rewritten(old(interruptCause), failure)))
      ensures transcript == old(transcript) + [LastRecord(result)] && status == StatusOf(result)
    {
      match driven {
        case Produced(value) =>
          var parsed := setup.parse(value, transcript);
          if parsed.Some? {
            Append(OutcomeRecord(parsed.value));
            status := Completed;
            return Completion(parsed.value);
          }
          result := Fail(Failure(Malformed, NotRetryable));
        case Ended(failure) =>
          result := Fail(Rewritten(interruptCause, failure));
      }
    }

    /** What one pass of the outcome loop asks next: nothing more, a correction, or the validator's own failure. */
    method Judge(value: Value, refusals: nat, repairs: nat) returns (verdict: Verdict, repaired: nat)
      requires Valid()
      modifies this
      ensures Valid() && calls == old(calls) && transcript == old(transcript) && status == old(status)
      ensures setup.parse(value, old(transcript)).None? ==>
                && (if repairs < setup.schemaRepairs then verdict.Refuses? && repaired == repairs + 1
                    else verdict.Accepts? && repaired == repairs)
      ensures setup.parse(value, old(transcript)).Some? ==>
                verdict == (if setup.hasValidator then setup.verdict(refusals) else Accepts) && repaired == repairs
      ensures if setup.parse(value, old(transcript)).Some? && setup.hasValidator && setup.abortDuringVerdict(refusals)
              then seen == old(seen) + [Abort] && interruptCause == Some(AbortedCause)
              else seen == old(seen) && State() == old(State())
    {
      hide SessionPolicy.CountTurn, SessionPolicy.Bind, SessionPolicy.NudgeDraft, Replay;
      repaired := repairs;
      var parsed := setup.parse(value, transcript);
      if parsed.None? {
        if repairs >= setup.schemaRepairs { return Accepts, repaired; }
        return Refuses, repaired + 1;
      }
      if !setup.hasValidator { return Accepts, repaired; }
      verdict := setup.verdict(refusals);
      if setup.abortDuringVerdict(refusals) { Track(Abort); }
    }

    /** All that is left is to record the end. */
    ghost predicate Closing()
      reads this
    {
      && Valid() && calls != [] && StartedWhenDue(setup, calls) && NoneDue(setup, calls) && CallsInOrder(calls)
      && transcript == Told(setup, |calls| - 1) && interruptCause == FinalCause(setup, calls)
      && seen == Shown(setup, |calls| - 1) + (if StopsMeanwhile(setup, calls, |calls| - 1) then [Abort] else [])
    }

    /** The outcome in hand is judged: another start is due, or the session is about to close. */
    method JudgeLast(value: Value, refusals: nat, repairs: nat) returns (verdict: Verdict, repaired: nat)
      requires Between(Produced(value)) && (setup.hasValidator || setup.schemaRepairs > 0 || setup.hasResolver)
      requires refusals == Corrections(calls) && repairs == SchemaCorrections(setup, calls)
      requires !RetryDue(setup, |calls| - 1) && !PreconditionDue(setup, calls, |calls| - 1)
      modifies this
      ensures calls == old(calls) && transcript == old(transcript)
      ensures Valid() && Judged(setup, calls, |calls| - 1) && verdict == VerdictOn(setup, calls, |calls| - 1)
      ensures verdict.Refuses? ==>
                repaired == repairs + if setup.parse(value, transcript).None? then 1 else 0
      ensures interruptCause == FinalCause(setup, calls)
      ensures if verdict.Refuses? && interruptCause.None? && refusals < RefusalLimit(setup.def)
              then Between(Produced(value)) && Due(setup, calls, |calls| - 1, Correction)
              else Closing()
      ensures Verdicted(setup, calls) ==
              match verdict
              case Throws => Failing(Failure(Malformed, NotRetryable))
              case Refuses => Failing(Failure(RefusedAs(interruptCause), NotRetryable))
              case Accepts =>
                match setup.parse(value, transcript)
                case Some(output) => Completion(output)
                case None => Failing(Failure(Malformed, NotRetryable))
    {
      hide RefusalLimit, Told, Shown, CallsInOrder, StartedWhenDue, AllNoted, Corrections, SchemaCorrections,
           PreconditionDue, RetryDue, Replay, Judged, VerdictOn, StopsMeanwhile, CorrectionDue, Outcome, Due, Verdicted,
           FinalCause;
      LastIsJudged(setup, calls, |calls| - 1, value, setup.parse(value, transcript));
      LastIsCorrected(setup, calls, |calls| - 1);
      verdict, repaired := Judge(value, refusals, repairs);
    }

    /**
     * Every session ends, against any driver: within its refusal limit plus three starts, with at most one retry and
     * one precondition refusal and no start after the shell decided to stop. A start is made exactly when it is due;
     * the result is the one due after the last; and the transcript is all the runs told, and then the result.
     */
    method Run() returns (result: Result)
      requires Valid() && calls == [] && seen == [] && transcript == []
      modifies this
      ensures Over(result) && |calls| <= setup.def.budget.turns * (setup.def.budget.maxResumes + 1) + 6
    {
      hide RefusalLimit, Told, Shown, CallsInOrder, StartedWhenDue, AllNoted, Corrections, SchemaCorrections, NoneDue,
           PreconditionDue, RetryDue, Replay, Judged, VerdictOn, StopsMeanwhile, CorrectionDue, Outcome, Due, Verdicted,
           FinalCause;
      var limit := RefusalLimit(setup.def);
      LimitIs(setup.def);
      var driven := Open();
      var refusals, repairs := 0, 0;
      while driven.Produced? && (setup.hasValidator || setup.schemaRepairs > 0 || setup.hasResolver)
        invariant Between(driven) && refusals <= limit && |calls| <= refusals + 3
        invariant refusals == Corrections(calls) && repairs == SchemaCorrections(setup, calls)
        invariant !RetryDue(setup, |calls| - 1) && !PreconditionDue(setup, calls, |calls| - 1)
        decreases limit - refusals
      {
        var verdict;
        verdict, repairs := JudgeLast(driven.value, refusals, repairs);
        if verdict.Throws? {
          result := Fail(Failure(Malformed, NotRetryable));
          return;
        }
        if verdict.Accepts? {
          result := Finalize(driven);
          return;
        }
        refusals := refusals + 1;
        if interruptCause.Some? || refusals > limit {
          var kind := if interruptCause == Some(ContextCause) then ContextExhausted
                      else if interruptCause == Some(AbortedCause) then Transport
                      else BudgetExhausted;
          result := Fail(Failure(kind, NotRetryable));
          return;
        }
        driven := Correct(driven.value);
      }
      LastIsNotJudged(setup, calls, |calls| - 1);
      result := Finalize(driven);
    }
  }
}
