/**
 * Which committed flow a re-synthesized one continues, and what id each ends up with
 * (packages/shared/src/guard/flows.ts `resolveFlowIdentity`; packages/guard-generator/src/flows.ts `freeId`
 * and the identity pass of `synthesizeFlows`).
 *
 * Proved: verdicts name distinct flows, keep only an unchanged contract, and honour every statement; ids are distinct.
 */
module FlowIdentity {
  import opened Common
  import opened Text
  import opened FlowModel

  /** `Remap` keeps the prior flow, `Amended` keeps its id under new milestones; both name it by position. */
  datatype Verdict = New | Remap(prior: nat) | Amended(prior: nat)

  predicate Claims(v: Verdict, p: nat) { !v.New? && v.prior == p }

  /** `new Map(prev.map((flow, p) => [flow.id, p]))`. */
  function LastWithId(prev: seq<Flow>, id: string): Option<nat> {
    if prev == [] then None
    else if prev[|prev| - 1].id == id then Some(|prev| - 1)
    else LastWithId(prev[..|prev| - 1], id)
  }

  lemma {:induction false} LastWithIdFinds(prev: seq<Flow>, id: string)
    ensures LastWithId(prev, id).Some? ==>
              LastWithId(prev, id).value < |prev| && prev[LastWithId(prev, id).value].id == id
    ensures LastWithId(prev, id).Some? <==> exists p :: 0 <= p < |prev| && prev[p].id == id
  {
    if prev != [] { LastWithIdFinds(prev[..|prev| - 1], id); }
  }

  function Key(flow: Flow): Contract { ContractOf(flow.milestones, flow.startingState) }

  // --- What a resolution must be ------------------------------------------------------

  /** Every prior flow is claimed at most once, and `claimed` is exactly the claimed ones. */
  ghost predicate ClaimsOnce(prev: seq<Flow>, verdicts: seq<Verdict>, claimed: set<nat>) {
    && (forall n | 0 <= n < |verdicts| && !verdicts[n].New? ::
        verdicts[n].prior < |prev| && verdicts[n].prior in claimed)
    && (forall p | p in claimed :: p < |prev| && exists n :: 0 <= n < |verdicts| && Claims(verdicts[n], p))
    && (forall n, m | 0 <= n < m < |verdicts| && !verdicts[n].New? && !verdicts[m].New? ::
        verdicts[n].prior != verdicts[m].prior)
  }

  /** Kept means the same contract; amended means synthesis named the flow and its contract moved. */
  ghost predicate VerdictsFit(prev: seq<Flow>, next: seq<Flow>, continues: seq<Option<string>>, verdicts: seq<Verdict>)
    requires |verdicts| == |next| == |continues|
  {
    forall n | 0 <= n < |verdicts| && !verdicts[n].New? ::
      && verdicts[n].prior < |prev|
      && (verdicts[n].Remap? ==> Key(prev[verdicts[n].prior]) == Key(next[n]))
      && (verdicts[n].Amended? ==>
          continues[n] == Some(prev[verdicts[n].prior].id) && Key(prev[verdicts[n].prior]) != Key(next[n]))
  }

  /** A stated continuation of a known flow wins, unless another statement took that flow. */
  ghost predicate StatementsHonoured(prev: seq<Flow>, continues: seq<Option<string>>, verdicts: seq<Verdict>)
    requires |verdicts| == |continues|
  {
    forall n | 0 <= n < |verdicts| && continues[n].Some? && LastWithId(prev, continues[n].value).Some? ::
      TakenBy(continues, verdicts, continues[n], LastWithId(prev, continues[n].value).value)
  }

  ghost predicate TakenBy(continues: seq<Option<string>>, verdicts: seq<Verdict>, statement: Option<string>, p: nat)
    requires |verdicts| == |continues|
  {
    exists m :: 0 <= m < |verdicts| && continues[m] == statement && Claims(verdicts[m], p)
  }

  predicate Unambiguous(prev: seq<Flow>, next: seq<Flow>, verdicts: seq<Verdict>, claimed: set<nat>, n: nat)
    requires n < |next| == |verdicts|
  {
    && (exists p :: 0 <= p < |prev| && p !in claimed && Key(prev[p]) == Key(next[n]))
    && (forall p, q | 0 <= p < q < |prev| && p !in claimed && q !in claimed ::
        !(Key(prev[p]) == Key(next[n]) && Key(prev[q]) == Key(next[n])))
    && (forall m | 0 <= m < |next| && m != n && verdicts[m].New? :: Key(next[m]) != Key(next[n]))
  }

  // What decides a resolution, read off the flows and the statements alone.

  /** Flow `n` states that it continues prior flow `p`. */
  predicate NamesPrior(prev: seq<Flow>, continues: seq<Option<string>>, n: nat, p: nat) {
    n < |continues| && continues[n].Some? && LastWithId(prev, continues[n].value) == Some(p)
  }

  /** The statement is honoured: it is the first to name its flow. */
  ghost predicate HonouredAt(prev: seq<Flow>, continues: seq<Option<string>>, n: nat, p: nat) {
    NamesPrior(prev, continues, n, p) && forall m: nat | m < n :: !NamesPrior(prev, continues, m, p)
  }

  ghost predicate Honoured(prev: seq<Flow>, continues: seq<Option<string>>, n: nat) {
    exists p: nat :: HonouredAt(prev, continues, n, p)
  }

  ghost predicate Named(prev: seq<Flow>, continues: seq<Option<string>>, p: nat) {
    exists n: nat :: NamesPrior(prev, continues, n, p)
  }

  /** Neither has a statement honoured, they share a contract, and no other flow of either side without one does. */
  ghost predicate LoneMatch(prev: seq<Flow>, next: seq<Flow>, continues: seq<Option<string>>, n: nat, p: nat) {
    && n < |next| && p < |prev| && Key(prev[p]) == Key(next[n])
    && !Honoured(prev, continues, n) && !Named(prev, continues, p)
    && (forall q: nat | q < |prev| && q != p && !Named(prev, continues, q) :: Key(prev[q]) != Key(next[n]))
    && (forall m: nat | m < |next| && m != n && !Honoured(prev, continues, m) :: Key(next[m]) != Key(next[n]))
  }

  ghost predicate Inherits(prev: seq<Flow>, next: seq<Flow>, continues: seq<Option<string>>, n: nat, p: nat) {
    HonouredAt(prev, continues, n, p) || LoneMatch(prev, next, continues, n, p)
  }

  /**
   * Verdicts claim exactly what is inherited: a statement wins, and without one only a lone match; a tie is nobody's.
   */
  ghost predicate DecidedByInheritance(prev: seq<Flow>, next: seq<Flow>, continues: seq<Option<string>>,
                                       verdicts: seq<Verdict>)
    requires |verdicts| == |next|
  {
    forall n: nat, p: nat | n < |next| :: Claims(verdicts[n], p) <==> Inherits(prev, next, continues, n, p)
  }

  ghost predicate Resolves(prev: seq<Flow>, next: seq<Flow>, continues: seq<Option<string>>, verdicts: seq<Verdict>,
                           claimed: set<nat>) {
    && |verdicts| == |next| == |continues|
    && ClaimsOnce(prev, verdicts, claimed)
    && VerdictsFit(prev, next, continues, verdicts)
    && StatementsHonoured(prev, continues, verdicts)
    && DecidedByInheritance(prev, next, continues, verdicts)
  }

  // --- Resolution -----------------------------------------------------------------------

  /** Only statements claim so far, each the flow it names, and every flow named so far is claimed. */
  ghost predicate StatedSoFar(prev: seq<Flow>, continues: seq<Option<string>>, verdicts: seq<Verdict>,
                              claimed: set<nat>, n: nat)
    requires n <= |continues| == |verdicts|
  {
    && (forall m | 0 <= m < |verdicts| && !verdicts[m].New? ::
          m < n && continues[m].Some? && LastWithId(prev, continues[m].value) == Some(verdicts[m].prior))
    && (forall m | 0 <= m < n && continues[m].Some? && LastWithId(prev, continues[m].value).Some? ::
          LastWithId(prev, continues[m].value).value in claimed)
  }

  /** So far exactly the first statement to name a flow claims it. */
  ghost predicate FirstsClaim(prev: seq<Flow>, continues: seq<Option<string>>, verdicts: seq<Verdict>, n: nat)
    requires n <= |continues| == |verdicts|
  {
    forall m: nat, p: nat | m < |verdicts| :: Claims(verdicts[m], p) <==> m < n && HonouredAt(prev, continues, m, p)
  }

  /** A flow is claimed exactly when some statement so far names it. */
  lemma ClaimedIsNamed(prev: seq<Flow>, continues: seq<Option<string>>, verdicts: seq<Verdict>, claimed: set<nat>,
                       n: nat, p: nat)
    requires n <= |continues| == |verdicts| && ClaimsOnce(prev, verdicts, claimed)
    requires StatedSoFar(prev, continues, verdicts, claimed, n)
    ensures p in claimed <==> exists m: nat :: m < n && NamesPrior(prev, continues, m, p)
  {
    if p in claimed {
      var m :| 0 <= m < |verdicts| && Claims(verdicts[m], p);
      assert NamesPrior(prev, continues, m, p);
    }
  }

  lemma OneMoreStatement(prev: seq<Flow>, continues: seq<Option<string>>, before: seq<Verdict>, after: seq<Verdict>,
                         claimed: set<nat>, n: nat)
    requires n < |continues| == |before| == |after| && ClaimsOnce(prev, before, claimed)
    requires StatedSoFar(prev, continues, before, claimed, n) && FirstsClaim(prev, continues, before, n)
    requires forall m | 0 <= m < |before| && m != n :: after[m] == before[m]
    requires var p := if continues[n].Some? then LastWithId(prev, continues[n].value) else None;
             if p.Some? && p.value !in claimed then Claims(after[n], p.value) else after[n].New?
    ensures FirstsClaim(prev, continues, after, n + 1)
  {
    forall p: nat
      ensures Claims(after[n], p) <==> HonouredAt(prev, continues, n, p)
    {
      ClaimedIsNamed(prev, continues, before, claimed, n, p);
    }
    forall m: nat, p: nat | m < |after|
      ensures Claims(after[m], p) <==> m < n + 1 && HonouredAt(prev, continues, m, p)
    {
      if m != n { assert Claims(after[m], p) <==> Claims(before[m], p); }
    }
  }

  /** First pass: stated continuations, in order; the first to name a flow takes it. */
  method ResolveStated(prev: seq<Flow>, next: seq<Flow>, continues: seq<Option<string>>)
      returns (verdicts: seq<Verdict>, claimed: set<nat>)
    requires |continues| == |next|
    ensures |verdicts| == |next| && ClaimsOnce(prev, verdicts, claimed)
    ensures VerdictsFit(prev, next, continues, verdicts) && StatementsHonoured(prev, continues, verdicts)
    ensures SettledTo(prev, next, continues, verdicts, claimed, 0)
  {
    verdicts := seq(|next|, _ => New);
    claimed := {};
    for n := 0 to |next|
      invariant |verdicts| == |next| && ClaimsOnce(prev, verdicts, claimed)
      invariant VerdictsFit(prev, next, continues, verdicts)
      invariant StatedSoFar(prev, continues, verdicts, claimed, n) && FirstsClaim(prev, continues, verdicts, n)
    {
      ghost var before, had := verdicts, claimed;
      if continues[n].Some? {
        LastWithIdFinds(prev, continues[n].value);
        var p := LastWithId(prev, continues[n].value);
        if p.Some? && p.value !in claimed {
          var v := if Key(prev[p.value]) == Key(next[n]) then Remap(p.value) else Amended(p.value);
          ClaimOneMore(prev, verdicts, claimed, n, v);
          claimed, verdicts := claimed + {p.value}, verdicts[n := v];
        }
      }
      OneMoreStatement(prev, continues, before, verdicts, had, n);
    }
    AllStated(prev, continues, verdicts, claimed);
    StatementsSettle(prev, next, continues, verdicts, claimed);
  }

  lemma AllStated(prev: seq<Flow>, continues: seq<Option<string>>, verdicts: seq<Verdict>, claimed: set<nat>)
    requires |continues| == |verdicts| && ClaimsOnce(prev, verdicts, claimed)
    requires StatedSoFar(prev, continues, verdicts, claimed, |continues|)
    ensures StatementsHonoured(prev, continues, verdicts)
  {
    forall n | 0 <= n < |verdicts| && continues[n].Some? && LastWithId(prev, continues[n].value).Some?
      ensures TakenBy(continues, verdicts, continues[n], LastWithId(prev, continues[n].value).value)
    {
      var p := LastWithId(prev, continues[n].value).value;
      var m :| 0 <= m < |verdicts| && Claims(verdicts[m], p);
      LastWithIdFinds(prev, continues[n].value);
      LastWithIdFinds(prev, continues[m].value);
    }
  }

  lemma ClaimOneMore(prev: seq<Flow>, verdicts: seq<Verdict>, claimed: set<nat>, n: nat, v: Verdict)
    requires ClaimsOnce(prev, verdicts, claimed) && n < |verdicts| && verdicts[n].New?
    requires !v.New? && v.prior < |prev| && v.prior !in claimed
    ensures ClaimsOnce(prev, verdicts[n := v], claimed + {v.prior})
  {
    var after := verdicts[n := v];
    forall p | p in claimed + {v.prior}
      ensures exists m :: 0 <= m < |after| && Claims(after[m], p)
    {
      if p == v.prior { assert Claims(after[n], p); }
      else {
        var m :| 0 <= m < |verdicts| && Claims(verdicts[m], p);
        assert Claims(after[m], p);
      }
    }
  }

  /** What the flows before `n` inherit is settled; the others claim by statement only. */
  ghost predicate SettledTo(prev: seq<Flow>, next: seq<Flow>, continues: seq<Option<string>>, verdicts: seq<Verdict>,
                            claimed: set<nat>, n: nat)
    requires |verdicts| == |next| == |continues|
  {
    && (forall m: nat, p: nat | m < |next| ::
          Claims(verdicts[m], p) <==>
              HonouredAt(prev, continues, m, p) || (m < n && LoneMatch(prev, next, continues, m, p)))
    && (forall p: nat | p < |prev| :: p in claimed <==>
        Named(prev, continues, p) || MatchedBefore(prev, next, continues, n, p))
  }

  ghost predicate MatchedBefore(prev: seq<Flow>, next: seq<Flow>, continues: seq<Option<string>>, n: nat, p: nat) {
    exists m: nat :: m < n && LoneMatch(prev, next, continues, m, p)
  }

  lemma StatementsSettle(prev: seq<Flow>, next: seq<Flow>, continues: seq<Option<string>>, verdicts: seq<Verdict>,
                         claimed: set<nat>)
    requires |verdicts| == |next| == |continues| && ClaimsOnce(prev, verdicts, claimed)
    requires StatedSoFar(prev, continues, verdicts, claimed, |next|) && FirstsClaim(prev, continues, verdicts, |next|)
    ensures SettledTo(prev, next, continues, verdicts, claimed, 0)
  {
    forall p: nat | p < |prev|
      ensures p in claimed <==> Named(prev, continues, p)
    {
      ClaimedIsNamed(prev, continues, verdicts, claimed, |next|, p);
    }
  }

  /** A flow still new was given nothing by a statement; one before `n` found no lone match either. */
  lemma NewIsUnhonoured(prev: seq<Flow>, next: seq<Flow>, continues: seq<Option<string>>, verdicts: seq<Verdict>,
                        claimed: set<nat>, n: nat, m: nat)
    requires |verdicts| == |next| == |continues| && SettledTo(prev, next, continues, verdicts, claimed, n) && m < |next|
    ensures verdicts[m].New? <==>
              !Honoured(prev, continues, m) && !(m < n && exists p: nat :: LoneMatch(prev, next, continues, m, p))
  {
    if !verdicts[m].New? { assert Claims(verdicts[m], verdicts[m].prior); }
    if Honoured(prev, continues, m) {
      var p: nat :| HonouredAt(prev, continues, m, p);
      assert Claims(verdicts[m], p);
    }
    if m < n && exists p: nat :: LoneMatch(prev, next, continues, m, p) {
      var p: nat :| LoneMatch(prev, next, continues, m, p);
      assert Claims(verdicts[m], p);
    }
  }

  /** What the code finds unambiguous at `n`, some flows already settled, is exactly a lone match. */
  lemma UnambiguousIsLone(prev: seq<Flow>, next: seq<Flow>, continues: seq<Option<string>>, verdicts: seq<Verdict>,
                          claimed: set<nat>, n: nat, p: nat)
    requires |verdicts| == |next| == |continues| && SettledTo(prev, next, continues, verdicts, claimed, n)
    requires n < |next| && verdicts[n].New? && p < |prev|
    ensures LoneMatch(prev, next, continues, n, p) <==>
              Unambiguous(prev, next, verdicts, claimed, n) && p !in claimed && Key(prev[p]) == Key(next[n])
  {
    var key := Key(next[n]);
    NewIsUnhonoured(prev, next, continues, verdicts, claimed, n, n);
    forall q: nat | q < |prev|
      ensures MatchedBefore(prev, next, continues, n, q) ==> Key(prev[q]) != key
    {
      if MatchedBefore(prev, next, continues, n, q) {
        var m: nat :| m < n && LoneMatch(prev, next, continues, m, q);
        assert Key(next[n]) != Key(next[m]);
      }
    }
    forall m: nat | m < |next|
      ensures Key(next[m]) == key ==> (verdicts[m].New? <==> !Honoured(prev, continues, m))
    {
      NewIsUnhonoured(prev, next, continues, verdicts, claimed, n, m);
      if m < n && exists q: nat :: LoneMatch(prev, next, continues, m, q) {
        var q: nat :| LoneMatch(prev, next, continues, m, q);
        assert Key(next[n]) != Key(next[m]);
      }
    }
    LoneByKey(prev, next, continues, verdicts, claimed, n, p);
  }

  lemma LoneByKey(prev: seq<Flow>, next: seq<Flow>, continues: seq<Option<string>>, verdicts: seq<Verdict>,
                  claimed: set<nat>, n: nat, p: nat)
    requires |verdicts| == |next| == |continues| && n < |next| && p < |prev| && !Honoured(prev, continues, n)
    requires forall q: nat | q < |prev| && Key(prev[q]) == Key(next[n]) :: q in claimed <==> Named(prev, continues, q)
    requires forall m: nat | m < |next| && Key(next[m]) == Key(next[n]) :: verdicts[m].New? <==>
               !Honoured(prev, continues, m)
    ensures LoneMatch(prev, next, continues, n, p) <==>
              Unambiguous(prev, next, verdicts, claimed, n) && p !in claimed && Key(prev[p]) == Key(next[n])
  {
    hide Key, Named, Honoured;
    if Unambiguous(prev, next, verdicts, claimed, n) && p !in claimed && Key(prev[p]) == Key(next[n]) {
      forall q: nat | q < |prev| && q != p && !Named(prev, continues, q)
        ensures Key(prev[q]) != Key(next[n])
      {
        assert q !in claimed ==> Key(prev[q]) != Key(next[n]);
      }
    }
  }

  /** One more flow settled: it claims its lone match, or there is none. */
  lemma OneMoreSettled(prev: seq<Flow>, next: seq<Flow>, continues: seq<Option<string>>, before: seq<Verdict>,
                       claimed: set<nat>,
                       after: seq<Verdict>, now: set<nat>, n: nat)
    requires |before| == |next| == |continues| == |after| && n < |next|
    requires SettledTo(prev, next, continues, before, claimed, n)
    requires forall m | 0 <= m < |next| && m != n :: after[m] == before[m]
    requires || (after[n] == before[n] && now == claimed && forall p: nat :: !LoneMatch(prev, next, continues, n, p))
             || (before[n].New? && !after[n].New? && now == claimed + {after[n].prior}
                 && LoneMatch(prev, next, continues, n, after[n].prior)
                 && !Honoured(prev, continues, n))
    ensures SettledTo(prev, next, continues, after, now, n + 1)
  {
    forall p: nat
      ensures LoneMatch(prev, next, continues, n, p) ==> !after[n].New? && p == after[n].prior
    {
    }
    forall m: nat, p: nat | m < |next|
      ensures Claims(after[m], p) <==>
                HonouredAt(prev, continues, m, p) || (m < n + 1 && LoneMatch(prev, next, continues, m, p))
    {
      if m != n { assert Claims(after[m], p) <==> Claims(before[m], p); }
    }
    forall p: nat | p < |prev|
      ensures p in now <==> Named(prev, continues, p) || MatchedBefore(prev, next, continues, n + 1, p)
    {
      assert MatchedBefore(prev, next, continues, n + 1, p) <==>
             MatchedBefore(prev, next, continues, n, p) || LoneMatch(prev, next, continues, n, p);
    }
  }

  /** The unclaimed prior flows of one contract, by position. */
  function Matches(prev: seq<Flow>, claimed: set<nat>, key: Contract): seq<nat> {
    if prev == [] then []
    else Matches(prev[..|prev| - 1], claimed, key)
         + (if |prev| - 1 !in claimed && Key(prev[|prev| - 1]) == key then [|prev| - 1] else [])
  }

  /** The still-new flows of one contract, by position. */
  function Rivals(next: seq<Flow>, verdicts: seq<Verdict>, key: Contract): seq<nat>
    requires |next| == |verdicts|
  {
    if next == [] then []
    else Rivals(next[..|next| - 1], verdicts[..|next| - 1], key)
         + (if verdicts[|next| - 1].New? && Key(next[|next| - 1]) == key then [|next| - 1] else [])
  }

  lemma {:induction false} MatchesAre(prev: seq<Flow>, claimed: set<nat>, key: Contract)
    ensures forall p :: p in Matches(prev, claimed, key) <==> 0 <= p < |prev| && p !in claimed && Key(prev[p]) == key
    ensures forall i, j | 0 <= i < j < |Matches(prev, claimed, key)| ::
              Matches(prev, claimed, key)[i] < Matches(prev, claimed, key)[j]
  {
    if prev != [] {
      MatchesAre(prev[..|prev| - 1], claimed, key);
      var front := Matches(prev[..|prev| - 1], claimed, key);
      assert forall i | 0 <= i < |front| :: front[i] in front;
    }
  }

  lemma {:induction false} RivalsAre(next: seq<Flow>, verdicts: seq<Verdict>, key: Contract)
    requires |next| == |verdicts|
    ensures forall n :: n in Rivals(next, verdicts, key) <==> 0 <= n < |next| && verdicts[n].New? && Key(next[n]) == key
    ensures forall i, j | 0 <= i < j < |Rivals(next, verdicts, key)| ::
              Rivals(next, verdicts, key)[i] < Rivals(next, verdicts, key)[j]
  {
    if next != [] {
      RivalsAre(next[..|next| - 1], verdicts[..|next| - 1], key);
      var front := Rivals(next[..|next| - 1], verdicts[..|next| - 1], key);
      assert forall i | 0 <= i < |front| :: front[i] in front;
    }
  }

  lemma TwoOfMany(positions: seq<nat>)
    requires forall i, j | 0 <= i < j < |positions| :: positions[i] < positions[j]
    ensures |positions| > 1 ==> exists p, q :: p in positions && q in positions && p < q
  {
    if |positions| > 1 { assert positions[0] in positions && positions[1] in positions && positions[0] < positions[1]; }
  }

  lemma UnambiguousIsOneOne(prev: seq<Flow>, next: seq<Flow>, verdicts: seq<Verdict>, claimed: set<nat>, n: nat)
    requires n < |next| == |verdicts| && verdicts[n].New?
    ensures Unambiguous(prev, next, verdicts, claimed, n) <==>
            |Matches(prev, claimed, Key(next[n]))| == 1 && |Rivals(next, verdicts, Key(next[n]))| == 1
  {
    var key := Key(next[n]);
    var matches, rivals := Matches(prev, claimed, key), Rivals(next, verdicts, key);
    MatchesAre(prev, claimed, key);
    RivalsAre(next, verdicts, key);
    assert n in rivals;
    if Unambiguous(prev, next, verdicts, claimed, n) {
      var p :| 0 <= p < |prev| && p !in claimed && Key(prev[p]) == key;
      assert p in matches;
      TwoOfMany(matches);
      TwoOfMany(rivals);
    }
    if |matches| == 1 && |rivals| == 1 {
      assert matches[0] in matches && rivals[0] == n;
      assert exists p :: 0 <= p < |prev| && p !in claimed && Key(prev[p]) == key by { assert 0 <= matches[0] < |prev|; }
      forall p, q | 0 <= p < q < |prev| && p !in claimed && q !in claimed
        ensures !(Key(prev[p]) == key && Key(prev[q]) == key)
      {
        assert !(p in matches && q in matches);
      }
      forall m | 0 <= m < |next| && m != n && verdicts[m].New?
        ensures Key(next[m]) != key
      {
        assert m !in rivals;
      }
    }
  }

  /** Second pass: without a statement, only one unambiguous identical contract inherits. */
  method ResolveIdentity(prev: seq<Flow>, next: seq<Flow>, continues: seq<Option<string>>)
      returns (verdicts: seq<Verdict>, claimed: set<nat>)
    requires |continues| == |next|
    ensures Resolves(prev, next, continues, verdicts, claimed)
  {
    hide ClaimsOnce, VerdictsFit, StatementsHonoured, SettledTo;
    verdicts, claimed := ResolveStated(prev, next, continues);
    for n := 0 to |next|
      invariant |verdicts| == |next| && ClaimsOnce(prev, verdicts, claimed)
      invariant VerdictsFit(prev, next, continues, verdicts) && StatementsHonoured(prev, continues, verdicts)
      invariant SettledTo(prev, next, continues, verdicts, claimed, n)
    {
      verdicts, claimed := InheritLone(prev, next, continues, verdicts, claimed, n);
    }
    AllSettled(prev, next, continues, verdicts, claimed);
  }

  method InheritLone(prev: seq<Flow>, next: seq<Flow>, continues: seq<Option<string>>, before: seq<Verdict>,
                     had: set<nat>, n: nat)
    returns (verdicts: seq<Verdict>, claimed: set<nat>)
    requires n < |before| == |next| == |continues| && ClaimsOnce(prev, before, had)
    requires VerdictsFit(prev, next, continues, before) && StatementsHonoured(prev, continues, before)
    requires SettledTo(prev, next, continues, before, had, n)
    ensures |verdicts| == |next| && ClaimsOnce(prev, verdicts, claimed)
    ensures VerdictsFit(prev, next, continues, verdicts) && StatementsHonoured(prev, continues, verdicts)
    ensures SettledTo(prev, next, continues, verdicts, claimed, n + 1)
  {
    hide ClaimsOnce, VerdictsFit, StatementsHonoured, SettledTo, LoneMatch, Honoured, Unambiguous;
    verdicts, claimed := before, had;
    NewIsUnhonoured(prev, next, continues, before, had, n, n);
    if before[n].New? {
      var key := Key(next[n]);
      var matches, rivals := Matches(prev, had, key), Rivals(next, before, key);
      MatchesAre(prev, had, key);
      UnambiguousIsOneOne(prev, next, before, had, n);
      forall q: nat | q < |prev|
        ensures LoneMatch(prev, next, continues, n, q) <==>
                  Unambiguous(prev, next, before, had, n) && q !in had && Key(prev[q]) == key
      {
        UnambiguousIsLone(prev, next, continues, before, had, n, q);
      }
      if |matches| == 1 && |rivals| == 1 {
        var p := matches[0];
        assert p in matches;
        ClaimOneMore(prev, before, had, n, Remap(p));
        FitOneMore(prev, next, continues, before, n, p);
        StatementsStay(prev, continues, before, n, Remap(p));
        claimed, verdicts := had + {p}, before[n := Remap(p)];
      }
    }
    LoneIsInside(prev, next, continues, n);
    OneMoreSettled(prev, next, continues, before, had, verdicts, claimed, n);
  }

  lemma LoneIsInside(prev: seq<Flow>, next: seq<Flow>, continues: seq<Option<string>>, n: nat)
    ensures forall p: nat | LoneMatch(prev, next, continues, n, p) :: p < |prev| && !Honoured(prev, continues, n)
  {
    hide Honoured;
  }

  lemma AllSettled(prev: seq<Flow>, next: seq<Flow>, continues: seq<Option<string>>, verdicts: seq<Verdict>,
                   claimed: set<nat>)
    requires |verdicts| == |next| == |continues| && SettledTo(prev, next, continues, verdicts, claimed, |next|)
    ensures DecidedByInheritance(prev, next, continues, verdicts)
  {
    hide LoneMatch, HonouredAt;
  }

  lemma FitOneMore(prev: seq<Flow>, next: seq<Flow>, continues: seq<Option<string>>, verdicts: seq<Verdict>, n: nat,
                   p: nat)
    requires n < |verdicts| == |next| == |continues| && VerdictsFit(prev, next, continues, verdicts)
    requires p < |prev| && Key(prev[p]) == Key(next[n])
    ensures VerdictsFit(prev, next, continues, verdicts[n := Remap(p)])
  {
  }

  lemma TakenStays(continues: seq<Option<string>>, verdicts: seq<Verdict>, n: nat, v: Verdict,
                   statement: Option<string>, p: nat)
    requires n < |verdicts| == |continues| && verdicts[n].New? && TakenBy(continues, verdicts, statement, p)
    ensures TakenBy(continues, verdicts[n := v], statement, p)
  {
    var m :| 0 <= m < |verdicts| && continues[m] == statement && Claims(verdicts[m], p);
    assert Claims(verdicts[n := v][m], p);
  }

  lemma StatementsStay(prev: seq<Flow>, continues: seq<Option<string>>, verdicts: seq<Verdict>, n: nat, v: Verdict)
    requires n < |verdicts| == |continues| && verdicts[n].New? && StatementsHonoured(prev, continues, verdicts)
    ensures StatementsHonoured(prev, continues, verdicts[n := v])
  {
    forall k | 0 <= k < |verdicts| && continues[k].Some? && LastWithId(prev, continues[k].value).Some?
      ensures TakenBy(continues, verdicts[n := v], continues[k], LastWithId(prev, continues[k].value).value)
    {
      TakenStays(continues, verdicts, n, v, continues[k], LastWithId(prev, continues[k].value).value);
    }
  }

  // --- Handles ------------------------------------------------------------------------------

  function Candidate(base: string, n: nat): string { base + "-" + Decimal(n) }

  lemma CandidatesDiffer(base: string, a: nat, b: nat)
    requires Candidate(base, a) == Candidate(base, b)
    ensures a == b
  {
    assert Candidate(base, a)[|base| + 1..] == Decimal(a);
    assert Candidate(base, b)[|base| + 1..] == Decimal(b);
    DecimalIsInjective(a, b);
  }

  /** The least suffix from `n` on that is free, if the suffixes before it are of no account. */
  function LeastFree(base: string, taken: set<string>, n: nat): (least: nat)
    ensures least >= n && Candidate(base, least) !in taken
    ensures forall m | n <= m < least :: Candidate(base, m) in taken
    decreases |taken|
  {
    if Candidate(base, n) !in taken then n
    else
      var rest := taken - {Candidate(base, n)};
      var least := LeastFree(base, rest, n + 1);
      assert Candidate(base, least) !in taken by {
        if Candidate(base, least) == Candidate(base, n) { CandidatesDiffer(base, least, n); }
      }
      least
  }

  /** The id `base` comes to when some are taken: itself, or its least free suffix from 2. */
  function FreeIdOf(base: string, taken: set<string>): string {
    if base !in taken then base else Candidate(base, LeastFree(base, taken, 2))
  }

  /** Some base comes to an id: it is the id itself, or is taken and has it for its least free suffix. */
  ghost predicate ComesTo(base: string, taken: set<string>, id: string) {
    && id !in taken
    && (id == base || (base in taken
                       && exists n: nat :: n >= 2 && id == Candidate(base, n) && AllTaken(base, taken, n)))
  }

  predicate AllTaken(base: string, taken: set<string>, n: nat) { forall m | 2 <= m < n :: Candidate(base, m) in taken }

  lemma FreeIdOfExactly(base: string, taken: set<string>, id: string)
    ensures FreeIdOf(base, taken) == id <==> ComesTo(base, taken, id)
  {
    var least := LeastFree(base, taken, 2);
    if base in taken {
      if FreeIdOf(base, taken) == id {
        assert least >= 2 && id == Candidate(base, least) && AllTaken(base, taken, least);
      }
      if ComesTo(base, taken, id) {
        var n: nat :| n >= 2 && id == Candidate(base, n) && AllTaken(base, taken, n);
        assert n == least;
      }
    }
  }

  /** Take `base`, or the first free `base-N`; the search ends because only finitely many are taken. */
  method FreeId(base: string, taken: set<string>) returns (id: string)
    ensures ComesTo(base, taken, id) && id == FreeIdOf(base, taken)
  {
    FreeIdOfExactly(base, taken, base);
    if base !in taken { return base; }
    var n := 2;
    ghost var tried: set<string> := {};
    while Candidate(base, n) in taken
      invariant n >= 2 && tried <= taken && |tried| == n - 2
      invariant forall id | id in tried :: exists m :: 2 <= m < n && id == Candidate(base, m)
      invariant forall m | 2 <= m < n :: Candidate(base, m) in taken
      decreases |taken| - |tried|
    {
      if Candidate(base, n) in tried {
        var m :| 2 <= m < n && Candidate(base, n) == Candidate(base, m);
        CandidatesDiffer(base, n, m);
        assert false;
      }
      SubsetSize(tried + {Candidate(base, n)}, taken);
      tried := tried + {Candidate(base, n)};
      n := n + 1;
    }
    id := Candidate(base, n);
    assert AllTaken(base, taken, n);
    FreeIdOfExactly(base, taken, id);
  }

  // --- Identity applied -----------------------------------------------------------------------

  /** A milestone's sentences follow the live claim it names. */
  function Reread(m: Milestone, live: seq<Claim>): Milestone {
    match Snap(live, m.claimId)
    case None => m
    case Some(claim) => m.(sentences := claim.sentences)
  }

  /** The committed flow as it stands, its sentences re-read. */
  function Refreshed(flow: Flow, live: seq<Claim>): Flow {
    flow.(milestones := seq(|flow.milestones|,
                            i requires 0 <= i < |flow.milestones| => Reread(flow.milestones[i], live)))
  }

  ghost predicate DistinctIds(flows: seq<Flow>) {
    forall i, j | 0 <= i < j < |flows| :: flows[i].id != flows[j].id
  }

  /** The ids of the flows a kind of verdict was given to, in order. */
  function IdsWhere(out: seq<Flow>, verdicts: seq<Verdict>, kind: Verdict): seq<string>
    requires |out| == |verdicts|
  {
    if out == [] then []
    else IdsWhere(out[..|out| - 1], verdicts[..|out| - 1], kind)
         + (if SameKind(verdicts[|out| - 1], kind) then [out[|out| - 1].id] else [])
  }

  predicate SameKind(v: Verdict, kind: Verdict) {
    (v.New? && kind.New?) || (v.Remap? && kind.Remap?) || (v.Amended? && kind.Amended?)
  }

  /** What each re-synthesized flow becomes. */
  ghost predicate Becomes(prev: seq<Flow>, used: set<string>, live: seq<Claim>, next: Flow, v: Verdict, out: Flow) {
    match v
    case New => out == next.(id := out.id) && out.id !in used
    case Remap(p) => p < |prev| && out == Refreshed(prev[p], live)
    case Amended(p) => p < |prev| && out == next.(id := prev[p].id)
  }

  lemma IdsWhereStep(out: seq<Flow>, verdicts: seq<Verdict>, kind: Verdict, n: nat)
    requires n < |out| == |verdicts|
    ensures IdsWhere(out[..n + 1], verdicts[..n + 1], kind) ==
            IdsWhere(out[..n], verdicts[..n], kind) + (if SameKind(verdicts[n], kind) then [out[n].id] else [])
  {
    assert out[..n + 1][..n] == out[..n] && verdicts[..n + 1][..n] == verdicts[..n];
  }

  lemma IdsWhereAll(out: seq<Flow>, verdicts: seq<Verdict>, kind: Verdict)
    requires |out| == |verdicts|
    ensures IdsWhere(out[..|out|], verdicts[..|out|], kind) == IdsWhere(out, verdicts, kind)
  {
    assert out[..|out|] == out && verdicts[..|out|] == verdicts;
  }

  /** Where the new flows stand. */
  function NewOnes(verdicts: seq<Verdict>): set<nat> { set n: nat | n < |verdicts| && verdicts[n].New? }

  /** The ids the first `n` flows are given, those of them that are unnamed, one after another. */
  function NamesGiven(used: set<string>, slug: string -> string, next: seq<Flow>, unnamed: set<nat>,
                      n: nat): set<string>
    requires n <= |next|
    decreases n, 0
  {
    if n == 0 then {}
    else
      NamesGiven(used, slug, next, unnamed, n - 1)
      + (if n - 1 in unnamed then {NameOf(used, slug, next, unnamed, n - 1)} else {})
  }

  /** What its slug comes to when the used ids and those given out before it are taken. */
  function NameOf(used: set<string>, slug: string -> string, next: seq<Flow>, unnamed: set<nat>, k: nat): string
    requires k < |next|
    decreases k, 1
  {
    FreeIdOf(slug(next[k].title), used + NamesGiven(used, slug, next, unnamed, k))
  }

  /** Each new flow carries the name it is given. */
  ghost predicate NamedInOrder(used: set<string>, slug: string -> string, next: seq<Flow>, verdicts: seq<Verdict>,
                               out: seq<Flow>, n: nat)
    requires n <= |out| == |verdicts| == |next|
  {
    forall k | 0 <= k < n && verdicts[k].New? :: out[k].id == NameOf(used, slug, next, NewOnes(verdicts), k)
  }

  lemma {:induction false} NamesGivenAre(used: set<string>, slug: string -> string, next: seq<Flow>, unnamed: set<nat>,
                                         n: nat, id: string)
    requires n <= |next|
    ensures id in NamesGiven(used, slug, next, unnamed, n) <==>
              exists k: nat :: k < n && k in unnamed && NameOf(used, slug, next, unnamed, k) == id
  {
    hide NameOf;
    if n > 0 { NamesGivenAre(used, slug, next, unnamed, n - 1, id); }
  }

  /** A name given is none of the used ids, and no other flow's. */
  lemma NameIsOwn(used: set<string>, slug: string -> string, next: seq<Flow>, unnamed: set<nat>, k: nat, m: nat)
    requires m < k < |next| && m in unnamed
    ensures NameOf(used, slug, next, unnamed, k) !in used
    ensures NameOf(used, slug, next, unnamed, k) != NameOf(used, slug, next, unnamed, m)
  {
    var taken := used + NamesGiven(used, slug, next, unnamed, k);
    FreeIdOfExactly(slug(next[k].title), taken, NameOf(used, slug, next, unnamed, k));
    NamesGivenAre(used, slug, next, unnamed, k, NameOf(used, slug, next, unnamed, m));
  }

  lemma NewNamesDiffer(used: set<string>, slug: string -> string, next: seq<Flow>, verdicts: seq<Verdict>,
                       out: seq<Flow>)
    requires |out| == |verdicts| == |next| && NamedInOrder(used, slug, next, verdicts, out, |out|)
    ensures forall k | 0 <= k < |out| && verdicts[k].New? :: out[k].id !in used
    ensures forall m, k | 0 <= m < k < |out| && verdicts[m].New? && verdicts[k].New? :: out[m].id != out[k].id
  {
    hide NameOf;
    forall k | 0 <= k < |out| && verdicts[k].New?
      ensures out[k].id !in used
    {
      NameIsUnused(used, slug, next, NewOnes(verdicts), k);
    }
    forall m, k | 0 <= m < k < |out| && verdicts[m].New? && verdicts[k].New?
      ensures out[m].id != out[k].id
    {
      NameIsOwn(used, slug, next, NewOnes(verdicts), k, m);
    }
  }

  lemma NameIsUnused(used: set<string>, slug: string -> string, next: seq<Flow>, unnamed: set<nat>, k: nat)
    requires k < |next|
    ensures NameOf(used, slug, next, unnamed, k) !in used
  {
    var taken := used + NamesGiven(used, slug, next, unnamed, k);
    FreeIdOfExactly(slug(next[k].title), taken, NameOf(used, slug, next, unnamed, k));
  }

  /** Second pass: each new flow in turn is given what its slug comes to, past the ids in use and those given before. */
  method NameNew(used: set<string>, next: seq<Flow>, verdicts: seq<Verdict>, inherited: seq<Flow>,
                 slug: string -> string)
    returns (out: seq<Flow>, added: seq<string>)
    requires |verdicts| == |next| == |inherited|
    ensures |out| == |next| && NamedInOrder(used, slug, next, verdicts, out, |out|)
    ensures forall n | 0 <= n < |out| ::
              if verdicts[n].New? then out[n] == next[n].(id := out[n].id) else out[n] == inherited[n]
    ensures added == IdsWhere(out, verdicts, New)
  {
    hide IdsWhere, FreeIdOf;
    out, added := inherited, [];
    var taken := used;
    NoIds(New);
    assert out[..0] == [] && verdicts[..0] == [];
    for n := 0 to |next|
      invariant |out| == |next| && NamedInOrder(used, slug, next, verdicts, out, n)
      invariant taken == used + NamesGiven(used, slug, next, NewOnes(verdicts), n)
      invariant forall m | n <= m < |next| :: out[m] == inherited[m]
      invariant forall m | 0 <= m < n ::
                  if verdicts[m].New? then out[m] == next[m].(id := out[m].id) else out[m] == inherited[m]
      invariant added == IdsWhere(out[..n], verdicts[..n], New)
    {
      ghost var before := out;
      if verdicts[n].New? {
        var id := FreeId(slug(next[n].title), taken);
        out := out[n := next[n].(id := id)];
        taken := taken + {id};
        added := added + [id];
      }
      assert out[..n] == before[..n];
      IdsWhereStep(out, verdicts, New, n);
    }
    IdsWhereAll(out, verdicts, New);
  }

  lemma NoIds(kind: Verdict)
    ensures IdsWhere([], [], kind) == []
  {
  }

  /** Inherited ids claim first; then every new flow is named. */
  method AssignIds(prev: seq<Flow>, used: set<string>, next: seq<Flow>, verdicts: seq<Verdict>, claimed: set<nat>,
                   live: seq<Claim>, slug: string -> string)
    returns (out: seq<Flow>, kept: seq<string>, amended: seq<string>, added: seq<string>)
    requires |verdicts| == |next| && ClaimsOnce(prev, verdicts, claimed) && DistinctIds(prev)
    requires forall p | 0 <= p < |prev| :: prev[p].id in used
    ensures |out| == |next|
    ensures forall n | 0 <= n < |out| :: Becomes(prev, used, live, next[n], verdicts[n], out[n])
    ensures DistinctIds(out) && NamedInOrder(used, slug, next, verdicts, out, |out|)
    ensures kept == IdsWhere(out, verdicts, Remap(0)) && amended == IdsWhere(out, verdicts, Amended(0))
    ensures added == IdsWhere(out, verdicts, New)
  {
    var inherited;
    inherited, kept, amended := Inherit(prev, next, verdicts, claimed, live);
    out, added := NameNew(used, next, verdicts, inherited, slug);
    NewNamesDiffer(used, slug, next, verdicts, out);
    KindsUntouched(inherited, out, verdicts);
    DistinctAfter(prev, used, live, next, verdicts, claimed, out);
  }

  function Inherited(prev: seq<Flow>, live: seq<Claim>, next: Flow, v: Verdict): Flow
    requires v.New? || v.prior < |prev|
  {
    match v
    case New => next
    case Remap(p) => Refreshed(prev[p], live)
    case Amended(p) => next.(id := prev[p].id)
  }

  /** First pass: the committed flow itself when kept, the new one under the committed id when amended. */
  method Inherit(prev: seq<Flow>, next: seq<Flow>, verdicts: seq<Verdict>, claimed: set<nat>, live: seq<Claim>)
    returns (out: seq<Flow>, kept: seq<string>, amended: seq<string>)
    requires |verdicts| == |next| && ClaimsOnce(prev, verdicts, claimed)
    ensures |out| == |next|
    ensures forall n | 0 <= n < |next| :: out[n] == Inherited(prev, live, next[n], verdicts[n])
    ensures kept == IdsWhere(out, verdicts, Remap(0)) && amended == IdsWhere(out, verdicts, Amended(0))
  {
    out, kept, amended := next, [], [];
    for n := 0 to |next|
      invariant |out| == |next|
      invariant forall m | n <= m < |next| :: out[m] == next[m]
      invariant forall m | 0 <= m < n :: out[m] == Inherited(prev, live, next[m], verdicts[m])
      invariant kept == IdsWhere(out[..n], verdicts[..n], Remap(0))
      invariant amended == IdsWhere(out[..n], verdicts[..n], Amended(0))
    {
      ghost var before := out;
      match verdicts[n] {
        case New =>
        case Amended(p) =>
          out := out[n := next[n].(id := prev[p].id)];
          amended := amended + [prev[p].id];
        case Remap(p) =>
          out := out[n := Refreshed(prev[p], live)];
          kept := kept + [prev[p].id];
      }
      assert out[..n] == before[..n];
      IdsWhereStep(out, verdicts, Remap(0), n);
      IdsWhereStep(out, verdicts, Amended(0), n);
    }
    IdsWhereAll(out, verdicts, Remap(0));
    IdsWhereAll(out, verdicts, Amended(0));
  }

  lemma {:induction false} KindsUntouched(a: seq<Flow>, b: seq<Flow>, verdicts: seq<Verdict>)
    requires |a| == |b| == |verdicts|
    requires forall n | 0 <= n < |a| && !verdicts[n].New? :: a[n] == b[n]
    ensures IdsWhere(a, verdicts, Remap(0)) == IdsWhere(b, verdicts, Remap(0))
    ensures IdsWhere(a, verdicts, Amended(0)) == IdsWhere(b, verdicts, Amended(0))
  {
    if a != [] { KindsUntouched(a[..|a| - 1], b[..|a| - 1], verdicts[..|a| - 1]); }
  }

  lemma DistinctAfter(prev: seq<Flow>, used: set<string>, live: seq<Claim>, next: seq<Flow>, verdicts: seq<Verdict>,
                      claimed: set<nat>, out: seq<Flow>)
    requires |out| == |next| == |verdicts| && ClaimsOnce(prev, verdicts, claimed) && DistinctIds(prev)
    requires forall p | 0 <= p < |prev| :: prev[p].id in used
    requires forall n | 0 <= n < |out| :: Becomes(prev, used, live, next[n], verdicts[n], out[n])
    requires forall m, k | 0 <= m < k < |out| && verdicts[m].New? && verdicts[k].New? :: out[m].id != out[k].id
    ensures DistinctIds(out)
  {
    forall m, k | 0 <= m < k < |out|
      ensures out[m].id != out[k].id
    {
      assert Becomes(prev, used, live, next[m], verdicts[m], out[m])
          && Becomes(prev, used, live, next[k], verdicts[k], out[k]);
    }
  }
}
