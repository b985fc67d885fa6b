/** Selecting the role binding for a set of claims (config_rbac.go, `lookupUserAccount`). */
module RoleBindings {
  import opened Values
  import opened MatchCriteria
  import opened RoleCollation

  const STRATEGY_STRICT := "strict"

  datatype Binding = Binding(account: string, roles: seq<string>, tokenMaxExpiry: int, criteria: seq<Match>)

  /** Any strategy other than "strict", the empty one included, selects the best match. */
  datatype Rbac = Rbac(bindings: seq<Binding>, roles: seq<Role>, strategy: string)

  datatype LookupError = UnknownRole(name: string) | NoStrictMatch | NoBestMatch

  datatype Outcome =
    | Granted(account: string, collated: Collated, tokenMaxExpiry: int)
    | Denied(error: LookupError)

  // ---- Description of the selection --------------------------------------------------

  /** How many criteria hold. */
  function Matches(e: Eval, criteria: seq<Match>): nat {
    if criteria == [] then 0
    else Matches(e, criteria[..|criteria| - 1]) + if Holds(e, criteria[|criteria| - 1]) then 1 else 0
  }

  predicate Candidate(e: Eval, b: Binding) { Matches(e, b.criteria) > 0 }

  /** More criteria matched or, on a tie, more criteria in all. */
  predicate Beats(e: Eval, b: Binding, c: Binding) {
    var m, n := Matches(e, b.criteria), Matches(e, c.criteria);
    m > n || (m == n && |b.criteria| > |c.criteria|)
  }

  /** Binding `i` beats every candidate before it. */
  ghost predicate IsRecord(e: Eval, bs: seq<Binding>, i: nat) {
    && i < |bs|
    && Candidate(e, bs[i])
    && forall j | 0 <= j < i && Candidate(e, bs[j]) :: Beats(e, bs[i], bs[j])
  }

  /** The first of the best: a record that no later candidate beats. */
  ghost predicate IsWinner(e: Eval, bs: seq<Binding>, i: nat) {
    && IsRecord(e, bs, i)
    && forall j | i < j < |bs| && Candidate(e, bs[j]) :: !Beats(e, bs[j], bs[i])
  }

  /** Every criterion holds, and there is at least one. */
  predicate FullMatch(e: Eval, b: Binding) {
    b.criteria != [] && forall m | m in b.criteria :: Holds(e, m)
  }

  predicate IsFallback(b: Binding) { b.criteria == [] }

  ghost predicate FirstFallback(bs: seq<Binding>, i: nat) {
    i < |bs| && IsFallback(bs[i]) && forall j | 0 <= j < i :: !IsFallback(bs[j])
  }

  ghost predicate FirstFullMatch(e: Eval, bs: seq<Binding>, i: nat) {
    i < |bs| && FullMatch(e, bs[i]) && forall j | 0 <= j < i :: !FullMatch(e, bs[j])
  }

  /** What selecting `b` leads to: its roles may still be unknown. */
  function Grant(rbac: Rbac, b: Binding): Outcome {
    match Collate(rbac.roles, b.roles)
    case Ok(collated) => Granted(b.account, collated, b.tokenMaxExpiry)
    case Err(name) => Denied(UnknownRole(name))
  }

  ghost predicate FallbackOutcome(rbac: Rbac, none: LookupError, out: Outcome) {
    && (forall i: nat | FirstFallback(rbac.bindings, i) :: out == Grant(rbac, rbac.bindings[i]))
    && ((forall b | b in rbac.bindings :: !IsFallback(b)) ==> out == Denied(none))
  }

  ghost predicate StrictOutcome(rbac: Rbac, e: Eval, out: Outcome) {
    && (forall i: nat | FirstFullMatch(e, rbac.bindings, i) :: out == Grant(rbac, rbac.bindings[i]))
    && ((forall b | b in rbac.bindings :: !FullMatch(e, b)) ==> FallbackOutcome(rbac, NoStrictMatch, out))
  }

  /** A record whose roles are not all configured. */
  ghost predicate IsBroken(rbac: Rbac, e: Eval, i: nat) {
    IsRecord(e, rbac.bindings, i) && !Known(rbac.roles, rbac.bindings[i].roles)
  }

  ghost predicate NoneBroken(rbac: Rbac, e: Eval) {
    forall i: nat | i < |rbac.bindings| :: !IsBroken(rbac, e, i)
  }

  /**
   * Roles are collated at each new record, so the first record with an unknown role decides,
   * even when a later binding would have won.
   */
  ghost predicate BestMatchOutcome(rbac: Rbac, e: Eval, out: Outcome) {
    && (forall i: nat | IsBroken(rbac, e, i) && (forall j | 0 <= j < i :: !IsBroken(rbac, e, j)) ::
          out == Grant(rbac, rbac.bindings[i]))
    && (NoneBroken(rbac, e) ==> forall i: nat | IsWinner(e, rbac.bindings, i) :: out == Grant(rbac, rbac.bindings[i]))
    && ((forall b | b in rbac.bindings :: !Candidate(e, b)) ==> FallbackOutcome(rbac, NoBestMatch, out))
  }

  ghost predicate LookupOutcome(rbac: Rbac, e: Eval, out: Outcome) {
    if rbac.strategy == STRATEGY_STRICT then StrictOutcome(rbac, e, out) else BestMatchOutcome(rbac, e, out)
  }

  // ---- The code ----------------------------------------------------------------------

  /** The best binding so far, with what its roles collated to. */
  datatype MatchResult = MatchResult(
    matches: int, numMatchCriteria: int, account: string, collated: Collated, maxExpiry: int)

  class Config {
    const rbac: Rbac
    const engine: ExprEngine
    const exprCache: ExprCache?

    constructor (rbac: Rbac, engine: ExprEngine, exprCache: ExprCache?)
      ensures this.rbac == rbac && this.engine == engine && this.exprCache == exprCache
    {
      this.rbac := rbac;
      this.engine := engine;
      this.exprCache := exprCache;
    }

    /** Evaluates the criteria of one binding; strict mode stops at the first that fails. */
    method CountMatches(criteria: seq<Match>, context: Object, strict: bool, ghost e: Eval)
      returns (currentMatches: int, fullyMatched: bool)
      requires e.engine == engine && e.context == context && Grown(e, Programs(exprCache))
      requires exprCache == null ==> e.programs == map[]
      modifies exprCache
      ensures Grown(e, Programs(exprCache))
      ensures fullyMatched <==> forall m | m in criteria :: Holds(e, m)
      ensures !strict || fullyMatched ==> currentMatches == Matches(e, criteria)
      ensures strict && !fullyMatched ==> currentMatches == -1
    {
      currentMatches := 0;
      fullyMatched := true;
      for k := 0 to |criteria|
        invariant Grown(e, Programs(exprCache))
        invariant fullyMatched <==> forall m | m in criteria[..k] :: Holds(e, m)
        invariant strict ==> fullyMatched
        invariant currentMatches == Matches(e, criteria[..k])
      {
        assert criteria[..k + 1] == criteria[..k] + [criteria[k]];
        GrownKeepsAnswers(e, Programs(exprCache), criteria[k]);
        assert e.(programs := Programs(exprCache)) == Eval(engine, Programs(exprCache), context);
        var matched := EvaluateMatchCriterion(engine, criteria[k], context, exprCache);
        if matched {
          currentMatches := currentMatches + 1;
        } else {
          fullyMatched := false;
          if strict {
            currentMatches := -1;
            break;
          }
        }
      }
      assert criteria[..|criteria|] == criteria;
    }

    method GrantOf(b: Binding) returns (out: Outcome)
      ensures out == Grant(rbac, b)
    {
      var r := CollateRoles(rbac.roles, b.roles);
      match r
      case Ok(collated) => out := Granted(b.account, collated, b.tokenMaxExpiry);
      case Err(name) => out := Denied(UnknownRole(name));
    }

    method FallBack(fallback: Option<Binding>, none: LookupError) returns (out: Outcome)
      requires FallbackSoFar(rbac.bindings, |rbac.bindings|, fallback)
      ensures FallbackOutcome(rbac, none, out)
    {
      if fallback.Some? {
        out := GrantOf(fallback.value);
      } else {
        out := Denied(none);
      }
    }

    /** The best-match step: a binding that improves on the best so far is collated and takes its place. */
    method Consider(
      binding: Binding, currentMatches: int, bestMatch: MatchResult, ghost e: Eval, ghost i: nat, ghost best: nat)
      returns (r: Result<MatchResult, string>, ghost best': nat)
      requires i < |rbac.bindings| && binding == rbac.bindings[i] && currentMatches == Matches(e, binding.criteria)
      requires BestSoFar(rbac, e, i, best, bestMatch)
      ensures r.Err? ==> BestMatchOutcome(rbac, e, Denied(UnknownRole(r.error)))
      ensures r.Ok? ==> BestSoFar(rbac, e, i + 1, best', r.value)
    {
      var updateBestMatch := false;
      if currentMatches > 0 {
        if currentMatches > bestMatch.matches {
          updateBestMatch := true;
        } else if currentMatches == bestMatch.matches {
          if |binding.criteria| > bestMatch.numMatchCriteria {
            updateBestMatch := true;
          }
        }
      }
      r, best' := Ok(bestMatch), best;
      if !updateBestMatch {
        BestKeep(rbac, e, i, best, bestMatch);
        return;
      }
      var collated := CollateRoles(rbac.roles, binding.roles);
      if collated.Err? {
        BestBroken(rbac, e, i, best, bestMatch, Denied(UnknownRole(collated.error)));
        return Err(collated.error), best;
      }
      var updated := MatchResult(
        currentMatches, |binding.criteria|, binding.account, collated.value, binding.tokenMaxExpiry);
      BestUpdate(rbac, e, i, best, bestMatch, updated);
      return Ok(updated), i;
    }

    method LookupUserAccount(context: Object) returns (out: Outcome)
      modifies exprCache
      ensures LookupOutcome(rbac, Eval(engine, old(Programs(exprCache)), context), out)
      ensures Grown(Eval(engine, old(Programs(exprCache)), context), Programs(exprCache))
    {
      ghost var e := Eval(engine, Programs(exprCache), context);
      var bs := rbac.bindings;
      var strict := rbac.strategy == STRATEGY_STRICT;
      var bestMatch := MatchResult(0, 0, "", Summary([]), 0);
      var fallback: Option<Binding> := None;
      ghost var best := 0;

      for i := 0 to |bs|
        invariant Grown(e, Programs(exprCache))
        invariant FallbackSoFar(bs, i, fallback)
        invariant strict ==> forall j | 0 <= j < i :: !FullMatch(e, bs[j])
        invariant !strict ==> BestSoFar(rbac, e, i, best, bestMatch)
      {
        var binding := bs[i];
        FallbackStep(bs, i, fallback);
        if |binding.criteria| == 0 {
          if fallback.None? {
            fallback := Some(binding);
          }
          if !strict {
            BestKeep(rbac, e, i, best, bestMatch);
          }
          continue;
        }

        var currentMatches, fullyMatched := CountMatches(binding.criteria, context, strict, e);
        if strict {
          AllHoldIffAllMatch(e, binding.criteria);
          if fullyMatched && currentMatches == |binding.criteria| {
            out := GrantOf(binding);
            StrictDecides(rbac, e, i, out);
            return;
          }
          continue;
        }

        var r;
        r, best := Consider(binding, currentMatches, bestMatch, e, i, best);
        if r.Err? {
          return Denied(UnknownRole(r.error));
        }
        bestMatch := r.value;
      }

      if strict {
        out := FallBack(fallback, NoStrictMatch);
      } else if bestMatch.matches == 0 {
        out := FallBack(fallback, NoBestMatch);
      } else {
        out := Granted(bestMatch.account, bestMatch.collated, bestMatch.maxExpiry);
        WinnerDecides(rbac, e, best, out);
      }
    }
  }

  // ---- Steps of the proof ------------------------------------------------------------

  ghost predicate FallbackSoFar(bs: seq<Binding>, i: nat, fallback: Option<Binding>) {
    && i <= |bs|
    && (fallback.None? ==> forall j | 0 <= j < i :: !IsFallback(bs[j]))
    && (fallback.Some? ==> exists j: nat | j < i :: FirstFallback(bs, j) && fallback.value == bs[j])
  }

  lemma FallbackStep(bs: seq<Binding>, i: nat, fallback: Option<Binding>)
    requires i < |bs| && FallbackSoFar(bs, i, fallback)
    ensures FallbackSoFar(bs, i + 1, if IsFallback(bs[i]) && fallback.None? then Some(bs[i]) else fallback)
  {
    assert IsFallback(bs[i]) && fallback.None? ==> FirstFallback(bs, i);
  }

  /** `m` describes binding `best`, the winner among the first `i`; no record there is broken. */
  ghost predicate BestSoFar(rbac: Rbac, e: Eval, i: nat, best: nat, m: MatchResult) {
    var bs := rbac.bindings;
    && i <= |bs|
    && (forall j: nat | j < i :: !IsBroken(rbac, e, j))
    && if m.matches == 0 then
         m.numMatchCriteria == 0 && forall j: nat | j < i :: !Candidate(e, bs[j])
       else
         && best < i
         && IsRecord(e, bs, best)
         && m.matches == Matches(e, bs[best].criteria)
         && m.numMatchCriteria == |bs[best].criteria|
         && (forall j: nat | best < j < i && Candidate(e, bs[j]) :: !Beats(e, bs[j], bs[best]))
         && Grant(rbac, bs[best]) == Granted(m.account, m.collated, m.maxExpiry)
  }

  predicate Improves(e: Eval, b: Binding, m: MatchResult) {
    var n := Matches(e, b.criteria);
    n > 0 && (n > m.matches || (n == m.matches && |b.criteria| > m.numMatchCriteria))
  }

  /** Improving on the current best is the same as beating every candidate so far. */
  lemma RecordIff(rbac: Rbac, e: Eval, i: nat, best: nat, m: MatchResult)
    requires i < |rbac.bindings| && BestSoFar(rbac, e, i, best, m)
    ensures IsRecord(e, rbac.bindings, i) <==> Improves(e, rbac.bindings[i], m)
  {
  }

  lemma BestKeep(rbac: Rbac, e: Eval, i: nat, best: nat, m: MatchResult)
    requires i < |rbac.bindings| && BestSoFar(rbac, e, i, best, m) && !Improves(e, rbac.bindings[i], m)
    ensures BestSoFar(rbac, e, i + 1, best, m)
  {
    RecordIff(rbac, e, i, best, m);
    assert !IsBroken(rbac, e, i);
    assert m.matches > 0 && Candidate(e, rbac.bindings[i]) ==> !Beats(e, rbac.bindings[i], rbac.bindings[best]);
  }

  lemma BestUpdate(rbac: Rbac, e: Eval, i: nat, best: nat, m: MatchResult, updated: MatchResult)
    requires i < |rbac.bindings| && BestSoFar(rbac, e, i, best, m) && Improves(e, rbac.bindings[i], m)
    requires updated.matches == Matches(e, rbac.bindings[i].criteria)
    requires updated.numMatchCriteria == |rbac.bindings[i].criteria|
    requires Grant(rbac, rbac.bindings[i]) == Granted(updated.account, updated.collated, updated.maxExpiry)
    ensures BestSoFar(rbac, e, i + 1, i, updated)
  {
    RecordIff(rbac, e, i, best, m);
  }

  lemma BestBroken(rbac: Rbac, e: Eval, i: nat, best: nat, m: MatchResult, out: Outcome)
    requires i < |rbac.bindings| && BestSoFar(rbac, e, i, best, m) && Improves(e, rbac.bindings[i], m)
    requires out == Grant(rbac, rbac.bindings[i]) && out.Denied?
    ensures BestMatchOutcome(rbac, e, out)
  {
    RecordIff(rbac, e, i, best, m);
    assert IsBroken(rbac, e, i);
    FirstBrokenDecides(rbac, e, i, out);
  }

  lemma FirstBrokenDecides(rbac: Rbac, e: Eval, i: nat, out: Outcome)
    requires IsBroken(rbac, e, i) && forall j: nat | j < i :: !IsBroken(rbac, e, j)
    requires out == Grant(rbac, rbac.bindings[i])
    ensures BestMatchOutcome(rbac, e, out)
  {
    forall k: nat | IsBroken(rbac, e, k) && forall j | 0 <= j < k :: !IsBroken(rbac, e, j)
      ensures k == i
    {
    }
    assert !NoneBroken(rbac, e);
    assert rbac.bindings[i] in rbac.bindings && Candidate(e, rbac.bindings[i]);
  }

  lemma {:induction false} AllHoldIffAllMatch(e: Eval, criteria: seq<Match>)
    ensures Matches(e, criteria) <= |criteria|
    ensures Matches(e, criteria) == |criteria| <==> forall m | m in criteria :: Holds(e, m)
  {
    if criteria != [] {
      var init, last := criteria[..|criteria| - 1], criteria[|criteria| - 1];
      AllHoldIffAllMatch(e, init);
      assert criteria == init + [last];
    }
  }

  lemma StrictDecides(rbac: Rbac, e: Eval, i: nat, out: Outcome)
    requires FirstFullMatch(e, rbac.bindings, i) && out == Grant(rbac, rbac.bindings[i])
    ensures StrictOutcome(rbac, e, out)
  {
    assert rbac.bindings[i] in rbac.bindings;
  }

  lemma WinnerDecides(rbac: Rbac, e: Eval, i: nat, out: Outcome)
    requires NoneBroken(rbac, e) && IsWinner(e, rbac.bindings, i)
    requires out == Grant(rbac, rbac.bindings[i])
    ensures BestMatchOutcome(rbac, e, out)
  {
    forall k: nat | IsBroken(rbac, e, k)
      ensures false
    {
    }
    forall k: nat | IsWinner(e, rbac.bindings, k)
      ensures k == i
    {
      WinnerUnique(e, rbac.bindings, i, k);
    }
    assert rbac.bindings[i] in rbac.bindings && Candidate(e, rbac.bindings[i]);
  }

  lemma WinnerUnique(e: Eval, bs: seq<Binding>, i: nat, j: nat)
    requires IsWinner(e, bs, i) && IsWinner(e, bs, j)
    ensures i == j
  {
  }
}
