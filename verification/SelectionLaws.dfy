/** Which criteria hold and which binding they select, in terms of the claims alone (config_rbac.go). */
module SelectionLaws {
  import opened Values
  import opened MatchCriteria
  import opened RoleCollation
  import opened RoleCollationLaws
  import opened RoleBindings
  import opened RoleBindingLaws

  // ---- When a criterion holds -------------------------------------------------------------

  /** An expression decides alone: it has to compile and to come to true. */
  lemma ExpressionMeaning(engine: ExprEngine, context: Object, m: Match)
    requires m.expr != ""
    ensures Holds(Eval(engine, map[], context), m) <==>
      && engine.compile(m.expr, context).Some?
      && engine.run(engine.compile(m.expr, context).value, context) == Some(Bool(true))
  {
  }

  /** A permission is one of the strings listed under `permissions`, or the only one there. */
  lemma PermissionMeaning(e: Eval, m: Match)
    requires m.expr == "" && m.permission != ""
    ensures Holds(e, m) <==>
      && "permissions" in e.context
      && var v := e.context["permissions"];
         v == Str(m.permission) || (v.List? && exists i | 0 <= i < |v.items| :: v.items[i] == Str(m.permission))
  {
  }

  /** A claim holds as that very string, as one of a list, or as a key of a map of either kind. */
  lemma ClaimMeaning(e: Eval, m: Match)
    requires m.expr == "" && m.permission == ""
    ensures Holds(e, m) <==>
      && m.claim in e.context
      && var v := e.context[m.claim];
         || v == Str(m.value)
         || (v.List? && exists i | 0 <= i < |v.items| :: v.items[i] == Str(m.value))
         || (v.Map? && m.value in v.fields)
         || (v.StrMap? && m.value in v.entries)
  {
  }

  // ---- How bindings compare ---------------------------------------------------------------

  function Holding(e: Eval, criteria: seq<Match>): set<nat> {
    set k: nat | k < |criteria| && Holds(e, criteria[k])
  }

  /** The score of a binding is the number of its criteria that hold. */
  lemma {:induction false} ScoreIsCount(e: Eval, criteria: seq<Match>)
    ensures Matches(e, criteria) == |Holding(e, criteria)|
  {
    if criteria == [] {
      assert Holding(e, criteria) == {};
    } else {
      var n := |criteria| - 1;
      ScoreIsCount(e, criteria[..n]);
      HoldingSnoc(e, criteria, n, criteria[..n]);
    }
  }

  lemma HoldingMembers(e: Eval, criteria: seq<Match>, n: nat, init: seq<Match>)
    requires |criteria| == n + 1 && init == criteria[..n]
    ensures forall k: nat :: k in Holding(e, criteria) <==> k in Holding(e, init) || (k == n && Holds(e, criteria[n]))
    ensures n !in Holding(e, init)
  {
    forall k: nat
      ensures k in Holding(e, criteria) <==> k in Holding(e, init) || (k == n && Holds(e, criteria[n]))
    {
      if k < n {
        assert criteria[k] == init[k];
      }
    }
  }

  lemma HoldingSnoc(e: Eval, criteria: seq<Match>, n: nat, init: seq<Match>)
    requires |criteria| == n + 1 && init == criteria[..n]
    ensures |Holding(e, criteria)| == |Holding(e, init)| + if Holds(e, criteria[n]) then 1 else 0
  {
    var a, b := Holding(e, init), Holding(e, criteria);
    HoldingMembers(e, criteria, n, init);
    if Holds(e, criteria[n]) {
      assert b == a + {n} && n !in a;
    } else {
      assert b == a;
    }
  }

  function Score(e: Eval, b: Binding): nat { |Holding(e, b.criteria)| }

  /** More criteria hold, or as many of a longer list. */
  predicate Above(e: Eval, b: Binding, c: Binding) {
    Score(e, b) > Score(e, c) || (Score(e, b) == Score(e, c) && |b.criteria| > |c.criteria|)
  }

  /** A record stands above every earlier binding of which anything holds. */
  lemma RecordMeaning(e: Eval, bs: seq<Binding>, i: nat)
    ensures IsRecord(e, bs, i) <==>
      && i < |bs| && Score(e, bs[i]) > 0
      && forall j | 0 <= j < i && Score(e, bs[j]) > 0 :: Above(e, bs[i], bs[j])
  {
    forall b: Binding
      ensures Matches(e, b.criteria) == Score(e, b)
    {
      ScoreIsCount(e, b.criteria);
    }
  }

  /**
   * The winner has the most criteria that hold; on a tie the most criteria; on a further tie it
   * comes first.
   */
  lemma WinnerMeaning(e: Eval, bs: seq<Binding>, i: nat)
    ensures IsWinner(e, bs, i) <==>
      && i < |bs| && Score(e, bs[i]) > 0
      && forall j | 0 <= j < |bs| ::
           || Score(e, bs[i]) > Score(e, bs[j])
           || (Score(e, bs[i]) == Score(e, bs[j])
               && (|bs[i].criteria| > |bs[j].criteria| || (|bs[i].criteria| == |bs[j].criteria| && i <= j)))
  {
    forall b: Binding
      ensures Matches(e, b.criteria) == Score(e, b)
    {
      ScoreIsCount(e, b.criteria);
    }
  }

  /** With one criterion holding of each, the binding that lists two is preferred to the earlier one. */
  lemma LongerBindingWins(e: Eval, a: Match, b: Match, x: Binding, y: Binding)
    requires Holds(e, a) && !Holds(e, b) && x.criteria == [a] && y.criteria == [a, b]
    ensures IsWinner(e, [x, y], 1)
  {
    assert Holding(e, [a]) == {0} && Holding(e, [a, b]) == {0};
    WinnerMeaning(e, [x, y], 1);
  }

  // ---- The binding that decides -----------------------------------------------------------

  /**
   * Binding `i` is the one that the claims select: strict mode takes the first that matches in
   * full, best match the winner; the first fallback stands in when no binding qualifies.
   */
  ghost predicate SelectedAt(rbac: Rbac, e: Eval, i: nat) {
    var bs := rbac.bindings;
    if rbac.strategy == STRATEGY_STRICT then
      FirstFullMatch(e, bs, i) || (FirstFallback(bs, i) && forall b | b in bs :: !FullMatch(e, b))
    else
      IsWinner(e, bs, i) || (FirstFallback(bs, i) && forall b | b in bs :: !Candidate(e, b))
  }

  lemma SelectionUnique(rbac: Rbac, e: Eval, i: nat, j: nat)
    requires SelectedAt(rbac, e, i) && SelectedAt(rbac, e, j)
    ensures i == j
  {
    assert rbac.bindings[i] in rbac.bindings && rbac.bindings[j] in rbac.bindings;
  }

  /** What the lookup grants is what the selected binding grants. */
  lemma GrantHasBinding(rbac: Rbac, e: Eval, out: Outcome)
    requires out.Granted?
    ensures LookupOutcome(rbac, e, out) <==>
      && (exists i: nat :: SelectedAt(rbac, e, i) && out == Grant(rbac, rbac.bindings[i]))
      && (rbac.strategy != STRATEGY_STRICT ==> NoneBroken(rbac, e))
  {
    if LookupOutcome(rbac, e, out) {
      var i := GrantedSelection(rbac, e, out);
    }
    if (exists i: nat :: SelectedAt(rbac, e, i) && out == Grant(rbac, rbac.bindings[i]))
      && (rbac.strategy != STRATEGY_STRICT ==> NoneBroken(rbac, e))
    {
      var i: nat :| SelectedAt(rbac, e, i) && out == Grant(rbac, rbac.bindings[i]);
      SelectionIsOutcome(rbac, e, i);
    }
  }

  lemma GrantedSelection(rbac: Rbac, e: Eval, out: Outcome) returns (i: nat)
    requires LookupOutcome(rbac, e, out) && out.Granted?
    ensures SelectedAt(rbac, e, i) && out == Grant(rbac, rbac.bindings[i])
    ensures rbac.strategy != STRATEGY_STRICT ==> NoneBroken(rbac, e)
  {
    var bs := rbac.bindings;
    if rbac.strategy == STRATEGY_STRICT {
      if f :| f in bs && FullMatch(e, f) {
        var n :| 0 <= n < |bs| && bs[n] == f;
        i := LeastFullMatch(e, bs, n);
      } else {
        i := GrantedFallback(rbac, NoStrictMatch, out);
      }
    } else {
      if n: nat :| n < |bs| && IsBroken(rbac, e, n) {
        var b := LeastBroken(rbac, e, n);
      }
      if c :| c in bs && Candidate(e, c) {
        WinnerExists(e, bs);
        i :| IsWinner(e, bs, i);
      } else {
        i := GrantedFallback(rbac, NoBestMatch, out);
      }
    }
  }

  lemma GrantedFallback(rbac: Rbac, none: LookupError, out: Outcome) returns (i: nat)
    requires FallbackOutcome(rbac, none, out) && out.Granted?
    ensures FirstFallback(rbac.bindings, i) && out == Grant(rbac, rbac.bindings[i])
  {
    var f :| f in rbac.bindings && IsFallback(f);
    var n :| 0 <= n < |rbac.bindings| && rbac.bindings[n] == f;
    i := LeastFallback(rbac.bindings, n);
  }

  lemma SelectionIsOutcome(rbac: Rbac, e: Eval, i: nat)
    requires SelectedAt(rbac, e, i) && (rbac.strategy != STRATEGY_STRICT ==> NoneBroken(rbac, e))
    ensures LookupOutcome(rbac, e, Grant(rbac, rbac.bindings[i]))
  {
    var bs := rbac.bindings;
    assert bs[i] in bs;
    if rbac.strategy == STRATEGY_STRICT {
      if FirstFullMatch(e, bs, i) {
        StrictDecides(rbac, e, i, Grant(rbac, bs[i]));
      } else {
        NoFullMatchFallsBack(rbac, e, i);
      }
    } else if IsWinner(e, bs, i) {
      WinnerDecides(rbac, e, i, Grant(rbac, bs[i]));
    } else {
      NoCandidateFallsBack(rbac, e, i);
    }
  }

  lemma NoFullMatchFallsBack(rbac: Rbac, e: Eval, i: nat)
    requires FirstFallback(rbac.bindings, i) && forall b | b in rbac.bindings :: !FullMatch(e, b)
    ensures StrictOutcome(rbac, e, Grant(rbac, rbac.bindings[i]))
  {
    assert rbac.bindings[i] in rbac.bindings;
    assert forall j: nat | FirstFallback(rbac.bindings, j) :: j == i;
    assert forall j: nat | j < |rbac.bindings| :: rbac.bindings[j] in rbac.bindings;
  }

  lemma NoCandidateFallsBack(rbac: Rbac, e: Eval, i: nat)
    requires FirstFallback(rbac.bindings, i) && forall b | b in rbac.bindings :: !Candidate(e, b)
    ensures BestMatchOutcome(rbac, e, Grant(rbac, rbac.bindings[i]))
  {
    assert rbac.bindings[i] in rbac.bindings;
    assert forall j: nat | FirstFallback(rbac.bindings, j) :: j == i;
    assert forall j: nat | j < |rbac.bindings| :: rbac.bindings[j] in rbac.bindings;
  }

  /** Strict mode asks for every criterion of at least one, best match for any of them. */
  predicate Qualifying(rbac: Rbac, e: Eval, b: Binding) {
    if rbac.strategy == "strict" then b.criteria != [] && Score(e, b) == |b.criteria| else Score(e, b) > 0
  }

  /** Strict mode goes by position alone, best match by score, then by length, then by position. */
  predicate Precedes(rbac: Rbac, e: Eval, i: nat, j: nat)
    requires i < |rbac.bindings| && j < |rbac.bindings|
  {
    var b, c := rbac.bindings[i], rbac.bindings[j];
    if rbac.strategy == "strict" then i <= j
    else
      || Score(e, b) > Score(e, c)
      || (Score(e, b) == Score(e, c)
          && (|b.criteria| > |c.criteria| || (|b.criteria| == |c.criteria| && i <= j)))
  }

  lemma ScoresMean(e: Eval, b: Binding)
    ensures Candidate(e, b) <==> Score(e, b) > 0
    ensures FullMatch(e, b) <==> b.criteria != [] && Score(e, b) == |b.criteria|
    ensures IsFallback(b) ==> Score(e, b) == 0
  {
    ScoreIsCount(e, b.criteria);
    AllHoldIffAllMatch(e, b.criteria);
  }

  ghost predicate SomeQualifies(rbac: Rbac, e: Eval) {
    exists j: nat :: j < |rbac.bindings| && Qualifying(rbac, e, rbac.bindings[j])
  }

  /** Binding `i` qualifies and precedes every other that does. */
  ghost predicate FirstQualifying(rbac: Rbac, e: Eval, i: nat) {
    && i < |rbac.bindings| && Qualifying(rbac, e, rbac.bindings[i])
    && forall j: nat | j < |rbac.bindings| && Qualifying(rbac, e, rbac.bindings[j]) :: Precedes(rbac, e, i, j)
  }

  /** The first binding that has no criteria at all. */
  ghost predicate FirstWithout(rbac: Rbac, i: nat) {
    && i < |rbac.bindings| && rbac.bindings[i].criteria == []
    && forall j: nat | j < i :: rbac.bindings[j].criteria != []
  }

  /** What is selected is the first of those that qualify or, if none does, the first without criteria. */
  lemma SelectedMeaning(rbac: Rbac, e: Eval, i: nat)
    ensures SelectedAt(rbac, e, i) <==>
      if SomeQualifies(rbac, e) then FirstQualifying(rbac, e, i) else FirstWithout(rbac, i)
  {
    forall b: Binding
      ensures Candidate(e, b) <==> Score(e, b) > 0
      ensures FullMatch(e, b) <==> b.criteria != [] && Score(e, b) == |b.criteria|
    {
      ScoresMean(e, b);
    }
    QualifiersAre(rbac, e);
    if rbac.strategy == "strict" {
      StrictFirst(rbac, e, i);
    } else {
      WinnerMeaning(e, rbac.bindings, i);
      BestFirst(rbac, e, i);
    }
  }

  lemma QualifiersAre(rbac: Rbac, e: Eval)
    ensures SomeQualifies(rbac, e) <==> exists b :: b in rbac.bindings && Qualifying(rbac, e, b)
  {
    if b :| b in rbac.bindings && Qualifying(rbac, e, b) {
      var j: nat :| j < |rbac.bindings| && rbac.bindings[j] == b;
      assert Qualifying(rbac, e, rbac.bindings[j]);
    }
  }

  lemma StrictFirst(rbac: Rbac, e: Eval, i: nat)
    requires rbac.strategy == "strict"
    ensures FirstFullMatch(e, rbac.bindings, i) <==> FirstQualifying(rbac, e, i)
  {
    forall b: Binding
      ensures FullMatch(e, b) <==> b.criteria != [] && Score(e, b) == |b.criteria|
    {
      ScoresMean(e, b);
    }
  }

  lemma BestFirst(rbac: Rbac, e: Eval, i: nat)
    requires rbac.strategy != "strict"
    ensures IsWinner(e, rbac.bindings, i) <==> FirstQualifying(rbac, e, i)
  {
    WinnerMeaning(e, rbac.bindings, i);
  }

  /** Best match stops at binding `i`: the first record of which some role is not configured. */
  ghost predicate StopsAt(rbac: Rbac, e: Eval, i: nat) {
    IsBroken(rbac, e, i) && forall j: nat | j < i :: !IsBroken(rbac, e, j)
  }

  /** A record, as `RecordMeaning` has it, that names a role which is not configured. */
  lemma BrokenMeaning(rbac: Rbac, e: Eval, i: nat)
    ensures IsBroken(rbac, e, i) <==>
      && IsRecord(e, rbac.bindings, i)
      && exists n :: n in rbac.bindings[i].roles && forall r | r in rbac.roles :: r.name != n
  {
    forall n
      ensures Find(rbac.roles, n).None? <==> forall r | r in rbac.roles :: r.name != n
    {
      FindIsFirst(rbac.roles, n);
    }
  }

  /** Binding `i` decides the lookup, by what it grants or by the role that it lacks. */
  ghost predicate DecidedBy(rbac: Rbac, e: Eval, i: nat) {
    if rbac.strategy == "strict" || NoneBroken(rbac, e) then SelectedAt(rbac, e, i) else StopsAt(rbac, e, i)
  }

  function NoneSelected(rbac: Rbac): LookupError {
    if rbac.strategy == "strict" then NoStrictMatch else NoBestMatch
  }

  /** What comes of binding `b` once it decides: its account, its roles' summary and its own expiry. */
  function Decision(rbac: Rbac, b: Binding): Outcome {
    match Collate(rbac.roles, b.roles)
    case Err(name) => Denied(UnknownRole(name))
    case Ok(collated) => Granted(b.account, collated, b.tokenMaxExpiry)
  }

  /** The lookup comes to what the deciding binding decides, or to the strategy's own denial. */
  lemma DecidedOutcome(rbac: Rbac, e: Eval, out: Outcome)
    ensures forall i: nat | DecidedBy(rbac, e, i) ::
      i < |rbac.bindings| && (LookupOutcome(rbac, e, out) <==> out == Decision(rbac, rbac.bindings[i]))
    ensures (forall i: nat :: !DecidedBy(rbac, e, i)) ==>
      (LookupOutcome(rbac, e, out) <==> out == Denied(NoneSelected(rbac)))
  {
    forall i: nat | DecidedBy(rbac, e, i)
      ensures i < |rbac.bindings| && (LookupOutcome(rbac, e, out) <==> out == Decision(rbac, rbac.bindings[i]))
    {
      DeciderDecides(rbac, e, i);
      OutcomeDetermined(rbac, e, out, Decision(rbac, rbac.bindings[i]));
    }
    if forall i: nat :: !DecidedBy(rbac, e, i) {
      NoDeciderDenies(rbac, e);
      OutcomeDetermined(rbac, e, out, Denied(NoneSelected(rbac)));
    }
  }

  lemma DeciderDecides(rbac: Rbac, e: Eval, i: nat)
    requires DecidedBy(rbac, e, i)
    ensures i < |rbac.bindings| && LookupOutcome(rbac, e, Decision(rbac, rbac.bindings[i]))
  {
    if rbac.strategy == "strict" || NoneBroken(rbac, e) {
      SelectionIsOutcome(rbac, e, i);
    } else {
      FirstBrokenDecides(rbac, e, i, Grant(rbac, rbac.bindings[i]));
    }
  }

  lemma BrokenDecides(rbac: Rbac, e: Eval, n: nat) returns (i: nat)
    requires rbac.strategy != "strict" && IsBroken(rbac, e, n)
    ensures DecidedBy(rbac, e, i)
  {
    i := LeastBroken(rbac, e, n);
  }

  lemma NoDeciderDenies(rbac: Rbac, e: Eval)
    requires forall i: nat :: !DecidedBy(rbac, e, i)
    ensures LookupOutcome(rbac, e, Denied(NoneSelected(rbac)))
  {
    var bs := rbac.bindings;
    if n: nat :| rbac.strategy != "strict" && n < |bs| && IsBroken(rbac, e, n) {
      var i := BrokenDecides(rbac, e, n);
    } else {
      forall i: nat
        ensures !SelectedAt(rbac, e, i)
      {
        assert !DecidedBy(rbac, e, i);
      }
      NoneQualifies(rbac, e);
    }
  }

  lemma NoneQualifies(rbac: Rbac, e: Eval)
    requires forall i: nat :: !SelectedAt(rbac, e, i)
    ensures forall b | b in rbac.bindings :: !IsFallback(b)
    ensures rbac.strategy == "strict" ==> forall b | b in rbac.bindings :: !FullMatch(e, b)
    ensures rbac.strategy != "strict" ==> forall b | b in rbac.bindings :: !Candidate(e, b)
  {
    var bs := rbac.bindings;
    if rbac.strategy == "strict" {
      if f :| f in bs && FullMatch(e, f) {
        var n :| 0 <= n < |bs| && bs[n] == f;
        var i := LeastFullMatch(e, bs, n);
        assert SelectedAt(rbac, e, i);
      }
    } else if c :| c in bs && Candidate(e, c) {
      WinnerExists(e, bs);
      var i: nat :| IsWinner(e, bs, i);
      assert SelectedAt(rbac, e, i);
    }
    if f :| f in bs && IsFallback(f) {
      var n :| 0 <= n < |bs| && bs[n] == f;
      var i := LeastFallback(bs, n);
      assert SelectedAt(rbac, e, i);
    }
  }
}
