/** What the selection of a role binding does not depend on, and how the strategies compare. */
module RoleBindingLaws {
  import opened Values
  import opened MatchCriteria
  import opened RoleCollation
  import opened RoleBindings

  lemma {:induction false} WinnerExists(e: Eval, bs: seq<Binding>)
    requires exists b :: b in bs && Candidate(e, b)
    ensures exists i: nat :: IsWinner(e, bs, i)
  {
    var n := |bs| - 1;
    var init, last := bs[..n], bs[n];
    assert bs == init + [last];
    if exists b :: b in init && Candidate(e, b) {
      WinnerExists(e, init);
      var w: nat :| IsWinner(e, init, w);
      if Candidate(e, last) && Beats(e, last, bs[w]) {
        assert IsWinner(e, bs, n);
      } else {
        assert IsWinner(e, bs, w);
      }
    } else {
      assert IsWinner(e, bs, n);
    }
  }

  /** The winner matched at least as much as any other candidate, and is the only winner. */
  lemma WinnerIsMaximal(e: Eval, bs: seq<Binding>, i: nat, j: nat)
    requires IsWinner(e, bs, i) && j < |bs|
    ensures Candidate(e, bs[j]) ==> !Beats(e, bs[j], bs[i])
    ensures IsWinner(e, bs, j) ==> i == j
  {
  }

  lemma {:induction false} LeastBroken(rbac: Rbac, e: Eval, n: nat) returns (i: nat)
    requires IsBroken(rbac, e, n)
    ensures i <= n && IsBroken(rbac, e, i) && forall j | 0 <= j < i :: !IsBroken(rbac, e, j)
    decreases n
  {
    if j: nat :| j < n && IsBroken(rbac, e, j) {
      i := LeastBroken(rbac, e, j);
    } else {
      i := n;
    }
  }

  lemma {:induction false} LeastFallback(bs: seq<Binding>, n: nat) returns (i: nat)
    requires n < |bs| && IsFallback(bs[n])
    ensures FirstFallback(bs, i)
    decreases n
  {
    if j: nat :| j < n && IsFallback(bs[j]) {
      i := LeastFallback(bs, j);
    } else {
      i := n;
    }
  }

  lemma {:induction false} LeastFullMatch(e: Eval, bs: seq<Binding>, n: nat) returns (i: nat)
    requires n < |bs| && FullMatch(e, bs[n])
    ensures FirstFullMatch(e, bs, i)
    decreases n
  {
    if j: nat :| j < n && FullMatch(e, bs[j]) {
      i := LeastFullMatch(e, bs, j);
    } else {
      i := n;
    }
  }

  lemma FallbackDetermined(rbac: Rbac, none: LookupError, a: Outcome, b: Outcome)
    requires FallbackOutcome(rbac, none, a) && FallbackOutcome(rbac, none, b)
    ensures a == b
  {
    if f :| f in rbac.bindings && IsFallback(f) {
      var n :| 0 <= n < |rbac.bindings| && rbac.bindings[n] == f;
      var i := LeastFallback(rbac.bindings, n);
    }
  }

  /** The description leaves no freedom: configuration, cache and claims fix the outcome. */
  lemma OutcomeDetermined(rbac: Rbac, e: Eval, a: Outcome, b: Outcome)
    ensures LookupOutcome(rbac, e, a) && LookupOutcome(rbac, e, b) ==> a == b
  {
    var bs := rbac.bindings;
    if !LookupOutcome(rbac, e, a) || !LookupOutcome(rbac, e, b) {
    } else if rbac.strategy == STRATEGY_STRICT {
      if f :| f in bs && FullMatch(e, f) {
        var n :| 0 <= n < |bs| && bs[n] == f;
        var i := LeastFullMatch(e, bs, n);
      } else {
        FallbackDetermined(rbac, NoStrictMatch, a, b);
      }
    } else if n: nat :| n < |bs| && IsBroken(rbac, e, n) {
      var i := LeastBroken(rbac, e, n);
    } else if c :| c in bs && Candidate(e, c) {
      WinnerExists(e, bs);
    } else {
      FallbackDetermined(rbac, NoBestMatch, a, b);
    }
  }

  /**
   * Best match selects the documented winner exactly when no record on the way to it names
   * an unknown role; otherwise the lookup is denied although the winner is sound.
   */
  lemma WinnerGrantedIff(rbac: Rbac, e: Eval, out: Outcome, w: nat)
    requires w < |rbac.bindings| && rbac.strategy != STRATEGY_STRICT
    ensures LookupOutcome(rbac, e, out) && IsWinner(e, rbac.bindings, w) ==>
      && (out.Granted? <==> NoneBroken(rbac, e))
      && (NoneBroken(rbac, e) ==> out == Grant(rbac, rbac.bindings[w]))
  {
    if !LookupOutcome(rbac, e, out) || !IsWinner(e, rbac.bindings, w) {
    } else if n: nat :| n < |rbac.bindings| && IsBroken(rbac, e, n) {
      var i := LeastBroken(rbac, e, n);
      assert out == Grant(rbac, rbac.bindings[i]);
    } else {
      assert !IsBroken(rbac, e, w);
    }
  }

  /** A binding that loses can still deny the request of the binding that wins. */
  lemma LosingBindingDenies(e: Eval, out: Outcome)
    requires e.context == map["a" := Str("1"), "b" := Str("2")]
    requires LookupOutcome(LosingExample(), e, out)
    ensures IsWinner(e, LosingExample().bindings, 1) && Known(LosingExample().roles, LosingExample().bindings[1].roles)
    ensures out == Denied(UnknownRole("ghost"))
  {
    var rbac := LosingExample();
    var bs := rbac.bindings;
    var a, b := Match("a", "1", "", ""), Match("b", "2", "", "");
    assert Holds(e, a) && Holds(e, b);
    assert [a, b][..1] == [a];
    assert Matches(e, []) == 0;
    assert [a][..0] == [];
    assert Matches(e, [a]) == 1 && Matches(e, [a, b]) == 2;
    assert bs[0].criteria == [a] && bs[1].criteria == [a, b];
    assert "ghost" in bs[0].roles && Find(rbac.roles, "ghost").None?;
    assert IsBroken(rbac, e, 0);
  }

  function LosingExample(): Rbac {
    var a, b := Match("a", "1", "", ""), Match("b", "2", "", "");
    Rbac([Binding("FIRST", ["ghost"], 0, [a]), Binding("SECOND", [], 0, [a, b])], [], "best_match")
  }

  /** However the bindings are ordered, the winner scores the same. */
  lemma OrderKeepsWinningScore(e: Eval, bs: seq<Binding>, cs: seq<Binding>, i: nat)
    requires multiset(bs) == multiset(cs) && IsWinner(e, bs, i)
    ensures exists j: nat :: IsWinner(e, cs, j)
    ensures forall j: nat | IsWinner(e, cs, j) ::
              && Matches(e, cs[j].criteria) == Matches(e, bs[i].criteria)
              && |cs[j].criteria| == |bs[i].criteria|
  {
    assert bs[i] in multiset(bs);
    assert bs[i] in cs;
    WinnerExists(e, cs);
    forall j: nat | IsWinner(e, cs, j)
      ensures Matches(e, cs[j].criteria) == Matches(e, bs[i].criteria) && |cs[j].criteria| == |bs[i].criteria|
    {
      assert cs[j] in multiset(cs);
      assert cs[j] in bs;
      var k :| 0 <= k < |bs| && bs[k] == cs[j];
      var l :| 0 <= l < |cs| && cs[l] == bs[i];
      WinnerIsMaximal(e, bs, i, k);
      WinnerIsMaximal(e, cs, j, l);
    }
  }

  /** Bindings that match nothing, fallbacks included, can be inserted anywhere. */
  lemma InsertionKeepsWinner(e: Eval, xs: seq<Binding>, ys: seq<Binding>, b: Binding, i: nat)
    requires !Candidate(e, b) && IsWinner(e, xs + ys, i)
    ensures IsWinner(e, xs + [b] + ys, if i < |xs| then i else i + 1)
  {
    var before, after := xs + ys, xs + [b] + ys;
    var w := if i < |xs| then i else i + 1;
    assert after[w] == before[i];
    forall j | 0 <= j < |after| && j != |xs|
      ensures after[j] == before[if j < |xs| then j else j - 1]
    {
    }
    assert after[|xs|] == b;
  }

  /** Where binding `i` stands once another has been inserted at `n`, and where `j` stood before. */
  function Moved(n: nat, i: nat): nat { if i < n then i else i + 1 }

  function Back(n: nat, j: nat): nat
    requires j != n
  {
    if j < n then j else j - 1
  }

  /** `after` is `before` with `b` inserted at `n`. */
  predicate InsertedAt(before: seq<Binding>, n: nat, b: Binding, after: seq<Binding>) {
    && n <= |before| && |after| == |before| + 1 && after[n] == b
    && (forall i: nat | i < |before| :: before[i] == after[Moved(n, i)])
    && (forall j: nat | j < |after| && j != n :: after[j] == before[Back(n, j)])
  }

  lemma InsertionIsInsertion(xs: seq<Binding>, b: Binding, ys: seq<Binding>)
    ensures InsertedAt(xs + ys, |xs|, b, xs + [b] + ys)
  {
  }

  lemma InsertionKeepsFullMatch(
    e: Eval, before: seq<Binding>, n: nat, b: Binding, after: seq<Binding>, i: nat)
    requires InsertedAt(before, n, b, after) && !FullMatch(e, b) && FirstFullMatch(e, before, i)
    ensures FirstFullMatch(e, after, Moved(n, i))
  {
  }

  lemma InsertionKeepsRecord(e: Eval, before: seq<Binding>, n: nat, b: Binding, after: seq<Binding>, i: nat)
    requires InsertedAt(before, n, b, after) && !Candidate(e, b) && i < |before|
    ensures IsRecord(e, after, Moved(n, i)) <==> IsRecord(e, before, i)
  {
    if IsRecord(e, after, Moved(n, i)) {
      forall j: nat | j < i && Candidate(e, before[j])
        ensures Beats(e, before[i], before[j])
      {
        assert before[j] == after[Moved(n, j)];
      }
    }
  }

  lemma InsertionKeepsBroken(
    rbac: Rbac, after: Rbac, e: Eval, n: nat, b: Binding, i: nat)
    requires InsertedAt(rbac.bindings, n, b, after.bindings) && after.roles == rbac.roles && !Candidate(e, b)
    requires i < |rbac.bindings|
    ensures IsBroken(after, e, Moved(n, i)) <==> IsBroken(rbac, e, i)
  {
    InsertionKeepsRecord(e, rbac.bindings, n, b, after.bindings, i);
  }

  lemma BrokenComesBack(rbac: Rbac, after: Rbac, e: Eval, n: nat, b: Binding, j: nat)
    requires InsertedAt(rbac.bindings, n, b, after.bindings) && after.roles == rbac.roles && !Candidate(e, b)
    requires IsBroken(after, e, j)
    ensures j != n && IsBroken(rbac, e, Back(n, j))
  {
    InsertionKeepsBroken(rbac, after, e, n, b, Back(n, j));
  }

  lemma SameBroken(rbac: Rbac, after: Rbac, e: Eval, n: nat, b: Binding, i: nat) returns (out: Outcome)
    requires InsertedAt(rbac.bindings, n, b, after.bindings) && after.roles == rbac.roles && !Candidate(e, b)
    requires IsBroken(rbac, e, i) && forall j: nat | j < i :: !IsBroken(rbac, e, j)
    ensures BestMatchOutcome(rbac, e, out) && BestMatchOutcome(after, e, out)
  {
    out := Grant(rbac, rbac.bindings[i]);
    FirstBrokenDecides(rbac, e, i, out);
    InsertionKeepsBroken(rbac, after, e, n, b, i);
    forall j: nat | j < Moved(n, i)
      ensures !IsBroken(after, e, j)
    {
      if IsBroken(after, e, j) {
        BrokenComesBack(rbac, after, e, n, b, j);
      }
    }
    FirstBrokenDecides(after, e, Moved(n, i), out);
  }

  lemma SameWinner(rbac: Rbac, after: Rbac, e: Eval, n: nat, b: Binding, w: nat) returns (out: Outcome)
    requires InsertedAt(rbac.bindings, n, b, after.bindings) && after.roles == rbac.roles && !Candidate(e, b)
    requires NoneBroken(rbac, e) && IsWinner(e, rbac.bindings, w) && IsWinner(e, after.bindings, Moved(n, w))
    ensures BestMatchOutcome(rbac, e, out) && BestMatchOutcome(after, e, out)
  {
    out := Grant(rbac, rbac.bindings[w]);
    WinnerDecides(rbac, e, w, out);
    forall j: nat | j < |after.bindings|
      ensures !IsBroken(after, e, j)
    {
      if IsBroken(after, e, j) {
        BrokenComesBack(rbac, after, e, n, b, j);
      }
    }
    WinnerDecides(after, e, Moved(n, w), out);
  }

  /** The configuration with `b` inserted. */
  function Inserted(rbac: Rbac, xs: seq<Binding>, b: Binding, ys: seq<Binding>): Rbac {
    rbac.(bindings := xs + [b] + ys)
  }

  /** An outcome of both, when some binding is a candidate. */
  lemma SameBestMatch(rbac: Rbac, e: Eval, xs: seq<Binding>, b: Binding, ys: seq<Binding>) returns (out: Outcome)
    requires rbac.bindings == xs + ys && !Candidate(e, b)
    requires exists c :: c in rbac.bindings && Candidate(e, c)
    ensures BestMatchOutcome(rbac, e, out) && BestMatchOutcome(Inserted(rbac, xs, b, ys), e, out)
  {
    InsertionIsInsertion(xs, b, ys);
    if n: nat :| n < |rbac.bindings| && IsBroken(rbac, e, n) {
      var i := LeastBroken(rbac, e, n);
      out := SameBroken(rbac, Inserted(rbac, xs, b, ys), e, |xs|, b, i);
    } else {
      WinnerExists(e, rbac.bindings);
      var w: nat :| IsWinner(e, rbac.bindings, w);
      InsertionKeepsWinner(e, xs, ys, b, w);
      out := SameWinner(rbac, Inserted(rbac, xs, b, ys), e, |xs|, b, w);
    }
  }

  /** An outcome of both, when some binding matches in full. */
  lemma SameFullMatch(rbac: Rbac, e: Eval, xs: seq<Binding>, b: Binding, ys: seq<Binding>, n: nat)
    returns (out: Outcome)
    requires rbac.bindings == xs + ys && !FullMatch(e, b)
    requires n < |rbac.bindings| && FullMatch(e, rbac.bindings[n])
    ensures StrictOutcome(rbac, e, out) && StrictOutcome(Inserted(rbac, xs, b, ys), e, out)
  {
    InsertionIsInsertion(xs, b, ys);
    var i := LeastFullMatch(e, rbac.bindings, n);
    out := Grant(rbac, rbac.bindings[i]);
    StrictDecides(rbac, e, i, out);
    InsertionKeepsFullMatch(e, rbac.bindings, |xs|, b, xs + [b] + ys, i);
    StrictDecides(Inserted(rbac, xs, b, ys), e, Moved(|xs|, i), out);
  }

  /** A binding that qualifies: it matches in full, or for best match at all. */
  predicate Qualifies(rbac: Rbac, e: Eval, b: Binding) {
    if rbac.strategy == STRATEGY_STRICT then FullMatch(e, b) else Candidate(e, b)
  }

  /**
   * As long as some binding qualifies, one that does not can be inserted anywhere: the lookup has
   * the outcome that it had, under either strategy, whatever roles the new binding names.
   */
  lemma InsertionKeepsOutcome(rbac: Rbac, e: Eval, xs: seq<Binding>, b: Binding, ys: seq<Binding>, out: Outcome)
    requires rbac.bindings == xs + ys && !Qualifies(rbac, e, b)
    requires exists c :: c in rbac.bindings && Qualifies(rbac, e, c)
    ensures LookupOutcome(Inserted(rbac, xs, b, ys), e, out) <==> LookupOutcome(rbac, e, out)
  {
    var after := Inserted(rbac, xs, b, ys);
    var c :| c in rbac.bindings && Qualifies(rbac, e, c);
    var same: Outcome;
    if rbac.strategy == STRATEGY_STRICT {
      var n :| 0 <= n < |rbac.bindings| && rbac.bindings[n] == c;
      same := SameFullMatch(rbac, e, xs, b, ys, n);
    } else {
      same := SameBestMatch(rbac, e, xs, b, ys);
    }
    OutcomeDetermined(rbac, e, out, same);
    OutcomeDetermined(after, e, out, same);
  }

  /** On the same claims, best match finds at least as many criteria as strict mode. */
  lemma BestMatchesNoLessThanStrict(e: Eval, bs: seq<Binding>, s: nat)
    requires FirstFullMatch(e, bs, s)
    ensures exists w: nat :: IsWinner(e, bs, w)
    ensures forall w: nat | IsWinner(e, bs, w) :: Matches(e, bs[w].criteria) >= |bs[s].criteria|
  {
    AllHoldIffAllMatch(e, bs[s].criteria);
    assert bs[s] in bs && Candidate(e, bs[s]);
    WinnerExists(e, bs);
  }

  // ---- The cache of compiled expressions ------------------------------------------------

  /** Every expression among the criteria is coherent. */
  ghost predicate CoherentIn(engine: ExprEngine, criteria: seq<Match>) {
    forall m | m in criteria && m.expr != "" :: CoherentAt(engine, m.expr)
  }

  ghost predicate CoherentFor(engine: ExprEngine, rbac: Rbac) {
    forall b | b in rbac.bindings :: CoherentIn(engine, b.criteria)
  }

  lemma {:induction false} MatchesIgnoreCache(e: Eval, criteria: seq<Match>)
    requires CoherentIn(e.engine, criteria) && Sound(e.engine, e.programs)
    ensures Matches(e, criteria) == Matches(e.(programs := map[]), criteria)
  {
    if criteria != [] {
      MatchesIgnoreCache(e, criteria[..|criteria| - 1]);
      CoherentCacheIsInvisible(e, criteria[|criteria| - 1]);
    }
  }

  lemma BindingIgnoresCache(e: Eval, b: Binding)
    requires CoherentIn(e.engine, b.criteria) && Sound(e.engine, e.programs)
    ensures var f := e.(programs := map[]);
      Matches(e, b.criteria) == Matches(f, b.criteria) && FullMatch(e, b) == FullMatch(f, b)
  {
    MatchesIgnoreCache(e, b.criteria);
    forall m | m in b.criteria
      ensures Holds(e, m) == Holds(e.(programs := map[]), m)
    {
      CoherentCacheIsInvisible(e, m);
    }
  }

  lemma PicksIgnoreCache(rbac: Rbac, e: Eval, i: nat)
    requires CoherentFor(e.engine, rbac) && Sound(e.engine, e.programs)
    ensures var f, bs := e.(programs := map[]), rbac.bindings;
      && (IsRecord(e, bs, i) <==> IsRecord(f, bs, i))
      && (IsWinner(e, bs, i) <==> IsWinner(f, bs, i))
      && (FirstFullMatch(e, bs, i) <==> FirstFullMatch(f, bs, i))
  {
    forall b | b in rbac.bindings
      ensures var f := e.(programs := map[]);
        Matches(e, b.criteria) == Matches(f, b.criteria) && FullMatch(e, b) == FullMatch(f, b)
    {
      BindingIgnoresCache(e, b);
    }
  }

  /**
   * When the configured expressions are coherent, a lookup gives the same account, roles and
   * expiry whatever earlier lookups left in the cache.
   */
  lemma LookupIgnoresCache(rbac: Rbac, e: Eval, out: Outcome)
    requires CoherentFor(e.engine, rbac) && Sound(e.engine, e.programs)
    ensures LookupOutcome(rbac, e, out) <==> LookupOutcome(rbac, e.(programs := map[]), out)
  {
    var f, bs := e.(programs := map[]), rbac.bindings;
    forall i: nat
      ensures IsRecord(e, bs, i) == IsRecord(f, bs, i) && IsWinner(e, bs, i) == IsWinner(f, bs, i)
      ensures FirstFullMatch(e, bs, i) == FirstFullMatch(f, bs, i)
    {
      PicksIgnoreCache(rbac, e, i);
    }
    forall b | b in bs
      ensures Candidate(e, b) == Candidate(f, b) && FullMatch(e, b) == FullMatch(f, b)
    {
      BindingIgnoresCache(e, b);
    }
    assert forall i: nat :: IsBroken(rbac, e, i) == IsBroken(rbac, f, i);
  }

  /** A lookup with the configuration rendered for its request, and what came of it. */
  datatype Lookup = Lookup(rbac: Rbac, context: Object, out: Outcome)

  /** The outcome and the cache that `LookupUserAccount` promises. */
  ghost predicate Leads(
    engine: ExprEngine, before: map<string, Program>, l: Lookup, after: map<string, Program>)
  {
    var e := Eval(engine, before, l.context);
    LookupOutcome(l.rbac, e, l.out) && Grown(e, after)
  }

  /** Lookups one after another on the cache that they share, which is empty at first. */
  ghost predicate IsHistory(engine: ExprEngine, caches: seq<map<string, Program>>, lookups: seq<Lookup>) {
    && |caches| == |lookups| + 1
    && caches[0] == map[]
    && forall i | 0 <= i < |lookups| :: Leads(engine, caches[i], lookups[i], caches[i + 1])
  }

  lemma LookupKeepsSound(engine: ExprEngine, before: map<string, Program>, l: Lookup, after: map<string, Program>)
    requires Leads(engine, before, l, after) && Sound(engine, before)
    ensures Sound(engine, after)
  {
    GrownStaysSound(Eval(engine, before, l.context), after);
  }

  /** After any number of lookups every cached program is a compilation of its own text. */
  lemma {:induction false} CacheStaysSound(
    engine: ExprEngine, caches: seq<map<string, Program>>, lookups: seq<Lookup>, n: nat)
    requires IsHistory(engine, caches, lookups) && n < |caches|
    ensures Sound(engine, caches[n])
  {
    if n > 0 {
      CacheStaysSound(engine, caches, lookups, n - 1);
      LookupKeepsSound(engine, caches[n - 1], lookups[n - 1], caches[n]);
    }
  }

  /**
   * However many lookups, under whatever configurations and claims, came before: one whose own
   * expressions are coherent has exactly the outcome that it has on an empty cache.
   */
  lemma HistoryIsInvisible(
    engine: ExprEngine, caches: seq<map<string, Program>>, lookups: seq<Lookup>, n: nat, out: Outcome)
    requires IsHistory(engine, caches, lookups) && n < |lookups| && CoherentFor(engine, lookups[n].rbac)
    ensures LookupOutcome(lookups[n].rbac, Eval(engine, map[], lookups[n].context), out) <==> out == lookups[n].out
  {
    var rbac, e := lookups[n].rbac, Eval(engine, caches[n], lookups[n].context);
    CacheStaysSound(engine, caches, lookups, n);
    LookupIgnoresCache(rbac, e, out);
    assert Leads(engine, caches[n], lookups[n], caches[n + 1]);
    OutcomeDetermined(rbac, e, out, lookups[n].out);
  }
}
