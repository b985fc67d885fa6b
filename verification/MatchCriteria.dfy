/** Match criteria and the shared cache of compiled expressions (config_rbac.go). */
module MatchCriteria {
  import opened Values

  /** A compiled expression; only the engine looks inside. */
  datatype Program = Program(handle: nat)

  /**
   * The expression engine. `compile` sees the context whose shape types the expression,
   * `run` gives no value when evaluation fails.
   */
  datatype ExprEngine = ExprEngine(
    compile: (string, Object) -> Option<Program>,
    run: (Program, Object) -> Option<Value>)

  datatype Match = Match(claim: string, value: string, permission: string, expr: string)

  /** What a criterion is evaluated against: the engine, the programs cached so far, the claims. */
  datatype Eval = Eval(engine: ExprEngine, programs: map<string, Program>, context: Object)

  // ---- When a criterion holds --------------------------------------------------------

  function ProgramFor(e: Eval, text: string): Option<Program> {
    if text in e.programs then Some(e.programs[text]) else e.engine.compile(text, e.context)
  }

  predicate RunsTrue(engine: ExprEngine, program: Program, context: Object) {
    engine.run(program, context) == Some(Bool(true))
  }

  predicate ExprHolds(e: Eval, text: string) {
    var p := ProgramFor(e, text);
    p.Some? && RunsTrue(e.engine, p.value, e.context)
  }

  predicate PermissionHolds(context: Object, permission: string) {
    "permissions" in context &&
    match context["permissions"]
    case List(items) => Str(permission) in items
    case Str(s) => s == permission
    case _ => false
  }

  predicate ClaimHolds(context: Object, claim: string, value: string) {
    claim in context &&
    match context[claim]
    case Str(s) => s == value
    case List(items) => Str(value) in items
    case Map(fields) => value in fields
    case StrMap(entries) => value in entries
    case _ => false
  }

  /** An expression comes before a permission, a permission before a claim. */
  predicate Holds(e: Eval, m: Match) {
    if m.expr != "" then ExprHolds(e, m.expr)
    else if m.permission != "" then PermissionHolds(e.context, m.permission)
    else ClaimHolds(e.context, m.claim, m.value)
  }

  /** The cached programs after a criterion has been evaluated. */
  function ProgramsAfter(e: Eval, m: Match): map<string, Program> {
    if m.expr == "" || m.expr in e.programs then e.programs
    else
      var p := e.engine.compile(m.expr, e.context);
      if p.Some? then e.programs[m.expr := p.value] else e.programs
  }

  // ---- The code ----------------------------------------------------------------------

  class ExprCache {
    var programs: map<string, Program>

    constructor ()
      ensures programs == map[]
    {
      programs := map[];
    }
  }

  /** A configuration may carry no cache at all; then nothing is remembered. */
  function Programs(cache: ExprCache?): map<string, Program>
    reads cache
  {
    if cache == null then map[] else cache.programs
  }

  method LoadOrCompileExpr(engine: ExprEngine, text: string, context: Object, cache: ExprCache?)
    returns (program: Option<Program>)
    requires text != ""
    modifies cache
    ensures program == ProgramFor(Eval(engine, old(Programs(cache)), context), text)
    ensures cache != null ==>
      Programs(cache) == ProgramsAfter(Eval(engine, old(Programs(cache)), context), Match("", "", "", text))
  {
    if cache != null {
      if text in cache.programs {
        return Some(cache.programs[text]);
      }
    }
    program := engine.compile(text, context);
    if program.None? {
      return;
    }
    if cache != null {
      cache.programs := cache.programs[text := program.value];
    }
  }

  method Contains(items: seq<Value>, s: string) returns (found: bool)
    ensures found <==> Str(s) in items
  {
    for i := 0 to |items|
      invariant Str(s) !in items[..i]
    {
      if items[i].Str? && items[i].s == s {
        return true;
      }
    }
    return false;
  }

  method EvaluateMatchCriterion(engine: ExprEngine, m: Match, context: Object, cache: ExprCache?)
    returns (matched: bool)
    modifies cache
    ensures matched == Holds(Eval(engine, old(Programs(cache)), context), m)
    ensures cache != null ==>
      Programs(cache) == ProgramsAfter(Eval(engine, old(Programs(cache)), context), m)
  {
    if m.expr != "" {
      var program := LoadOrCompileExpr(engine, m.expr, context, cache);
      if program.None? {
        return false;
      }
      var result := engine.run(program.value, context);
      return result.Some? && result.value.Bool? && result.value.b;
    }

    if m.permission != "" {
      matched := false;
      if "permissions" in context {
        match context["permissions"]
        case List(items) => matched := Contains(items, m.permission);
        case Str(s) => matched := s == m.permission;
        case _ =>
      }
      return;
    }

    if m.claim !in context {
      return false;
    }
    match context[m.claim]
    case Str(s) => matched := s == m.value;
    case List(items) => matched := Contains(items, m.value);
    case Map(fields) => matched := m.value in fields;
    case StrMap(entries) => matched := m.value in entries;
    case _ => matched := false;
  }

  // ---- Within one lookup the cache only grows, and no answer changes -----------------

  /** `programs` adds to the cache of `e` only successful compilations under the context of `e`. */
  ghost predicate Grown(e: Eval, programs: map<string, Program>) {
    && (forall t | t in e.programs :: t in programs && programs[t] == e.programs[t])
    && (forall t | t in programs && t !in e.programs :: e.engine.compile(t, e.context) == Some(programs[t]))
  }

  lemma GrownKeepsAnswers(e: Eval, programs: map<string, Program>, m: Match)
    requires Grown(e, programs)
    ensures Holds(e.(programs := programs), m) == Holds(e, m)
    ensures Grown(e, ProgramsAfter(e.(programs := programs), m))
  {
  }

  // ---- Over any sequence of evaluations ----------------------------------------------

  datatype Query = Query(criterion: Match, context: Object)

  /** The cache after a sequence of evaluations, each with its own claims. */
  function Replay(engine: ExprEngine, queries: seq<Query>): map<string, Program> {
    if queries == [] then map[]
    else
      var last := queries[|queries| - 1];
      ProgramsAfter(Eval(engine, Replay(engine, queries[..|queries| - 1]), last.context), last.criterion)
  }

  predicate Compiles(engine: ExprEngine, q: Query, text: string) {
    text != "" && q.criterion.expr == text && engine.compile(text, q.context).Some?
  }

  /**
   * The cache holds exactly the texts that compiled at least once, each with the program of
   * its first successful compilation; a failed compilation leaves nothing behind.
   */
  lemma {:induction false} CacheContents(engine: ExprEngine, queries: seq<Query>, text: string)
    ensures text in Replay(engine, queries) <==> exists i | 0 <= i < |queries| :: Compiles(engine, queries[i], text)
    ensures text in Replay(engine, queries) ==>
      exists i | 0 <= i < |queries| ::
        && Compiles(engine, queries[i], text)
        && engine.compile(text, queries[i].context) == Some(Replay(engine, queries)[text])
        && forall j | 0 <= j < i :: !Compiles(engine, queries[j], text)
  {
    if queries != [] {
      var n := |queries| - 1;
      var init := queries[..n];
      CacheContents(engine, init, text);
      var before := Replay(engine, init);
      if text in before {
        var i :| 0 <= i < |init| && Compiles(engine, init[i], text)
          && engine.compile(text, init[i].context) == Some(before[text])
          && forall j | 0 <= j < i :: !Compiles(engine, init[j], text);
        assert Compiles(engine, queries[i], text);
        assert forall j | 0 <= j < i :: queries[j] == init[j];
      } else {
        assert forall j | 0 <= j < n :: queries[j] == init[j];
        assert text in Replay(engine, queries) <==> Compiles(engine, queries[n], text);
      }
    }
  }

  /** Every cached program is a compilation of its own text, under some claims. */
  ghost predicate Sound(engine: ExprEngine, programs: map<string, Program>) {
    forall t | t in programs :: exists c: Object :: engine.compile(t, c) == Some(programs[t])
  }

  lemma ReplayIsSound(engine: ExprEngine, queries: seq<Query>)
    ensures Sound(engine, Replay(engine, queries))
  {
    var programs := Replay(engine, queries);
    forall t | t in programs
      ensures exists c: Object :: engine.compile(t, c) == Some(programs[t])
    {
      CacheContents(engine, queries, t);
    }
  }

  lemma GrownStaysSound(e: Eval, programs: map<string, Program>)
    requires Sound(e.engine, e.programs) && Grown(e, programs)
    ensures Sound(e.engine, programs)
  {
  }

  /**
   * The claims under which the expression was compiled do not show in its verdicts: a program
   * compiled under any claims judges any others as a fresh compilation would.
   */
  ghost predicate CoherentAt(engine: ExprEngine, text: string) {
    forall c: Object, d: Object | engine.compile(text, c).Some? ::
      RunsTrue(engine, engine.compile(text, c).value, d) == ExprHolds(Eval(engine, map[], d), text)
  }

  lemma CoherentCacheIsInvisible(e: Eval, m: Match)
    requires m.expr != "" ==> CoherentAt(e.engine, m.expr)
    requires Sound(e.engine, e.programs)
    ensures Holds(e, m) == Holds(e.(programs := map[]), m)
  {
    if m.expr != "" && m.expr in e.programs {
      var c: Object :| e.engine.compile(m.expr, c) == Some(e.programs[m.expr]);
      assert RunsTrue(e.engine, e.engine.compile(m.expr, c).value, e.context)
          == ExprHolds(Eval(e.engine, map[], e.context), m.expr);
    }
  }

  ghost predicate CacheInvisible(engine: ExprEngine, queries: seq<Query>, q: Query) {
    Holds(Eval(engine, Replay(engine, queries), q.context), q.criterion)
      == Holds(Eval(engine, map[], q.context), q.criterion)
  }

  /**
   * Keying the cache by text alone, although compilation takes the claims into account, is
   * harmless for an expression exactly when it is coherent, whatever else is evaluated.
   */
  lemma CoherentAtIff(engine: ExprEngine, text: string)
    requires text != ""
    ensures (forall queries: seq<Query>, q: Query | q.criterion.expr == text :: CacheInvisible(engine, queries, q))
      <==> CoherentAt(engine, text)
  {
    if CoherentAt(engine, text) {
      forall queries: seq<Query>, q: Query | q.criterion.expr == text
        ensures CacheInvisible(engine, queries, q)
      {
        ReplayIsSound(engine, queries);
        CoherentCacheIsInvisible(Eval(engine, Replay(engine, queries), q.context), q.criterion);
      }
    } else {
      var c: Object, d: Object :| engine.compile(text, c).Some?
        && RunsTrue(engine, engine.compile(text, c).value, d) != ExprHolds(Eval(engine, map[], d), text);
      var m := Match("", "", "", text);
      ReplayOfOne(engine, m, c);
      assert !CacheInvisible(engine, [Query(m, c)], Query(m, d));
    }
  }

  lemma ReplayOfOne(engine: ExprEngine, m: Match, c: Object)
    requires m.expr != "" && engine.compile(m.expr, c).Some?
    ensures Replay(engine, [Query(m, c)]) == map[m.expr := engine.compile(m.expr, c).value]
  {
    assert [Query(m, c)][..0] == [];
  }

  /**
   * An engine for `dept == nil` in which a name is known only when the claims have it, and a claim
   * that is missing at run time is nil.
   */
  function DeptIsNil(): ExprEngine {
    ExprEngine(
      (text: string, c: Object) => if "dept" in c then Some(Program(0)) else None,
      (program: Program, c: Object) => Some(Bool("dept" !in c || c["dept"] == Null)))
  }

  /** After one request with `dept` has filled the cache, one without it matches; before, it does not. */
  lemma CacheCanShow(text: string)
    requires text != ""
    ensures var m, first := Match("", "", "", text), map["dept" := Str("b")];
      && !Holds(Eval(DeptIsNil(), map[], map[]), m)
      && Holds(Eval(DeptIsNil(), Replay(DeptIsNil(), [Query(m, first)]), map[]), m)
    ensures !CoherentAt(DeptIsNil(), text)
  {
    var engine, m, first: Object := DeptIsNil(), Match("", "", "", text), map["dept" := Str("b")];
    ReplayOfOne(engine, m, first);
    assert !CacheInvisible(engine, [Query(m, first)], Query(m, map[]));
    CoherentAtIff(engine, text);
  }
}
