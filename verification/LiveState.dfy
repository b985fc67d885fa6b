/**
 * Building the state that authentication requests run on (config.go, idp_jwt_verifier.go,
 * config_watcher.go, server.go): service name, IdP verifiers, audit subject.
 */
module LiveState {
  import opened Values
  import opened GoStrings

  // ---- Service name ------------------------------------------------------------------------

  const ILLEGAL: string := " \t\r\n.*>/"

  predicate Legal(name: string) { forall c | c in name :: c !in ILLEGAL }

  /** Every illegal character replaced by an underscore. */
  function Masked(name: string): (r: string)
    ensures |r| == |name|
  {
    seq(|name|, i requires 0 <= i < |name| => if name[i] in ILLEGAL then '_' else name[i])
  }

  /**
   * The sanitizing in `GetConfig`: one replacement pass for each illegal character, then a
   * trim. The trim finds nothing to remove: illegal characters at either end have become
   * underscores by then, although the comment in the code has them removed.
   */
  method SanitizeName(name: string) returns (sanitized: string)
    ensures sanitized == Masked(name)
    ensures Legal(sanitized) && (Legal(name) <==> sanitized == name)
  {
    MaskedIsLegal(name);
    sanitized := name;
    if forall c | c in name :: c !in ILLEGAL {
      return;
    }
    for k := 0 to |ILLEGAL|
      invariant |sanitized| == |name|
      invariant forall i | 0 <= i < |name| ::
        sanitized[i] == if name[i] in ILLEGAL[..k] then '_' else name[i]
    {
      ReplaceOneByOne(sanitized, ILLEGAL[k], '_');
      assert ILLEGAL[..k + 1] == ILLEGAL[..k] + [ILLEGAL[k]];
      assert '_' !in ILLEGAL;
      sanitized := ReplaceAll(sanitized, [ILLEGAL[k]], "_");
    }
    assert ILLEGAL[..|ILLEGAL|] == ILLEGAL;
    assert sanitized == Masked(name);
    TrimLegal(sanitized);
    sanitized := Trim(sanitized, ILLEGAL);
  }

  lemma TrimLegal(s: string)
    requires Legal(s)
    ensures Trim(s, ILLEGAL) == s
  {
    if s != "" {
      assert s[0] in s && s[|s| - 1] in s;
    }
  }

  lemma MaskedIsLegal(name: string)
    ensures Legal(Masked(name))
    ensures Legal(name) <==> Masked(name) == name
  {
    var m := Masked(name);
    assert '_' !in ILLEGAL;
    forall c | c in m
      ensures c !in ILLEGAL
    {
      var i :| 0 <= i < |m| && m[i] == c;
    }
    if Legal(name) {
      assert forall i | 0 <= i < |name| :: name[i] in name;
      assert m == name;
    }
  }

  /** The comment in the code: illegal characters at the ends are removed, those inside replaced. */
  function AsCommented(name: string): string {
    Masked(Trim(name, ILLEGAL))
  }

  /** A name is sanitized as commented exactly when neither of its ends is illegal. */
  lemma SanitizedAsCommentedIff(name: string)
    ensures Masked(name) == AsCommented(name) <==>
      (name != "" ==> name[0] !in ILLEGAL && name[|name| - 1] !in ILLEGAL)
  {
    TrimShortens(name);
    if name == "" || (name[0] !in ILLEGAL && name[|name| - 1] !in ILLEGAL) {
      assert Trim(name, ILLEGAL) == name;
    } else {
      assert |Masked(name)| > |AsCommented(name)|;
    }
  }

  lemma {:induction false} TrimLeftShortens(s: string)
    ensures |TrimLeft(s, ILLEGAL)| <= |s|
    ensures TrimLeft(s, ILLEGAL) == s || |TrimLeft(s, ILLEGAL)| < |s|
  {
    if s != "" && s[0] in ILLEGAL {
      TrimLeftShortens(s[1..]);
    }
  }

  lemma {:induction false} TrimRightShortens(s: string)
    ensures TrimRight(s, ILLEGAL) == s || |TrimRight(s, ILLEGAL)| < |s|
  {
    if s != "" && s[|s| - 1] in ILLEGAL {
      TrimRightShortens(s[..|s| - 1]);
    }
  }

  lemma TrimShortens(name: string)
    ensures |Trim(name, ILLEGAL)| <= |name|
    ensures name != "" && (name[0] in ILLEGAL || name[|name| - 1] in ILLEGAL) ==> |Trim(name, ILLEGAL)| < |name|
  {
    TrimLeftShortens(name);
    TrimRightShortens(TrimLeft(name, ILLEGAL));
    if name != "" {
      TrimLeftShortens(name[1..]);
      TrimRightShortens(name[..|name| - 1]);
    }
  }

  /** A name that begins with a space keeps an underscore in its place. */
  lemma LeadingSpaceStays()
    ensures Masked(" x") == "_x" && AsCommented(" x") == "x"
  {
    assert "x"[0] !in ILLEGAL && " x"[1..] == "x";
  }

  // ---- IdP verifiers -------------------------------------------------------------------------

  datatype Idp = Idp(description: string, issuerUrl: string, clientId: string, ignoreSetupError: bool)

  /** Setting up entry `i` fails and the failure may not be ignored. */
  predicate Fatal(idps: seq<Idp>, setUp: nat -> bool, i: nat) {
    i < |idps| && !setUp(i) && !idps[i].ignoreSetupError
  }

  /** Positions in the IdP list, in list order, each once. */
  predicate Increasing(verifiers: seq<nat>) {
    forall i, j | 0 <= i < j < |verifiers| :: verifiers[i] < verifiers[j]
  }

  /**
   * `NewIdpVerifiers`: one verifier for each IdP whose setup succeeds, in list order; the first
   * failure that may not be ignored is the error. A verifier points into the IdP list.
   */
  method NewIdpVerifiers(idps: seq<Idp>, setUp: nat -> bool) returns (r: Result<seq<nat>, nat>)
    ensures r.Err? <==> exists i: nat :: i < |idps| && !setUp(i) && !idps[i].ignoreSetupError
    ensures r.Err? ==>
      && r.error < |idps| && !setUp(r.error) && !idps[r.error].ignoreSetupError
      && forall i: nat | i < r.error && !setUp(i) :: idps[i].ignoreSetupError
    ensures r.Ok? ==> Increasing(r.value) && forall i: nat :: i in r.value <==> i < |idps| && setUp(i)
  {
    var verifiers: seq<nat> := [];
    for i := 0 to |idps|
      invariant Increasing(verifiers)
      invariant forall j: nat :: j in verifiers <==> j < i && setUp(j)
      invariant forall j: nat | j < i && !setUp(j) :: idps[j].ignoreSetupError
    {
      if !setUp(i) {
        if idps[i].ignoreSetupError {
          continue;
        }
        return Err(i);
      }
      assert forall k | 0 <= k < |verifiers| :: verifiers[k] in verifiers;
      verifiers := verifiers + [i];
    }
    return Ok(verifiers);
  }

  /** What reading and checking a token with one verifier comes to. */
  datatype Verdict = Refused | Passed | Panicked

  datatype Verification = Matched(verifier: nat) | Unmatched(errors: seq<nat>) | Crashed(verifier: nat)

  /**
   * The first verifier in the list that takes the token, else one error for each; a verifier that
   * panics on the token ends the search before those that would come after it.
   */
  method RunVerification(verifiers: seq<nat>, verify: nat -> Verdict, meetsSpec: nat -> bool)
    returns (r: Verification, ghost i: nat)
    ensures r.Unmatched? ==> r.errors == verifiers
    ensures !r.Unmatched? ==> i < |verifiers|
    ensures forall j | 0 <= j < (if r.Unmatched? then |verifiers| else i) ::
      verify(verifiers[j]).Refused? || (verify(verifiers[j]).Passed? && !meetsSpec(verifiers[j]))
    ensures r.Matched? ==> r.verifier == verifiers[i] && verify(r.verifier).Passed? && meetsSpec(r.verifier)
    ensures r.Crashed? ==> r.verifier == verifiers[i] && verify(r.verifier).Panicked?
  {
    var errors: seq<nat> := [];
    i := 0;
    for k := 0 to |verifiers|
      invariant errors == verifiers[..k]
      invariant forall j | 0 <= j < k ::
        verify(verifiers[j]).Refused? || (verify(verifiers[j]).Passed? && !meetsSpec(verifiers[j]))
    {
      var v := verifiers[k];
      match verify(v)
      case Panicked =>
        return Crashed(v), k;
      case Passed =>
        if meetsSpec(v) {
          return Matched(v), k;
        }
        errors := errors + [v];
      case Refused =>
        errors := errors + [v];
    }
    return Unmatched(errors), i;
  }

  // ---- Live state ----------------------------------------------------------------------------

  /** The merged files as read; what they render to is up to the loader. */
  datatype Manager = Manager(text: string)

  datatype ServiceConfig = ServiceConfig(serviceName: string, idps: seq<Idp>)

  /** A `LiveState`: immutable once built. */
  datatype LiveState = LiveState(config: ServiceConfig, manager: Manager, verifiers: seq<nat>, auditSubject: string)

  /** Rendering and validating a configuration; sanitizing its name comes after. */
  type Render = Manager -> Option<ServiceConfig>

  const AUDIT_SUFFIX: string := ".evt.audit.account.%s.user.%s.created"

  /** The parts belong together: all four come from one manager. */
  ghost predicate WellFormed(render: Render, s: LiveState) {
    && render(s.manager).Some?
    && s.config == render(s.manager).value.(serviceName := Masked(render(s.manager).value.serviceName))
    && s.auditSubject == s.config.serviceName + AUDIT_SUFFIX
    && Increasing(s.verifiers)
    && (forall v | v in s.verifiers :: v < |s.config.idps|)
    && (forall i: nat | i < |s.config.idps| && i !in s.verifiers :: s.config.idps[i].ignoreSetupError)
  }

  datatype ReloadError = NoManager | NoConfig | NoVerifier(idp: nat)

  class ConfigWatcher {
    const render: Render
    var state: LiveState

    constructor (render: Render, initial: LiveState)
      requires WellFormed(render, initial)
      ensures this.render == render && state == initial
    {
      this.render := render;
      this.state := initial;
    }

    /** `reload`: the state is stored last, so any failure on the way leaves it alone. */
    method Reload(loaded: Option<Manager>, setUp: nat -> bool) returns (error: Option<ReloadError>)
      modifies this
      ensures error.Some? ==> state == old(state)
      ensures error.None? ==>
        && loaded.Some? && WellFormed(render, state) && state.manager == loaded.value
        && forall i: nat :: i in state.verifiers <==> i < |state.config.idps| && setUp(i)
      ensures error.None? <==>
        && loaded.Some? && render(loaded.value).Some?
        && forall i: nat | i < |render(loaded.value).value.idps| && !setUp(i) ::
             render(loaded.value).value.idps[i].ignoreSetupError
    {
      if loaded.None? {
        return Some(NoManager);
      }
      var newCM := loaded.value;
      var rendered := render(newCM);
      if rendered.None? {
        return Some(NoConfig);
      }
      var name := SanitizeName(rendered.value.serviceName);
      var newConfig := rendered.value.(serviceName := name);
      var verifiers := NewIdpVerifiers(newConfig.idps, setUp);
      if verifiers.Err? {
        assert Fatal(newConfig.idps, setUp, verifiers.error);
        return Some(NoVerifier(verifiers.error));
      }
      assert forall i: nat | i < |newConfig.idps| && i !in verifiers.value :: !Fatal(newConfig.idps, setUp, i);
      var auditSubject := newConfig.serviceName + AUDIT_SUFFIX;
      state := LiveState(newConfig, newCM, verifiers.value, auditSubject);
      return None;
    }
  }

  /** How many tokens a NATS subject has. */
  function Tokens(subject: string): nat {
    if subject == "" then 1 else Tokens(subject[..|subject| - 1]) + if subject[|subject| - 1] == '.' then 1 else 0
  }

  lemma {:induction false} TokensOfJoin(a: string, b: string)
    ensures Tokens(a + b) == Tokens(a) + Tokens(b) - 1
  {
    if b == "" {
      assert a + b == a;
    } else {
      assert (a + b)[..|a + b| - 1] == a + b[..|b| - 1];
      TokensOfJoin(a, b[..|b| - 1]);
    }
  }

  lemma {:induction false} OneToken(s: string)
    requires '.' !in s
    ensures Tokens(s) == 1
  {
    if s != "" {
      assert s[|s| - 1] in s;
      OneToken(s[..|s| - 1]);
    }
  }

  /** Whatever the configured name, the audit subject has the tokens of its pattern. */
  lemma AuditSubjectTokens(render: Render, s: LiveState)
    requires WellFormed(render, s)
    ensures Tokens(s.auditSubject) == Tokens(AUDIT_SUFFIX)
  {
    MaskedIsLegal(render(s.manager).value.serviceName);
    assert '.' in ILLEGAL;
    OneToken(s.config.serviceName);
    TokensOfJoin(s.config.serviceName, AUDIT_SUFFIX);
  }
}
