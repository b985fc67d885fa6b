/**
 * A request from the raw token to the minted claims: verification, enrichment, binding and
 * expiry taken together (idp_jwt_verifier.go, auth_callback.go).
 */
module Authentication {
  import opened Values
  import opened Claims
  import opened ClaimsLaws
  import opened ClaimsPipeline
  import opened ClaimsPanics
  import opened AuthRequest
  import opened SelectionLaws
  import opened RequestLaws
  import LiveState
  import MatchCriteria
  import RoleBindings
  import opened TokenExpiry

  /**
   * The settings of one IdP, with the defaults of `NewJwtVerifier` filled in: `bounds` are its
   * validation bounds; nothing reads `tokenBounds`.
   */
  datatype IdpSettings = IdpSettings(
    maxLifetime: int, skew: int, spec: Spec, bounds: Bounds, tokenBounds: Bounds, mapping: map<string, string>)

  /** A token whose signature holds: its claims as a map and as they decode into the struct. */
  datatype Token = Token(raw: Object, decoded: View)

  /**
   * What signature verification and the UserInfo endpoint of each IdP answer for a token, and when
   * each IdP's checks of it take place.
   */
  datatype Answers = Answers(signed: nat -> Option<Token>, userInfo: nat -> Option<Object>, clock: nat -> Clock)

  function IntClaim(raw: Object, name: string): int {
    if name in raw then IntOf(raw[name]) else 0
  }

  /** A struct of the claims' types, and a signature step that refuses tokens past their `exp`. */
  ghost predicate ValidToken(token: Token, c: Clock) {
    && WellTyped(token.decoded) && token.decoded.fields == CLAIM_FIELDS
    && InOrder(c) && c.signed <= IntClaim(token.raw, "exp") * SECOND
  }

  predicate ValidTimes(s: IdpSettings) {
    0 < s.maxLifetime <= INT64_MAX && 0 < s.skew <= INT64_MAX
  }

  /** What types, defaults and the OIDC library give. */
  ghost predicate ValidInput(idps: seq<IdpSettings>, verifiers: seq<nat>, answers: Answers) {
    && (forall j | 0 <= j < |verifiers| :: verifiers[j] < |idps|)
    && (forall s | s in idps :: ValidTimes(s))
    && (forall v: nat | v < |idps| && answers.signed(v).Some? ::
          ValidToken(answers.signed(v).value, answers.clock(v)))
  }

  // ---- Verification -----------------------------------------------------------------------

  predicate TimesHold(s: IdpSettings, raw: Object, c: Clock) {
    ValidateTimes(IntClaim(raw, "iat"), IntClaim(raw, "exp"), s.maxLifetime, s.skew, c.timed).Ok?
  }

  /** `verifyJWT`: the signature, then the first conversion, then the times. */
  function VerdictOf(s: IdpSettings, signed: Option<Token>, c: Clock): LiveState.Verdict {
    if signed.None? then LiveState.Refused
    else if !NoNullLists(signed.value.decoded.fields, signed.value.raw) then LiveState.Panicked
    else if TimesHold(s, signed.value.raw, c) then LiveState.Passed
    else LiveState.Refused
  }

  /** `validateAgainstSpec` for a token that has come so far: required claims, audience, bounds. */
  predicate MeetsSpec(s: IdpSettings, format: Format, signed: Option<Token>, c: Clock) {
    && signed.Some? && WellTyped(signed.value.decoded)
    && TokenMeets(s.spec, format, signed.value.decoded, signed.value.raw, s.mapping)
    && ValidateBounds(IntClaim(signed.value.raw, "exp"), s.bounds, c.bounded).Ok?
  }

  predicate Accepts(s: IdpSettings, format: Format, signed: Option<Token>, c: Clock) {
    VerdictOf(s, signed, c).Passed? && MeetsSpec(s, format, signed, c)
  }

  /** The search for a verifier ends here, with acceptance or with a panic. */
  predicate Stops(s: IdpSettings, format: Format, signed: Option<Token>, c: Clock) {
    VerdictOf(s, signed, c).Panicked? || Accepts(s, format, signed, c)
  }

  /** One verifier at work on the struct: its verdict, and whether the token meets the spec if it passes. */
  method CheckToken(s: IdpSettings, format: Format, token: Token, c: Clock)
    returns (verdict: LiveState.Verdict, meets: bool)
    requires WellTyped(token.decoded)
    ensures verdict == VerdictOf(s, Some(token), c)
    ensures verdict.Passed? ==> (meets <==> MeetsSpec(s, format, Some(token), c))
  {
    var claims := new IdpJwtClaims(token.decoded);
    var panicked := ReadToken(format, claims, token.raw, s.mapping);
    if panicked {
      return LiveState.Panicked, false;
    }
    var times := ValidateTimes(
      IntClaim(token.raw, "iat"), IntClaim(token.raw, "exp"), s.maxLifetime, s.skew, c.timed);
    if times.Err? {
      return LiveState.Refused, false;
    }
    SpecIgnoresOrder(s.spec, format, token.decoded, token.raw, s.mapping, claims.Struct());
    FieldIsClaim(format, token.decoded, token.raw, s.mapping, claims.Struct());
    meets := claims.ValidateSpec(s.spec);
    if meets {
      var bounds := ValidateBounds(IntOf(claims.standard["exp"]), s.bounds, c.bounded);
      meets := bounds.Ok?;
    }
    return LiveState.Passed, meets;
  }

  lemma FieldIsClaim(format: Format, decoded: View, raw: Object, mapping: map<string, string>, verified: View)
    requires Converts(format, decoded, raw, mapping, verified) && IntClaim(raw, "exp") != 0
    ensures IntOf(verified.standard["exp"]) == IntClaim(raw, "exp")
  {
  }

  ghost predicate FirstStop(
    idps: seq<IdpSettings>, verifiers: seq<nat>, answers: Answers, format: Format, i: nat)
    requires ValidInput(idps, verifiers, answers)
  {
    && i < |verifiers|
    && Stops(idps[verifiers[i]], format, answers.signed(verifiers[i]), answers.clock(verifiers[i]))
    && forall j | 0 <= j < i ::
         !Stops(idps[verifiers[j]], format, answers.signed(verifiers[j]), answers.clock(verifiers[j]))
  }

  ghost predicate NoneStops(idps: seq<IdpSettings>, verifiers: seq<nat>, answers: Answers, format: Format)
    requires ValidInput(idps, verifiers, answers)
  {
    forall j | 0 <= j < |verifiers| ::
      !Stops(idps[verifiers[j]], format, answers.signed(verifiers[j]), answers.clock(verifiers[j]))
  }

  /** `runVerification` with all of its checks. */
  method FirstAccepting(idps: seq<IdpSettings>, verifiers: seq<nat>, answers: Answers, format: Format)
    returns (r: LiveState.Verification, ghost i: nat)
    requires ValidInput(idps, verifiers, answers)
    ensures r.Unmatched? ==> NoneStops(idps, verifiers, answers, format)
    ensures !r.Unmatched? ==> FirstStop(idps, verifiers, answers, format, i)
    ensures r.Matched? ==>
      && r.verifier == verifiers[i]
      && Accepts(idps[r.verifier], format, answers.signed(r.verifier), answers.clock(r.verifier))
    ensures r.Crashed? ==>
      && r.verifier == verifiers[i]
      && VerdictOf(idps[r.verifier], answers.signed(r.verifier), answers.clock(r.verifier)).Panicked?
  {
    var verify := (v: nat) =>
      if v < |idps| then VerdictOf(idps[v], answers.signed(v), answers.clock(v)) else LiveState.Refused;
    var meetsSpec := (v: nat) => v < |idps| && MeetsSpec(idps[v], format, answers.signed(v), answers.clock(v));
    r, i := LiveState.RunVerification(verifiers, verify, meetsSpec);
  }

  /** The accepted claims: what the conversions make of the token for the settings of its IdP. */
  ghost predicate IdentifiedBy(
    s: IdpSettings, token: Token, userInfo: Option<Object>, format: Format, user: string, tag: string, v: Verified)
  {
    && v.bounds == s.bounds
    && exists last: View ::
         && Pipeline(format, token.decoded, token.raw, userInfo, user, tag, s.mapping, last)
         && WellTyped(last) && v.context == MapOf(last) && v.exp == IntOf(last.standard["exp"])
  }

  /** The accepted token leads to `identity`: enriched claims, or a panic in one of the conversions. */
  ghost predicate LeadsTo(
    s: IdpSettings, token: Token, userInfo: Option<Object>, format: Format, user: string, tag: string,
    identity: Identity)
  {
    match identity
    case Unverified => false
    case Crashed => PipelinePanics(format, token.decoded, token.raw, userInfo, s.mapping)
    case Identified(v) => IdentifiedBy(s, token, userInfo, format, user, tag, v)
  }

  /** Enrichment of an accepted token, up to the client's identity. */
  method Enriched(
    s: IdpSettings, token: Token, userInfo: Option<Object>, format: Format, user: string, tag: string)
    returns (identity: Identity)
    requires WellTyped(token.decoded)
    ensures LeadsTo(s, token, userInfo, format, user, tag, identity)
  {
    var looked := RequestClaims(format, token.decoded, token.raw, userInfo, user, tag, s.mapping);
    if looked.None? {
      return Crashed;
    }
    return Identified(Verified(looked.value.context, IntOf(looked.value.expiry), s.bounds));
  }

  /** Verification by the first verifier at which the search ends, then enrichment. */
  method VerifyAndEnrich(
    idps: seq<IdpSettings>, verifiers: seq<nat>, answers: Answers, format: Format, user: string, tag: string)
    returns (identity: Identity, ghost i: nat)
    requires ValidInput(idps, verifiers, answers)
    ensures identity.Unverified? <==> NoneStops(idps, verifiers, answers, format)
    ensures !identity.Unverified? ==>
      && FirstStop(idps, verifiers, answers, format, i)
      && LeadsTo(idps[verifiers[i]], answers.signed(verifiers[i]).value, answers.userInfo(verifiers[i]),
                 format, user, tag, identity)
    ensures identity.Identified? ==>
      Accepts(idps[verifiers[i]], format, answers.signed(verifiers[i]), answers.clock(verifiers[i]))
  {
    var r;
    r, i := FirstAccepting(idps, verifiers, answers, format);
    match r
    case Unmatched(_) => identity := Unverified;
    case Crashed(v) => identity := Crashed;
    case Matched(v) =>
      identity := Enriched(idps[v], answers.signed(v).value, answers.userInfo(v), format, user, tag);
  }

  // ---- What acceptance means ------------------------------------------------------------------

  /**
   * A token is accepted exactly when it is signed, holds no null for `groups` or `roles`, is in
   * time, and every way of reading its claims gives the required ones, an allowed audience and an
   * `exp` within the bounds.
   */
  lemma AcceptsIff(s: IdpSettings, format: Format, token: Token, c: Clock)
    requires WellTyped(token.decoded)
    ensures Accepts(s, format, Some(token), c) <==>
      && NoNullLists(token.decoded.fields, token.raw)
      && ValidateTimes(IntClaim(token.raw, "iat"), IntClaim(token.raw, "exp"), s.maxLifetime, s.skew, c.timed).Ok?
      && (forall verified: View | Converts(format, token.decoded, token.raw, s.mapping, verified) ::
            && Meets(s.spec, verified)
            && ValidateBounds(IntOf(verified.standard["exp"]), s.bounds, c.bounded).Ok?)
    ensures !Accepts(s, format, None, c)
    ensures VerdictOf(s, Some(token), c).Panicked? <==> !NoNullLists(token.decoded.fields, token.raw)
  {
    if NoNullLists(token.decoded.fields, token.raw)
      && ValidateTimes(IntClaim(token.raw, "iat"), IntClaim(token.raw, "exp"), s.maxLifetime, s.skew, c.timed).Ok?
    {
      var order := SomeOrder(token.raw.Keys);
      var some := ReadInOrder(format, token.decoded, token.raw, s.mapping, order);
      forall verified: View | Converts(format, token.decoded, token.raw, s.mapping, verified)
        ensures Meets(s.spec, verified) <==> TokenMeets(s.spec, format, token.decoded, token.raw, s.mapping)
        ensures IntOf(verified.standard["exp"]) == IntClaim(token.raw, "exp")
      {
        SpecIgnoresOrder(s.spec, format, token.decoded, token.raw, s.mapping, verified);
        FieldIsClaim(format, token.decoded, token.raw, s.mapping, verified);
      }
      assert Converts(format, token.decoded, token.raw, s.mapping, some);
    }
  }

  /** A token for a single other audience is not accepted where audiences are checked. */
  lemma ForeignAudienceRefused(s: IdpSettings, format: Format, token: Token, c: Clock, audience: string)
    requires WellTyped(token.decoded) && Lookup(token.raw, "aud") == Some(Str(audience))
    requires !s.spec.skipAudience && s.spec.audience != [] && audience !in s.spec.audience
    ensures !Accepts(s, format, Some(token), c)
  {
  }

  /** Nor is one that lacks a required claim: neither a claim of that name nor one mapped to it. */
  lemma MissingClaimRefused(s: IdpSettings, format: Format, token: Token, c: Clock, n: string)
    requires WellTyped(token.decoded) && n in s.spec.required && n !in token.decoded.fields && n !in token.raw
    requires forall k | k in token.raw && k in s.mapping :: s.mapping[k] != n
    ensures !Accepts(s, format, Some(token), c)
  {
    assert n !in NamesAfter(format, token.decoded, token.raw, s.mapping);
  }

  // ---- The request ------------------------------------------------------------------------

  /**
   * The whole request. Without a token or an accepting verifier it is refused; a token that makes
   * a conversion panic gets no answer; any other request comes to what the rendered configuration
   * says about the claims that the first accepting verifier and the enrichment made of the token.
   */
  method Authenticate(
    m: Metrics?, token: string, idps: seq<IdpSettings>, verifiers: seq<nat>, answers: Answers, format: Format,
    user: string, tag: string, render: Object -> Option<RequestConfig>, engine: MatchCriteria.ExprEngine,
    cache: MatchCriteria.ExprCache?, accounts: seq<Account>, now: int)
    returns (r: Reply, ghost identity: Identity, ghost i: nat)
    requires ValidInput(idps, verifiers, answers)
    modifies m, cache
    ensures token == "" ==> r == Answered(Err(NoToken))
    ensures token != "" ==> (identity.Unverified? <==> NoneStops(idps, verifiers, answers, format))
    ensures token != "" && !identity.Unverified? ==>
      && FirstStop(idps, verifiers, answers, format, i)
      && LeadsTo(idps[verifiers[i]], answers.signed(verifiers[i]).value, answers.userInfo(verifiers[i]),
                 format, user, tag, identity)
    ensures token != "" && identity.Identified? ==>
      Accepts(idps[verifiers[i]], format, answers.signed(verifiers[i]), answers.clock(verifiers[i]))
    ensures token != "" && identity.Unverified? ==> r == Answered(Err(NotVerified))
    ensures token != "" && identity.Crashed? ==> r == Panicked
    ensures token != "" && identity.Identified? ==>
      && r.Answered?
      && Concluded(render(identity.v.context), engine, old(MatchCriteria.Programs(cache)), accounts,
                   identity.v, now, r.result)
    ensures r.Answered? && r.result.Ok? <==>
      && token != "" && identity.Identified? && render(identity.v.context).Some?
      && exists i: nat :: Mints(
           render(identity.v.context).value.rbac,
           MatchCriteria.Eval(engine, old(MatchCriteria.Programs(cache)), identity.v.context), accounts, i)
    ensures m != null ==>
      && m.inFlight == old(m.inFlight)
      && m.total == (if r.Answered? then Counted(old(m.total), StatusOf(r.result)) else old(m.total))
      && m.minted == old(m.minted) + if r.Answered? && r.result.Ok? then 1 else 0
  {
    var outcome := Unverified;
    i := 0;
    if token != "" {
      outcome, i := VerifyAndEnrich(idps, verifiers, answers, format, user, tag);
    }
    identity := outcome;
    ghost var programs := MatchCriteria.Programs(cache);
    r := HandleAuthRequest(m, token, outcome, render, engine, cache, accounts, now);
    if token != "" && outcome.Identified? {
      ConcludedIff(render(outcome.v.context), engine, programs, accounts, outcome.v, now, r.result);
    }
  }

  // ---- What an accepted token leads to ----------------------------------------------------

  /** Under a settled mapping the lookup sees the client identity that the broker was given. */
  lemma IdentifiedShowsClient(
    s: IdpSettings, token: Token, userInfo: Option<Object>, format: Format, user: string, tag: string, v: Verified)
    requires IdentifiedBy(s, token, userInfo, format, user, tag, v) && Settled(token.decoded.fields, s.mapping)
    ensures ShowsClient(v.context, user, tag)
  {
    var last: View :|
      && Pipeline(format, token.decoded, token.raw, userInfo, user, tag, s.mapping, last)
      && WellTyped(last) && v.context == MapOf(last) && v.exp == IntOf(last.standard["exp"]);
    PipelineShowsClient(format, token.decoded, token.raw, userInfo, user, tag, s.mapping, last);
  }

  /** A claim `t` of the token is in the context of the lookup, unless UserInfo has another value. */
  lemma IdentifiedKeepsClaim(
    s: IdpSettings, token: Token, userInfo: Option<Object>, format: Format, user: string, tag: string, v: Verified,
    t: string, value: Value)
    requires IdentifiedBy(s, token, userInfo, format, user, tag, v)
    requires Settled(token.decoded.fields, s.mapping) || (t in token.decoded.fields && t !in s.mapping.Values)
    requires t != "client_id" && t != "also_known_as" && Brings(token.decoded.fields, s.mapping, token.raw, t, value)
    requires userInfo.Some? ==> Agrees(token.decoded.fields, s.mapping, userInfo.value, t, value)
    ensures Lookup(v.context, t) == Some(value)
  {
    var last: View :|
      && Pipeline(format, token.decoded, token.raw, userInfo, user, tag, s.mapping, last)
      && WellTyped(last) && v.context == MapOf(last) && v.exp == IntOf(last.standard["exp"]);
    TokenClaimReachesLookup(
      format, token.decoded, token.raw, userInfo, user, tag, s.mapping, last, t, value);
  }

  /** The `exp` that UserInfo supplies, be it a number or not, else that of the token. */
  function SuppliedExpiry(token: Token, userInfo: Option<Object>): int {
    if userInfo.Some? && "exp" in userInfo.value then IntOf(userInfo.value["exp"]) else IntClaim(token.raw, "exp")
  }

  lemma NumberIsSupplied(token: Token, userInfo: Option<Object>)
    requires "exp" in token.decoded.standard && IntClaim(token.raw, "exp") != 0
    ensures IntOf(NumberOf(token.decoded, token.raw, userInfo, "exp")) == SuppliedExpiry(token, userInfo)
  {
  }

  /** What is minted from is the `exp` of UserInfo before that of the token. */
  lemma IdentifiedExpiry(
    s: IdpSettings, token: Token, userInfo: Option<Object>, format: Format, user: string, tag: string, v: Verified)
    requires IdentifiedBy(s, token, userInfo, format, user, tag, v) && WellTyped(token.decoded)
    requires "exp" !in s.mapping.Values && IntClaim(token.raw, "exp") != 0
    ensures v.exp == SuppliedExpiry(token, userInfo)
  {
    var last: View :|
      && Pipeline(format, token.decoded, token.raw, userInfo, user, tag, s.mapping, last)
      && WellTyped(last) && v.context == MapOf(last) && v.exp == IntOf(last.standard["exp"]);
    NumberIsSupplied(token, userInfo);
    PipelineExpiry(format, token.decoded, token.raw, userInfo, user, tag, s.mapping, last);
  }

  /** An accepted token can lead to a panic exactly when there is a null for `groups` or `roles`. */
  lemma CrashIff(
    s: IdpSettings, token: Token, userInfo: Option<Object>, format: Format, user: string, tag: string)
    requires WellTyped(token.decoded)
    ensures LeadsTo(s, token, userInfo, format, user, tag, Crashed) <==>
      || TokenPanics(token.decoded.fields, s.mapping, token.raw, userInfo)
      || TokenPanicsLater(token.decoded.fields, s.mapping, token.raw, userInfo)
      || UserInfoPanics(token.decoded.fields, s.mapping, userInfo)
  {
    PanicsIff(format, token.decoded, token.raw, userInfo, s.mapping);
  }

  lemma AcceptedInTime(s: IdpSettings, format: Format, token: Token, c: Clock)
    requires ValidToken(token, c) && Accepts(s, format, Some(token), c)
    ensures TokenExpiry.Accepted(
      IntClaim(token.raw, "iat"), IntClaim(token.raw, "exp"), s.maxLifetime, s.skew, s.bounds, c)
    ensures IntClaim(token.raw, "exp") >= 1
  {
  }

  /** For an accepted token the bounds of its IdP no longer show, and its own expiry is the limit. */
  lemma AcceptedExpiry(
    s: IdpSettings, format: Format, token: Token, c: Clock, now: int, expiry: ExpiryConfig, binding: Option<int>)
    requires ValidTimes(s) && ValidToken(token, c) && Accepts(s, format, Some(token), c) && c.bounded <= now
    ensures var exp := IntClaim(token.raw, "exp");
      Expiration(expiry, exp, Some(s.bounds), binding, now) == Expiration(expiry, exp, None, binding, now) <= exp
  {
    AcceptedInTime(s, format, token, c);
    SignedLifetimeFits(IntClaim(token.raw, "iat"), IntClaim(token.raw, "exp"), s.maxLifetime, s.skew, c);
    AcceptedBoundsLeaveNoTrace(expiry, IntClaim(token.raw, "exp"), s.bounds, binding, c.bounded, now);
  }

  /**
   * Minted claims for an accepted token: one binding, selected by the claims made of the token,
   * gives the account, the roles and the expiry, under the `exp` that was supplied. When that is
   * the token's own, the expiry is that of an IdP without bounds.
   */
  lemma MintedForToken(
    s: IdpSettings, token: Token, userInfo: Option<Object>, format: Format, user: string, tag: string, v: Verified,
    c: Clock, now: int, cfg: RequestConfig, engine: MatchCriteria.ExprEngine,
    programs: map<string, MatchCriteria.Program>, accounts: seq<Account>, claims: UserClaims)
    returns (i: nat)
    requires ValidTimes(s) && ValidToken(token, c) && Accepts(s, format, Some(token), c) && c.bounded <= now
    requires IdentifiedBy(s, token, userInfo, format, user, tag, v) && "exp" !in s.mapping.Values
    requires Concluded(Some(cfg), engine, programs, accounts, v, now, Ok(claims))
    ensures i < |cfg.rbac.bindings| && SelectedAt(cfg.rbac, MatchCriteria.Eval(engine, programs, v.context), i)
    ensures var exp := SuppliedExpiry(token, userInfo);
      && ClaimsOf(cfg, accounts, exp, Some(s.bounds), now, cfg.rbac.bindings[i], claims)
      && claims.expires <= exp
    ensures SuppliedExpiry(token, userInfo) == IntClaim(token.raw, "exp") ==>
      ClaimsOf(cfg, accounts, IntClaim(token.raw, "exp"), None, now, cfg.rbac.bindings[i], claims)
  {
    i := MintedClaimsAreJustified(cfg, engine, programs, accounts, v, now, claims);
    AcceptedInTime(s, format, token, c);
    IdentifiedExpiry(s, token, userInfo, format, user, tag, v);
    if SuppliedExpiry(token, userInfo) == IntClaim(token.raw, "exp") {
      AcceptedExpiry(s, format, token, c, now, cfg.expiry, Some(cfg.rbac.bindings[i].tokenMaxExpiry));
      BoundsDropOut(cfg, accounts, v.exp, s.bounds, now, cfg.rbac.bindings[i], claims);
    }
  }

  lemma BoundsDropOut(
    cfg: RequestConfig, accounts: seq<Account>, exp: int, bounds: Bounds, now: int,
    b: RoleBindings.Binding, claims: UserClaims)
    requires ClaimsOf(cfg, accounts, exp, Some(bounds), now, b, claims)
    requires Expiration(cfg.expiry, exp, Some(bounds), Some(b.tokenMaxExpiry), now)
          == Expiration(cfg.expiry, exp, None, Some(b.tokenMaxExpiry), now)
    ensures ClaimsOf(cfg, accounts, exp, None, now, b, claims)
  {
  }

  /**
   * `token_bounds` of an IdP are documented to override the NATS bounds for its tokens. They are
   * never read: the minted expiry is the documented one, for every accepted token and every
   * binding, exactly when the override would change nothing in reach of those tokens.
   */
  lemma TokenBoundsHonouredIff(s: IdpSettings, cfg: ExpiryConfig)
    requires ValidTimes(s)
    ensures (forall issuedAt: int, exp: int, c: Clock, binding: Option<int>, now: int
               | TokenExpiry.Accepted(issuedAt, exp, s.maxLifetime, s.skew, s.bounds, c) && c.bounded <= now ::
               Expiration(cfg, exp, Some(s.bounds), binding, now)
               == Expiration(Overridden(cfg, s.tokenBounds), exp, Some(s.bounds), binding, now))
      <==>
        || NoneAccepted(s.bounds, s.maxLifetime)
        || SameReach(cfg.nats, Overridden(cfg, s.tokenBounds).nats, Longest(s.bounds, s.maxLifetime) * SECOND)
  {
    OverrideHonouredIff(cfg, s.bounds, s.tokenBounds, s.maxLifetime, s.skew);
  }
}
