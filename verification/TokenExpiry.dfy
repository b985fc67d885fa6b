/**
 * Token time checks and the expiry of the minted token (idp_jwt_verifier.go,
 * idp_jwt_claim.go, server.go). Instants and durations are integer nanoseconds, `exp` and
 * `iat` are whole seconds (sections 4.1.4 and 4.1.6 of RFC 7519).
 */
module TokenExpiry {
  import opened Values

  const SECOND: int := 1_000_000_000
  const INT64_MIN: int := -0x8000_0000_0000_0000
  const INT64_MAX: int := 0x7FFF_FFFF_FFFF_FFFF

  predicate InInt64(n: int) { INT64_MIN <= n <= INT64_MAX }

  /** Two's-complement wrap-around of a product. */
  function Wrap64(n: int): int {
    (n - INT64_MIN) % 0x1_0000_0000_0000_0000 + INT64_MIN
  }

  /** The Unix second of an instant, rounded down. */
  function Unix(instant: int): int { instant / SECOND }

  datatype Bounds = Bounds(min: int, max: int)

  function Min(a: int, b: int): int { if a < b then a else b }
  function Max(a: int, b: int): int { if a < b then b else a }

  // ---- Acceptance ---------------------------------------------------------------------

  datatype TimeError = MissingIssuedAt | MissingExpiry | TooFarInFuture | TooEarly | TooLate
  datatype BoundsError = TooShort | TooLong

  /** `Duration.Seconds()` cut to an integer. */
  function Seconds(d: int): int {
    if d >= 0 then d / SECOND else -((-d) / SECOND)
  }

  /** `ValidateTimes` at instant `now`. */
  function ValidateTimes(issuedAt: int, expiry: int, maxLifetime: int, skew: int, now: int): Result<(), TimeError> {
    if issuedAt < 1 then Err(MissingIssuedAt)
    else if expiry < 1 then Err(MissingExpiry)
    else if expiry > Unix(now) + Seconds(maxLifetime) then Err(TooFarInFuture)
    else if Unix(now) < issuedAt - Seconds(skew) then Err(TooEarly)
    else if Unix(now) > expiry + Seconds(skew) then Err(TooLate)
    else Ok(())
  }

  /** `validateExpiryBounds`: the product is computed in 64 bits. */
  function ValidateExpiryBounds(expiry: int, bounds: Bounds, now: int): Result<(), BoundsError> {
    var ttl := Wrap64((expiry - Unix(now)) * SECOND);
    if ttl < bounds.min then Err(TooShort)
    else if ttl > bounds.max then Err(TooLong)
    else Ok(())
  }

  /** The last step of `validateAgainstSpec`: bounds count when either is set. */
  function ValidateBounds(expiry: int, bounds: Bounds, now: int): Result<(), BoundsError> {
    if bounds.min > 0 || bounds.max > 0 then ValidateExpiryBounds(expiry, bounds, now) else Ok(())
  }

  /** The instants at which a token passes the signature step, the time checks and the bounds check. */
  datatype Clock = Clock(signed: int, timed: int, bounded: int)

  /** The checks take less than the longest duration there is, some 292 years. */
  predicate InOrder(c: Clock) {
    c.signed <= c.timed <= c.bounded && Unix(c.bounded) - Unix(c.signed) <= INT64_MAX / SECOND
  }

  /** The signature step refuses a token past its `exp`; the time checks come after it. */
  predicate InTime(issuedAt: int, exp: int, maxLifetime: int, skew: int, c: Clock) {
    InOrder(c) && c.signed <= exp * SECOND && ValidateTimes(issuedAt, exp, maxLifetime, skew, c.timed).Ok?
  }

  predicate Accepted(issuedAt: int, exp: int, maxLifetime: int, skew: int, bounds: Bounds, c: Clock) {
    InTime(issuedAt, exp, maxLifetime, skew, c) && ValidateBounds(exp, bounds, c.bounded).Ok?
  }

  // ---- The expiry of the minted token ---------------------------------------------------

  /** The lower bound first: an upper bound below it wins. */
  function Clamp(lower: int, upper: int, x: int): int { Min(Max(x, lower), upper) }

  function ClampToIdp(idp: Option<Bounds>, now: int, x: int): int {
    if idp.None? then x
    else
      var raised := if idp.value.min > 0 then Max(x, Unix(now + idp.value.min)) else x;
      if idp.value.max > 0 then Min(raised, Unix(now + idp.value.max)) else raised
  }

  /** The settings that decide the expiry: RBAC default, NATS bounds. */
  datatype ExpiryConfig = ExpiryConfig(rbacMax: int, nats: Bounds)

  /** What the role binding, else the RBAC default, else the IdP asks for. */
  function Requested(cfg: ExpiryConfig, exp: int, idp: Option<Bounds>, binding: Option<int>, now: int): int {
    if binding.Some? && binding.value > 0 then Unix(now + binding.value)
    else if cfg.rbacMax > 0 then Min(ClampToIdp(idp, now, exp), Unix(now + cfg.rbacMax))
    else ClampToIdp(idp, now, exp)
  }

  function ClampToNats(cfg: ExpiryConfig, now: int, x: int): int {
    Clamp(Unix(now + cfg.nats.min), Unix(now + cfg.nats.max), x)
  }

  function Expiration(cfg: ExpiryConfig, exp: int, idp: Option<Bounds>, binding: Option<int>, now: int): int {
    Min(exp, ClampToNats(cfg, now, Requested(cfg, exp, idp, binding, now)))
  }

  /**
   * `calculateExpiration`: six steps over one running value. The result is the request clamped
   * to the NATS bounds, under the ceiling of the IdP.
   */
  method CalculateExpiration(cfg: ExpiryConfig, exp: int, idp: Option<Bounds>, binding: Option<int>, now: int)
    returns (expiry: int)
    ensures expiry == Expiration(cfg, exp, idp, binding, now)
  {
    expiry := exp;
    var idpCeiling := exp;

    if idp.Some? {
      if idp.value.min > 0 {
        if expiry < Unix(now + idp.value.min) {
          expiry := Unix(now + idp.value.min);
        }
      }
      if idp.value.max > 0 {
        if expiry > Unix(now + idp.value.max) {
          expiry := Unix(now + idp.value.max);
        }
      }
    }

    assert expiry == ClampToIdp(idp, now, exp);

    if binding.Some? && binding.value > 0 {
      expiry := Unix(now + binding.value);
    } else if cfg.rbacMax > 0 {
      if expiry > Unix(now + cfg.rbacMax) {
        expiry := Unix(now + cfg.rbacMax);
      }
    }

    ghost var requested := expiry;
    assert requested == Requested(cfg, exp, idp, binding, now);

    if expiry < Unix(now + cfg.nats.min) {
      expiry := Unix(now + cfg.nats.min);
    }
    if expiry > Unix(now + cfg.nats.max) {
      expiry := Unix(now + cfg.nats.max);
    }

    assert expiry == ClampToNats(cfg, now, requested);

    if expiry > idpCeiling {
      expiry := idpCeiling;
    }
  }

  // ---- Laws -----------------------------------------------------------------------------

  function WithoutMin(idp: Option<Bounds>): Option<Bounds> {
    if idp.Some? then Some(idp.value.(min := 0)) else None
  }

  /** The seconds in which a token passes the time checks form one window. */
  lemma AcceptanceWindow(issuedAt: int, exp: int, maxLifetime: int, skew: int, now: int)
    ensures ValidateTimes(issuedAt, exp, maxLifetime, skew, now).Ok? <==>
      && issuedAt >= 1 && exp >= 1
      && Max(exp - Seconds(maxLifetime), issuedAt - Seconds(skew)) <= Unix(now) <= exp + Seconds(skew)
  {
  }

  /** Between the ceiling of the IdP and the NATS bounds, whichever is lower. */
  lemma ExpirationWithinBounds(cfg: ExpiryConfig, exp: int, idp: Option<Bounds>, binding: Option<int>, now: int)
    ensures var r := Expiration(cfg, exp, idp, binding, now);
      && Min(exp, Min(Unix(now + cfg.nats.min), Unix(now + cfg.nats.max))) <= r
      && r <= Min(exp, Unix(now + cfg.nats.max))
  {
  }

  /** A later `exp` never shortens the token. */
  lemma ExpirationMonotone(cfg: ExpiryConfig, exp: int, exp': int, idp: Option<Bounds>, binding: Option<int>, now: int)
    requires exp <= exp'
    ensures Expiration(cfg, exp, idp, binding, now) <= Expiration(cfg, exp', idp, binding, now)
  {
  }

  /** Feeding the result back as `exp` changes nothing. */
  lemma ExpirationIdempotent(cfg: ExpiryConfig, exp: int, idp: Option<Bounds>, binding: Option<int>, now: int)
    ensures var r := Expiration(cfg, exp, idp, binding, now); Expiration(cfg, r, idp, binding, now) == r
  {
  }

  /** A positive binding expiry hides the IdP bounds and the RBAC default altogether. */
  lemma BindingOverrides(cfg: ExpiryConfig, cfg': ExpiryConfig, exp: int, idp: Option<Bounds>, idp': Option<Bounds>, b: int, now: int)
    requires b > 0 && cfg.nats == cfg'.nats
    ensures Expiration(cfg, exp, idp, Some(b), now) == Expiration(cfg', exp, idp', Some(b), now)
  {
  }

  /**
   * Once `ValidateTimes` has accepted, the 64-bit product of the bounds check, computed
   * later by seconds or years, does not wrap: the check is the mathematical one.
   */
  lemma AcceptedLifetimeFits(issuedAt: int, exp: int, maxLifetime: int, skew: int, now: int, later: int)
    requires 0 < maxLifetime <= INT64_MAX && 0 < skew && now <= later
    requires Seconds(skew) + (Unix(later) - Unix(now)) <= INT64_MAX / SECOND
    requires ValidateTimes(issuedAt, exp, maxLifetime, skew, now).Ok?
    ensures InInt64((exp - Unix(later)) * SECOND)
    ensures forall b: Bounds :: ValidateExpiryBounds(exp, b, later).Ok? <==>
      b.min <= (exp - Unix(later)) * SECOND <= b.max
  {
  }

  /** Without those checks it does wrap: an `exp` 584 years ahead would pass for one within the hour. */
  lemma ProductWraps()
    ensures ValidateExpiryBounds(18_446_744_074, Bounds(0, 3_600 * SECOND), 0).Ok?
  {
    assert Unix(0) == 0 && Wrap64(18_446_744_074 * SECOND) == 290_448_384;
  }

  /** Nor does it wrap for a token that the signature step has let through, whatever the skew. */
  lemma SignedLifetimeFits(issuedAt: int, exp: int, maxLifetime: int, skew: int, c: Clock)
    requires 0 < maxLifetime <= INT64_MAX && InTime(issuedAt, exp, maxLifetime, skew, c)
    ensures InInt64((exp - Unix(c.bounded)) * SECOND)
    ensures exp - Unix(c.bounded) <= Seconds(maxLifetime)
    ensures forall b: Bounds :: ValidateExpiryBounds(exp, b, c.bounded).Ok? <==>
      b.min <= (exp - Unix(c.bounded)) * SECOND <= b.max
  {
    assert Unix(c.signed) <= exp && Unix(c.timed) <= Unix(c.bounded);
  }

  /**
   * Acceptance makes the IdP clamp idle: at the instant of an exact bounds check, whatever
   * its fraction of a second, the clamp leaves `exp` as it is.
   */
  lemma AcceptanceMakesClampIdle(exp: int, bounds: Bounds, now: int)
    requires InInt64((exp - Unix(now)) * SECOND)
    requires ValidateBounds(exp, bounds, now).Ok?
    ensures ClampToIdp(Some(bounds), now, exp) == exp
  {
  }

  /**
   * Any time later the clamp can still raise the running value, yet the minted expiry is the
   * same as without IdP bounds: having been accepted, the token cannot show them.
   */
  lemma AcceptedBoundsLeaveNoTrace(
    cfg: ExpiryConfig, exp: int, bounds: Bounds, binding: Option<int>, checked: int, minted: int)
    requires checked <= minted && InInt64((exp - Unix(checked)) * SECOND)
    requires ValidateBounds(exp, bounds, checked).Ok?
    ensures Expiration(cfg, exp, Some(bounds), binding, minted) == Expiration(cfg, exp, None, binding, minted)
  {
  }

  lemma MinLeavesNoTrace(cfg: ExpiryConfig, exp: int, idp: Option<Bounds>, binding: Option<int>, now: int)
    ensures Expiration(cfg, exp, idp, binding, now) == Expiration(cfg, exp, WithoutMin(idp), binding, now)
  {
  }

  /**
   * The whole chain, from the first check to minting: a token that was accepted is minted with
   * an expiry that the IdP bounds no longer influence, never past its own `exp`.
   */
  lemma FromAcceptanceToMinting(
    cfg: ExpiryConfig, issuedAt: int, exp: int, maxLifetime: int, skew: int, bounds: Bounds, binding: Option<int>,
    verified: int, checked: int, minted: int)
    requires verified <= checked <= minted
    requires 0 < maxLifetime <= INT64_MAX && 0 < skew
    requires Seconds(skew) + (Unix(checked) - Unix(verified)) <= INT64_MAX / SECOND
    requires ValidateTimes(issuedAt, exp, maxLifetime, skew, verified).Ok?
    requires ValidateBounds(exp, bounds, checked).Ok?
    ensures var r := Expiration(cfg, exp, Some(bounds), binding, minted);
      && r == Expiration(cfg, exp, None, binding, minted)
      && r <= exp <= Unix(verified) + Seconds(maxLifetime)
  {
  }

  /**
   * Minting from an `exp` other than the token's own stays under the token's, whatever is
   * configured and bound, exactly when that other one is no later.
   */
  lemma CeilingIff(supplied: int, exp: int, idp: Option<Bounds>)
    ensures (forall cfg: ExpiryConfig, binding: Option<int>, now: int ::
               Expiration(cfg, supplied, idp, binding, now) <= exp)
      <==> supplied <= exp
  {
    if supplied > exp {
      var long := Max(supplied + 1, 1) * SECOND;
      assert Expiration(ExpiryConfig(0, Bounds(0, long)), supplied, idp, Some(long), 0) == supplied;
    }
  }

  // ---- Bounds as documented: validation ---------------------------------------------------

  /** The documented bounds: each one that is set limits the remaining time on its side. */
  predicate DocumentedBounds(exp: int, bounds: Bounds, now: int) {
    var ttl := (exp - Unix(now)) * SECOND;
    (bounds.min > 0 ==> bounds.min <= ttl) && (bounds.max > 0 ==> ttl <= bounds.max)
  }

  predicate BoundsAsDocumented(bounds: Bounds, exp: int, now: int) {
    ValidateBounds(exp, bounds, now).Ok? <==> DocumentedBounds(exp, bounds, now)
  }

  /**
   * For the tokens that come to the bounds check within `gap` of the signature step, it means what
   * is documented exactly when both bounds are set or neither, or the lone minimum is longer than
   * any remaining time, or the lone maximum comes with a minimum below any.
   */
  lemma BoundsAsDocumentedIff(bounds: Bounds, maxLifetime: int, skew: int, gap: int)
    requires 0 < maxLifetime <= INT64_MAX && 0 < skew && 0 <= gap <= INT64_MAX
    ensures (forall issuedAt: int, exp: int, c: Clock
               | InTime(issuedAt, exp, maxLifetime, skew, c) && c.bounded - c.signed <= gap ::
               BoundsAsDocumented(bounds, exp, c.bounded))
      <==>
        || (bounds.min > 0 <==> bounds.max > 0)
        || (bounds.min > 0 && bounds.min > Seconds(maxLifetime) * SECOND)
        || (bounds.max > 0 && bounds.min <= -Unix(gap) * SECOND)
  {
    var s := 1_700_000_000;
    if bounds.min > 0 && bounds.max <= 0 && bounds.min <= Seconds(maxLifetime) * SECOND {
      var exp, c := s + Seconds(maxLifetime), Clock(s * SECOND, s * SECOND, s * SECOND);
      assert InTime(s, exp, maxLifetime, skew, c);
      assert !BoundsAsDocumented(bounds, exp, c.bounded);
    } else if bounds.min <= 0 && bounds.max > 0 && bounds.min > -Unix(gap) * SECOND {
      var c := Clock(s * SECOND, s * SECOND, s * SECOND + gap);
      LateClock(s, gap);
      assert InTime(s - 3_600, s, maxLifetime, skew, c);
      assert !BoundsAsDocumented(bounds, s, c.bounded);
    } else {
      forall issuedAt: int, exp: int, c: Clock
        | InTime(issuedAt, exp, maxLifetime, skew, c) && c.bounded - c.signed <= gap
        ensures BoundsAsDocumented(bounds, exp, c.bounded)
      {
        SignedLifetimeFits(issuedAt, exp, maxLifetime, skew, c);
        assert exp - Unix(c.bounded) >= -Unix(gap);
      }
    }
  }

  lemma LateClock(s: int, gap: int)
    requires 0 <= gap <= INT64_MAX
    ensures Unix(s * SECOND + gap) == s + Unix(gap) && Unix(gap) <= INT64_MAX / SECOND
  {
  }

  /** A minimum alone rejects every token at all times, since the unset maximum is compared too. */
  lemma MinimumAloneRejectsAll(bounds: Bounds, exp: int, now: int)
    requires bounds.min > 0 >= bounds.max
    ensures ValidateBounds(exp, bounds, now).Err?
  {
  }

  /** A maximum alone also rejects a token that expires between the signature step and the bounds check. */
  lemma MaximumAloneIff(issuedAt: int, exp: int, bounds: Bounds, maxLifetime: int, skew: int, c: Clock)
    requires 0 < maxLifetime <= INT64_MAX && 0 < skew
    requires InTime(issuedAt, exp, maxLifetime, skew, c) && bounds.min == 0 < bounds.max
    ensures BoundsAsDocumented(bounds, exp, c.bounded) <==> Unix(c.bounded) <= exp
  {
    SignedLifetimeFits(issuedAt, exp, maxLifetime, skew, c);
  }

  // ---- Bounds as documented: minting ------------------------------------------------------

  /** The settings for an IdP whose `token_bounds` are documented to override the NATS bounds. */
  function Overridden(cfg: ExpiryConfig, o: Bounds): ExpiryConfig {
    cfg.(nats := Bounds(if o.min > 0 then o.min else cfg.nats.min, if o.max > 0 then o.max else cfg.nats.max))
  }

  /** The same longest and shortest lifetime, as far as tokens that live at most `limit` can tell. */
  predicate SameReach(a: Bounds, b: Bounds, limit: int) {
    && Min(a.max, limit) == Min(b.max, limit)
    && Min(Clamp(a.min, a.max, 1), limit) == Min(Clamp(b.min, b.max, 1), limit)
  }

  /** An hour of NATS bounds and ten minutes for the IdP: the token is still minted for the hour. */
  lemma OverrideIsIgnored(now: int)
    ensures var cfg, o := ExpiryConfig(0, Bounds(60 * SECOND, 3_600 * SECOND)), Bounds(0, 600 * SECOND);
      && Expiration(cfg, Unix(now) + 7_200, None, None, now) == Unix(now) + 3_600
      && Expiration(Overridden(cfg, o), Unix(now) + 7_200, None, None, now) == Unix(now) + 600
  {
  }

  /** The longest remaining time, in seconds, of a token that is accepted. */
  function Longest(bounds: Bounds, maxLifetime: int): int {
    if bounds.min > 0 || bounds.max > 0 then Min(Seconds(maxLifetime), Unix(bounds.max)) else Seconds(maxLifetime)
  }

  predicate NoneAccepted(bounds: Bounds, maxLifetime: int) {
    (bounds.min > 0 || bounds.max > 0) && Longest(bounds, maxLifetime) * SECOND < bounds.min
  }

  lemma AcceptedReach(issuedAt: int, exp: int, maxLifetime: int, skew: int, bounds: Bounds, c: Clock)
    requires 0 < maxLifetime <= INT64_MAX && Accepted(issuedAt, exp, maxLifetime, skew, bounds, c)
    ensures !NoneAccepted(bounds, maxLifetime) && exp - Unix(c.bounded) <= Longest(bounds, maxLifetime)
  {
    SignedLifetimeFits(issuedAt, exp, maxLifetime, skew, c);
  }

  /** Unless none is, a token with the longest remaining time is accepted. */
  lemma LongestIsAccepted(s: int, maxLifetime: int, skew: int, bounds: Bounds)
    requires s >= 1 && 0 < maxLifetime <= INT64_MAX && 0 < skew && !NoneAccepted(bounds, maxLifetime)
    ensures Longest(bounds, maxLifetime) >= 0
    ensures Accepted(s, s + Longest(bounds, maxLifetime), maxLifetime, skew, bounds,
                     Clock(s * SECOND, s * SECOND, s * SECOND))
  {
    var n, c := Longest(bounds, maxLifetime), Clock(s * SECOND, s * SECOND, s * SECOND);
    assert Unix(s * SECOND) == s && n >= 0;
    assert InTime(s, s + n, maxLifetime, skew, c);
    SignedLifetimeFits(s, s + n, maxLifetime, skew, c);
  }

  /**
   * `calculateExpiration` never sees an IdP's `token_bounds`. Its result is the documented one for
   * every accepted token, under every binding, exactly when no token is accepted at all or
   * overriding the NATS bounds leaves the longest and the shortest lifetime in reach as they are.
   */
  lemma OverrideHonouredIff(cfg: ExpiryConfig, bounds: Bounds, o: Bounds, maxLifetime: int, skew: int)
    requires 0 < maxLifetime <= INT64_MAX && 0 < skew
    ensures (forall issuedAt: int, exp: int, c: Clock, binding: Option<int>, now: int
               | Accepted(issuedAt, exp, maxLifetime, skew, bounds, c) && c.bounded <= now ::
               Expiration(cfg, exp, Some(bounds), binding, now)
               == Expiration(Overridden(cfg, o), exp, Some(bounds), binding, now))
      <==>
        || NoneAccepted(bounds, maxLifetime)
        || SameReach(cfg.nats, Overridden(cfg, o).nats, Longest(bounds, maxLifetime) * SECOND)
  {
    var n, a, b := Longest(bounds, maxLifetime), cfg.nats, Overridden(cfg, o).nats;
    if NoneAccepted(bounds, maxLifetime) {
      forall issuedAt: int, exp: int, c: Clock
        ensures !Accepted(issuedAt, exp, maxLifetime, skew, bounds, c)
      {
        if Accepted(issuedAt, exp, maxLifetime, skew, bounds, c) {
          AcceptedReach(issuedAt, exp, maxLifetime, skew, bounds, c);
        }
      }
    } else if SameReach(a, b, n * SECOND) {
      forall issuedAt: int, exp: int, c: Clock, binding: Option<int>, now: int
        | Accepted(issuedAt, exp, maxLifetime, skew, bounds, c) && c.bounded <= now
        ensures Expiration(cfg, exp, Some(bounds), binding, now)
             == Expiration(Overridden(cfg, o), exp, Some(bounds), binding, now)
      {
        AcceptedReach(issuedAt, exp, maxLifetime, skew, bounds, c);
        LimitInSeconds(now, n);
        SameReachSameExpiration(cfg, Overridden(cfg, o), exp, Some(bounds), binding, now, n * SECOND);
      }
    } else {
      LongestIsAccepted(1, maxLifetime, skew, bounds);
      var binding, now := OverrideShows(a, b, n);
      var s := Unix(now);
      LongestIsAccepted(s, maxLifetime, skew, bounds);
      LimitInSeconds(now, n);
      BindingExpiration(cfg, s + n, Some(bounds), binding, now, n * SECOND);
      BindingExpiration(Overridden(cfg, o), s + n, Some(bounds), binding, now, n * SECOND);
      assert Clock(s * SECOND, s * SECOND, s * SECOND).bounded <= now;
    }
  }

  lemma LimitInSeconds(now: int, n: int)
    ensures Unix(now + n * SECOND) == Unix(now) + n
  {
  }

  /** A binding and an instant at which the override would have shown. */
  lemma OverrideShows(a: Bounds, b: Bounds, n: int) returns (binding: int, now: int)
    requires n >= 0 && !SameReach(a, b, n * SECOND)
    ensures binding > 0 && Unix(now) >= 1
    ensures Unix(now + Min(Clamp(a.min, a.max, binding), n * SECOND))
         != Unix(now + Min(Clamp(b.min, b.max, binding), n * SECOND))
  {
    binding := if Min(a.max, n * SECOND) != Min(b.max, n * SECOND) then Max(1, Max(a.max, b.max)) else 1;
    var p, q := Min(Clamp(a.min, a.max, binding), n * SECOND), Min(Clamp(b.min, b.max, binding), n * SECOND);
    assert p != q;
    now := (1_700_000_000 + n) * SECOND - Max(p, q);
  }

  /** With a positive binding and the latest `exp` allowed, what counts is one clamped lifetime. */
  lemma BindingExpiration(cfg: ExpiryConfig, exp: int, idp: Option<Bounds>, b: int, now: int, limit: int)
    requires b > 0 && exp == Unix(now + limit)
    ensures Expiration(cfg, exp, idp, Some(b), now) == Unix(now + Min(Clamp(cfg.nats.min, cfg.nats.max, b), limit))
  {
  }

  /** What is asked for is either no restriction of `exp` or some positive lifetime from now. */
  lemma RequestedReach(cfg: ExpiryConfig, exp: int, idp: Option<Bounds>, binding: Option<int>, now: int)
    returns (r: int)
    ensures r >= 1
    ensures Requested(cfg, exp, idp, binding, now) >= exp || Requested(cfg, exp, idp, binding, now) == Unix(now + r)
  {
    r := if binding.Some? && binding.value > 0 then binding.value
    else if cfg.rbacMax > 0 && Requested(cfg, exp, idp, binding, now) == Unix(now + cfg.rbacMax) then cfg.rbacMax
    else if idp.Some? && idp.value.max > 0 then idp.value.max else 1;
  }

  lemma SameReachSameExpiration(
    cfg: ExpiryConfig, cfg': ExpiryConfig, exp: int, idp: Option<Bounds>, binding: Option<int>, now: int, limit: int)
    requires SameReach(cfg.nats, cfg'.nats, limit) && cfg'.rbacMax == cfg.rbacMax && exp <= Unix(now + limit)
    ensures Expiration(cfg, exp, idp, binding, now) == Expiration(cfg', exp, idp, binding, now)
  {
    var r := RequestedReach(cfg, exp, idp, binding, now);
    var x := Requested(cfg, exp, idp, binding, now);
    RequestIgnoresNats(cfg, cfg', exp, idp, binding, now);
    ReachHides(cfg, cfg', exp, x, r, now, limit);
  }

  lemma RequestIgnoresNats(
    cfg: ExpiryConfig, cfg': ExpiryConfig, exp: int, idp: Option<Bounds>, binding: Option<int>, now: int)
    requires cfg'.rbacMax == cfg.rbacMax
    ensures Requested(cfg, exp, idp, binding, now) == Requested(cfg', exp, idp, binding, now)
  {
  }

  lemma ReachHides(cfg: ExpiryConfig, cfg': ExpiryConfig, exp: int, x: int, r: int, now: int, limit: int)
    requires SameReach(cfg.nats, cfg'.nats, limit) && exp <= Unix(now + limit)
    requires r >= 1 && (x >= exp || x == Unix(now + r))
    ensures Min(exp, ClampToNats(cfg, now, x)) == Min(exp, ClampToNats(cfg', now, x))
  {
    if x >= exp {
      CeilingOnly(cfg, exp, x, now);
      CeilingOnly(cfg', exp, x, now);
      LimitHides(exp, now, cfg.nats.max, cfg'.nats.max, limit);
    } else {
      LifetimeHides(cfg, cfg', exp, r, now, limit);
    }
  }

  lemma LifetimeHides(cfg: ExpiryConfig, cfg': ExpiryConfig, exp: int, r: int, now: int, limit: int)
    requires SameReach(cfg.nats, cfg'.nats, limit) && exp <= Unix(now + limit) && r >= 1
    ensures Min(exp, ClampToNats(cfg, now, Unix(now + r))) == Min(exp, ClampToNats(cfg', now, Unix(now + r)))
  {
    var c := ClampedLifetime(cfg, now, r);
    var d := ClampedLifetime(cfg', now, r);
    ReachDecides(cfg.nats, cfg'.nats, limit, r);
    LimitHides(exp, now, c, d, limit);
  }

  lemma ReachDecides(a: Bounds, b: Bounds, limit: int, r: int)
    requires SameReach(a, b, limit) && r >= 1
    ensures Min(Clamp(a.min, a.max, r), limit) == Min(Clamp(b.min, b.max, r), limit)
  {
  }

  lemma LimitHides(exp: int, now: int, c: int, d: int, limit: int)
    requires exp <= Unix(now + limit) && Min(c, limit) == Min(d, limit)
    ensures Min(exp, Unix(now + c)) == Min(exp, Unix(now + d))
  {
  }

  lemma CeilingOnly(cfg: ExpiryConfig, exp: int, x: int, now: int)
    requires x >= exp
    ensures Min(exp, ClampToNats(cfg, now, x)) == Min(exp, Unix(now + cfg.nats.max))
  {
  }

  lemma ClampedLifetime(cfg: ExpiryConfig, now: int, r: int) returns (c: int)
    ensures c == Clamp(cfg.nats.min, cfg.nats.max, r)
    ensures ClampToNats(cfg, now, Unix(now + r)) == Unix(now + c)
  {
    c := Clamp(cfg.nats.min, cfg.nats.max, r);
  }
}
