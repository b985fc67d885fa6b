/** Which setting decides the expiry of a minted token, and what it comes to (server.go). */
module ExpirationLaws {
  import opened Values
  import opened TokenExpiry

  /** `Unix` rounds down to whole seconds. */
  lemma UnixMeaning(instant: int)
    ensures Unix(instant) * 1_000_000_000 <= instant < (Unix(instant) + 1) * 1_000_000_000
  {
  }

  /** `r` is `x` kept between `lower` and `upper`, under the ceiling `exp`. */
  predicate Kept(x: int, lower: int, upper: int, exp: int, r: int) {
    && (exp <= lower ==> r == exp)
    && (lower < exp && x < lower ==> r == lower)
    && (lower < exp && lower <= x <= upper ==> r == if x < exp then x else exp)
    && (lower < exp && upper < x ==> r == if upper < exp then upper else exp)
  }

  /** A positive binding expiry counts from now, whatever the IdP and the RBAC default say. */
  lemma BindingDecides(cfg: ExpiryConfig, exp: int, idp: Option<Bounds>, b: int, now: int)
    requires b > 0 && cfg.nats.min <= cfg.nats.max
    ensures Kept(Unix(now + b), Unix(now + cfg.nats.min), Unix(now + cfg.nats.max), exp,
                 Expiration(cfg, exp, idp, Some(b), now))
  {
  }

  predicate Unset(binding: Option<int>) { binding.None? || binding.value <= 0 }

  predicate NoBounds(idp: Option<Bounds>) { idp.None? || (idp.value.min <= 0 && idp.value.max <= 0) }

  /** Without one, the RBAC default counts from now. */
  lemma RbacDefaultDecides(cfg: ExpiryConfig, exp: int, idp: Option<Bounds>, binding: Option<int>, now: int)
    requires Unset(binding) && NoBounds(idp) && cfg.rbacMax > 0 && cfg.nats.min <= cfg.nats.max
    ensures Kept(Unix(now + cfg.rbacMax), Unix(now + cfg.nats.min), Unix(now + cfg.nats.max), exp,
                 Expiration(cfg, exp, idp, binding, now))
  {
  }

  /** Without either, what is left is the maximum of the IdP, or else only the NATS bounds. */
  lemma IdpMaximumDecides(cfg: ExpiryConfig, exp: int, idp: Bounds, binding: Option<int>, now: int)
    requires Unset(binding) && cfg.rbacMax <= 0 && idp.min <= 0 < idp.max && cfg.nats.min <= cfg.nats.max
    ensures Kept(Unix(now + idp.max), Unix(now + cfg.nats.min), Unix(now + cfg.nats.max), exp,
                 Expiration(cfg, exp, Some(idp), binding, now))
  {
  }

  lemma NatsMaximumDecides(cfg: ExpiryConfig, exp: int, idp: Option<Bounds>, binding: Option<int>, now: int)
    requires Unset(binding) && NoBounds(idp) && cfg.rbacMax <= 0 && cfg.nats.min <= cfg.nats.max
    ensures Expiration(cfg, exp, idp, binding, now)
         == if exp < Unix(now + cfg.nats.max) then exp else Unix(now + cfg.nats.max)
  {
  }

  /** With an RBAC default and an IdP maximum, the shorter of the two counts. */
  lemma ShorterDecides(cfg: ExpiryConfig, exp: int, idp: Bounds, binding: Option<int>, now: int)
    requires Unset(binding) && cfg.rbacMax > 0 && idp.min <= 0 < idp.max && cfg.nats.min <= cfg.nats.max
    ensures Kept(Unix(now + if idp.max < cfg.rbacMax then idp.max else cfg.rbacMax),
                 Unix(now + cfg.nats.min), Unix(now + cfg.nats.max), exp,
                 Expiration(cfg, exp, Some(idp), binding, now))
  {
  }

  /** NATS bounds that cross leave only the maximum. */
  lemma CrossedBounds(cfg: ExpiryConfig, exp: int, idp: Option<Bounds>, binding: Option<int>, now: int)
    requires cfg.nats.max <= cfg.nats.min
    ensures Expiration(cfg, exp, idp, binding, now)
         == if exp < Unix(now + cfg.nats.max) then exp else Unix(now + cfg.nats.max)
  {
  }

  /** The RBAC default is a cap for every IdP, below which only the NATS minimum can lift. */
  lemma RbacDefaultCaps(cfg: ExpiryConfig, exp: int, idp: Option<Bounds>, binding: Option<int>, now: int)
    requires Unset(binding) && cfg.rbacMax > 0
    ensures Expiration(cfg, exp, idp, binding, now) <= Unix(now + cfg.rbacMax)
         || Expiration(cfg, exp, idp, binding, now) <= Unix(now + cfg.nats.min)
  {
  }

  /** An hour from RBAC under a day from NATS: a token of eight hours is minted for the hour. */
  lemma DefaultOfAnHour(now: int)
    ensures var cfg := ExpiryConfig(3_600 * SECOND, Bounds(60 * SECOND, 86_400 * SECOND));
      Expiration(cfg, Unix(now) + 28_800, None, Some(0), now) == Unix(now) + 3_600
  {
  }
}
