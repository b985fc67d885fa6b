/**
 * One authentication request from token to minted claims, with its metrics
 * (auth_callback.go; the account list is that of config.go).
 */
module AuthRequest {
  import opened Values
  import opened MatchCriteria
  import opened RoleCollation
  import opened RoleBindings
  import opened RoleBindingLaws
  import opened SelectionLaws
  import TokenExpiry

  // ---- Accounts ----------------------------------------------------------------------------

  datatype Account = Account(name: string, publicKey: string)

  function FindAccount(accounts: seq<Account>, name: string): Option<Account> {
    if accounts == [] then None
    else if accounts[0].name == name then Some(accounts[0])
    else FindAccount(accounts[1..], name)
  }

  /** The accounts found on disk that the configuration does not define itself. */
  function Unlisted(configured: seq<Account>, discovered: seq<Account>): seq<Account> {
    if discovered == [] then []
    else
      var n := |discovered| - 1;
      Unlisted(configured, discovered[..n])
        + if exists c | c in configured :: c.name == discovered[n].name then [] else [discovered[n]]
  }

  /** The account merge in `GetConfig`. */
  method MergeAccounts(configured: seq<Account>, discovered: seq<Account>) returns (accounts: seq<Account>)
    ensures accounts == configured + Unlisted(configured, discovered)
  {
    accounts := configured;
    var existing := set c | c in configured :: c.name;
    for i := 0 to |discovered|
      invariant accounts == configured + Unlisted(configured, discovered[..i])
    {
      assert discovered[..i + 1][..i] == discovered[..i];
      if discovered[i].name in existing {
        continue;
      }
      accounts := accounts + [discovered[i]];
    }
    assert discovered[..|discovered|] == discovered;
  }

  method LookupAccountInfo(accounts: seq<Account>, name: string) returns (account: Option<Account>)
    ensures account == FindAccount(accounts, name)
  {
    for i := 0 to |accounts|
      invariant FindAccount(accounts, name) == FindAccount(accounts[i..], name)
    {
      if accounts[i].name == name {
        return Some(accounts[i]);
      }
    }
    return None;
  }

  lemma {:induction false} FindInJoin(a: seq<Account>, b: seq<Account>, name: string)
    ensures FindAccount(a + b, name) == if FindAccount(a, name).Some? then FindAccount(a, name) else FindAccount(b, name)
  {
    if a == [] {
      assert a + b == b;
    } else {
      assert (a + b)[1..] == a[1..] + b;
      FindInJoin(a[1..], b, name);
    }
  }

  lemma {:induction false} FindListed(accounts: seq<Account>, name: string)
    ensures FindAccount(accounts, name).Some? <==> exists a :: a in accounts && a.name == name
    ensures FindAccount(accounts, name).Some? ==>
      FindAccount(accounts, name).value in accounts && FindAccount(accounts, name).value.name == name
  {
    if accounts != [] && accounts[0].name != name {
      FindListed(accounts[1..], name);
      assert accounts == [accounts[0]] + accounts[1..];
    }
  }

  lemma {:induction false} FindUnlisted(configured: seq<Account>, discovered: seq<Account>, name: string)
    requires !exists c :: c in configured && c.name == name
    ensures FindAccount(Unlisted(configured, discovered), name) == FindAccount(discovered, name)
  {
    if discovered != [] {
      var n := |discovered| - 1;
      var init, last := discovered[..n], discovered[n];
      assert discovered == init + [last];
      FindUnlisted(configured, init, name);
      FindInJoin(init, [last], name);
      var kept := if exists c | c in configured :: c.name == last.name then [] else [last];
      FindInJoin(Unlisted(configured, init), kept, name);
      assert [last][1..] == [];
      assert FindAccount(kept, name) == FindAccount([last], name);
    }
  }

  /** A configured account hides a discovered one of its name; any other is found as discovered. */
  lemma ConfiguredAccountWins(configured: seq<Account>, discovered: seq<Account>, name: string)
    ensures FindAccount(configured + Unlisted(configured, discovered), name) ==
            if FindAccount(configured, name).Some? then FindAccount(configured, name)
            else FindAccount(discovered, name)
  {
    FindInJoin(configured, Unlisted(configured, discovered), name);
    FindListed(configured, name);
    if FindAccount(configured, name).None? {
      FindUnlisted(configured, discovered, name);
    }
  }

  // ---- Building the user's claims -----------------------------------------------------------

  /** A token that an IdP verifier accepted, enriched: the claims to look up, `exp`, its bounds. */
  datatype Verified = Verified(context: Object, exp: int, bounds: TokenExpiry.Bounds)

  /** The configuration rendered for one request. */
  datatype RequestConfig = RequestConfig(rbac: Rbac, expiry: TokenExpiry.ExpiryConfig)

  datatype UserClaims = UserClaims(account: string, issuerAccount: string, expires: int, collated: Collated)

  datatype Failure = NoToken | NotVerified | BadConfig | NoBinding(error: LookupError) | NoAccountName | UnknownAccount

  /** What verification and enrichment come to: no verifier accepts, a panic, or accepted claims. */
  datatype Identity = Unverified | Crashed | Identified(v: Verified)

  /** A request is answered, unless reading its claims panicked; nothing recovers, so the process ends. */
  datatype Reply = Panicked | Answered(result: Result<UserClaims, Failure>)

  datatype Status = Success | Refused | Failed

  function StatusOf(r: Result<UserClaims, Failure>): Status {
    match r
    case Ok(_) => Success
    case Err(NotVerified) => Refused
    case Err(NoBinding(_)) => Refused
    case Err(_) => Failed
  }

  /** What the outcome of the binding lookup turns into. */
  function Assemble(cfg: RequestConfig, accounts: seq<Account>, v: Verified, now: int, out: Outcome)
    : Result<UserClaims, Failure>
  {
    match out
    case Denied(error) => Err(NoBinding(error))
    case Granted(account, collated, maxExpiry) =>
      if account == "" then Err(NoAccountName)
      else
        match FindAccount(accounts, account)
        case None => Err(UnknownAccount)
        case Some(info) =>
          Ok(UserClaims(account, info.publicKey,
            TokenExpiry.Expiration(cfg.expiry, v.exp, Some(v.bounds), Some(maxExpiry), now), collated))
  }

  ghost predicate Built(
    cfg: RequestConfig, engine: ExprEngine, programs: map<string, Program>, accounts: seq<Account>, v: Verified, now: int,
    r: Result<UserClaims, Failure>)
  {
    exists out ::
      LookupOutcome(cfg.rbac, Eval(engine, programs, v.context), out) && r == Assemble(cfg, accounts, v, now, out)
  }

  /** With `rendered`, the configuration for the claims of `v`, the request comes to `r`. */
  ghost predicate Concluded(
    rendered: Option<RequestConfig>, engine: ExprEngine, programs: map<string, Program>, accounts: seq<Account>,
    v: Verified, now: int, r: Result<UserClaims, Failure>)
  {
    match rendered
    case None => r == Err(BadConfig)
    case Some(cfg) => Built(cfg, engine, programs, accounts, v, now, r)
  }

  method BuildUserClaims(
    rendered: Option<RequestConfig>, engine: ExprEngine, cache: ExprCache?, accounts: seq<Account>, v: Verified, now: int)
    returns (r: Result<UserClaims, Failure>)
    modifies cache
    ensures Concluded(rendered, engine, old(Programs(cache)), accounts, v, now, r)
  {
    if rendered.None? {
      return Err(BadConfig);
    }
    var cfg := rendered.value;
    var config := new Config(cfg.rbac, engine, cache);
    var out := config.LookupUserAccount(v.context);
    if out.Denied? {
      return Err(NoBinding(out.error));
    }
    if out.account == "" {
      return Err(NoAccountName);
    }
    var info := LookupAccountInfo(accounts, out.account);
    if info.None? {
      return Err(UnknownAccount);
    }
    var expires := TokenExpiry.CalculateExpiration(cfg.expiry, v.exp, Some(v.bounds), Some(out.tokenMaxExpiry), now);
    return Ok(UserClaims(out.account, info.value.publicKey, expires, out.collated));
  }

  // ---- The request ----------------------------------------------------------------------------

  class Metrics {
    var inFlight: int
    var total: map<Status, nat>
    var minted: nat

    constructor ()
      ensures inFlight == 0 && minted == 0 && total == map[Success := 0, Refused := 0, Failed := 0]
    {
      inFlight, minted := 0, 0;
      total := map[Success := 0, Refused := 0, Failed := 0];
    }
  }

  function Counted(total: map<Status, nat>, status: Status): map<Status, nat> {
    total[status := 1 + if status in total then total[status] else 0]
  }

  method RecordResult(m: Metrics?, status: Status)
    modifies m
    ensures m != null ==> m.total == Counted(old(m.total), status)
    ensures m != null ==> m.inFlight == old(m.inFlight) && m.minted == old(m.minted)
  {
    if m != null {
      m.total := Counted(m.total, status);
    }
  }

  /**
   * `handleAuthRequest`: every answer records exactly one result, of the status that goes with it,
   * leaves the in-flight gauge as it was, and counts a minted token just for a success. A panic
   * records nothing; the deferred decrement still restores the gauge on the way out of the process.
   */
  method HandleAuthRequest(
    m: Metrics?, token: string, identity: Identity, render: Object -> Option<RequestConfig>,
    engine: ExprEngine, cache: ExprCache?, accounts: seq<Account>, now: int)
    returns (r: Reply)
    modifies m, cache
    ensures token == "" ==> r == Answered(Err(NoToken))
    ensures token != "" && identity.Unverified? ==> r == Answered(Err(NotVerified))
    ensures token != "" && identity.Crashed? ==> r == Panicked
    ensures token != "" && identity.Identified? ==>
      && r.Answered?
      && Concluded(render(identity.v.context), engine, old(Programs(cache)), accounts, identity.v, now, r.result)
    ensures m != null ==>
      && m.inFlight == old(m.inFlight)
      && m.total == (if r.Answered? then Counted(old(m.total), StatusOf(r.result)) else old(m.total))
      && m.minted == old(m.minted) + if r.Answered? && r.result.Ok? then 1 else 0
  {
    if m != null {
      m.inFlight := m.inFlight + 1;
    }
    if token == "" {
      r := Answered(Err(NoToken));
      RecordResult(m, Failed);
    } else {
      match identity
      case Unverified =>
        r := Answered(Err(NotVerified));
        RecordResult(m, Refused);
      case Crashed =>
        r := Panicked;
      case Identified(v) =>
        var result := BuildUserClaims(render(v.context), engine, cache, accounts, v, now);
        r := Answered(result);
        match result {
          case Ok(_) =>
            RecordResult(m, Success);
            if m != null {
              m.minted := m.minted + 1;
            }
          case Err(error) => RecordResult(m, if error.NoBinding? then Refused else Failed);
        }
    }
    if m != null {
      m.inFlight := m.inFlight - 1;
    }
  }

  // ---- What a grant means ------------------------------------------------------------------------

  /**
   * Claims as binding `b` has them: its account, which is listed and whose key they carry, its
   * roles collated, and an expiry that its own setting decides.
   */
  predicate ClaimsOf(
    cfg: RequestConfig, accounts: seq<Account>, exp: int, idp: Option<TokenExpiry.Bounds>, now: int, b: Binding,
    claims: UserClaims)
  {
    && claims.account == b.account != ""
    && FindAccount(accounts, b.account) == Some(Account(claims.account, claims.issuerAccount))
    && Collate(cfg.rbac.roles, b.roles) == Ok(claims.collated)
    && claims.expires == TokenExpiry.Expiration(cfg.expiry, exp, idp, Some(b.tokenMaxExpiry), now)
  }

  /**
   * Minted claims come from the one selected binding, and expire under both the token's and the
   * NATS ceiling.
   */
  lemma MintedClaimsAreJustified(
    cfg: RequestConfig, engine: ExprEngine, programs: map<string, Program>, accounts: seq<Account>, v: Verified,
    now: int, claims: UserClaims)
    returns (i: nat)
    requires Built(cfg, engine, programs, accounts, v, now, Ok(claims))
    ensures i < |cfg.rbac.bindings| && SelectedAt(cfg.rbac, Eval(engine, programs, v.context), i)
    ensures ClaimsOf(cfg, accounts, v.exp, Some(v.bounds), now, cfg.rbac.bindings[i], claims)
    ensures Account(claims.account, claims.issuerAccount) in accounts
    ensures claims.expires <= v.exp && claims.expires <= TokenExpiry.Unix(now + cfg.expiry.nats.max)
  {
    var e := Eval(engine, programs, v.context);
    var out :| LookupOutcome(cfg.rbac, e, out) && Assemble(cfg, accounts, v, now, out) == Ok(claims);
    i := GrantedSelection(cfg.rbac, e, out);
    FindListed(accounts, claims.account);
    TokenExpiry.ExpirationWithinBounds(cfg.expiry, v.exp, Some(v.bounds), Some(out.tokenMaxExpiry), now);
  }
}
