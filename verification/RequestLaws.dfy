/** When a request with verified claims is granted, and what it is refused with (auth_callback.go). */
module RequestLaws {
  import opened Values
  import opened MatchCriteria
  import opened RoleCollation
  import opened RoleCollationLaws
  import opened RoleBindings
  import opened SelectionLaws
  import opened AuthRequest
  import TokenExpiry

  /** The first account of the name. */
  ghost predicate Lists(accounts: seq<Account>, name: string, account: Account) {
    exists i | 0 <= i < |accounts| ::
      accounts[i] == account && account.name == name && forall j | 0 <= j < i :: accounts[j].name != name
  }

  lemma {:induction false} FindAccountIsFirst(accounts: seq<Account>, name: string)
    ensures FindAccount(accounts, name).None? <==> forall a | a in accounts :: a.name != name
    ensures FindAccount(accounts, name).Some? ==> Lists(accounts, name, FindAccount(accounts, name).value)
  {
    if accounts != [] && accounts[0].name != name {
      var rest := accounts[1..];
      FindAccountIsFirst(rest, name);
      assert accounts == [accounts[0]] + rest;
      if FindAccount(accounts, name).Some? {
        var a := FindAccount(accounts, name).value;
        var i :| 0 <= i < |rest| && rest[i] == a && a.name == name && forall j | 0 <= j < i :: rest[j].name != name;
        assert accounts[i + 1] == a && forall j | 1 <= j < i + 1 :: accounts[j] == rest[j - 1];
      }
    }
  }

  /** What a request for which binding `b` decides comes to. */
  ghost predicate ComesTo(
    cfg: RequestConfig, accounts: seq<Account>, v: Verified, now: int, b: Binding, r: Result<UserClaims, Failure>)
  {
    match Collate(cfg.rbac.roles, b.roles)
    case Err(name) => r == Err(NoBinding(UnknownRole(name)))
    case Ok(collated) =>
      if b.account == "" then r == Err(NoAccountName)
      else if forall a | a in accounts :: a.name != b.account then r == Err(UnknownAccount)
      else
        && r.Ok?
        && r.value.account == b.account
        && Lists(accounts, b.account, Account(b.account, r.value.issuerAccount))
        && r.value.collated == collated
        && r.value.expires == TokenExpiry.Expiration(cfg.expiry, v.exp, Some(v.bounds), Some(b.tokenMaxExpiry), now)
  }

  lemma AssembledComesTo(
    cfg: RequestConfig, accounts: seq<Account>, v: Verified, now: int, b: Binding)
    ensures ComesTo(cfg, accounts, v, now, b, Assemble(cfg, accounts, v, now, Decision(cfg.rbac, b)))
  {
    FindAccountIsFirst(accounts, b.account);
  }

  /**
   * A request comes to what its deciding binding comes to; without one it is refused with the
   * denial of the strategy.
   */
  lemma RequestMeaning(
    cfg: RequestConfig, engine: ExprEngine, programs: map<string, Program>, accounts: seq<Account>, v: Verified,
    now: int, r: Result<UserClaims, Failure>)
    requires Built(cfg, engine, programs, accounts, v, now, r)
    ensures var e := Eval(engine, programs, v.context);
      && (forall i: nat | DecidedBy(cfg.rbac, e, i) ::
            i < |cfg.rbac.bindings| && ComesTo(cfg, accounts, v, now, cfg.rbac.bindings[i], r))
      && ((forall i: nat :: !DecidedBy(cfg.rbac, e, i)) ==>
            r == Err(NoBinding(if cfg.rbac.strategy == "strict" then NoStrictMatch else NoBestMatch)))
  {
    var e := Eval(engine, programs, v.context);
    var out :| LookupOutcome(cfg.rbac, e, out) && r == Assemble(cfg, accounts, v, now, out);
    DecidedOutcome(cfg.rbac, e, out);
    forall i: nat | DecidedBy(cfg.rbac, e, i)
      ensures i < |cfg.rbac.bindings| && ComesTo(cfg, accounts, v, now, cfg.rbac.bindings[i], r)
    {
      AssembledComesTo(cfg, accounts, v, now, cfg.rbac.bindings[i]);
    }
  }

  /** Binding `i` decides, its roles are configured, and its account has a name that is listed. */
  ghost predicate Mints(rbac: Rbac, e: Eval, accounts: seq<Account>, i: nat) {
    && DecidedBy(rbac, e, i) && i < |rbac.bindings|
    && (forall n | n in rbac.bindings[i].roles :: exists r :: r in rbac.roles && r.name == n)
    && rbac.bindings[i].account != ""
    && exists a :: a in accounts && a.name == rbac.bindings[i].account
  }

  /** A request is granted if and only if some binding mints, and then with that binding's claims. */
  lemma GrantedIff(
    cfg: RequestConfig, engine: ExprEngine, programs: map<string, Program>, accounts: seq<Account>, v: Verified,
    now: int, r: Result<UserClaims, Failure>)
    requires Built(cfg, engine, programs, accounts, v, now, r)
    ensures r.Ok? <==> exists i: nat :: Mints(cfg.rbac, Eval(engine, programs, v.context), accounts, i)
  {
    var e := Eval(engine, programs, v.context);
    RequestMeaning(cfg, engine, programs, accounts, v, now, r);
    if i: nat :| DecidedBy(cfg.rbac, e, i) {
      var b := cfg.rbac.bindings[i];
      assert ComesTo(cfg, accounts, v, now, b, r);
      CollateFailsIff(cfg.rbac.roles, b.roles);
      if r.Ok? {
        assert Mints(cfg.rbac, e, accounts, i);
      } else if j: nat :| Mints(cfg.rbac, e, accounts, j) {
        OneDecides(cfg.rbac, e, i, j);
      }
    }
  }

  lemma OneDecides(rbac: Rbac, e: Eval, i: nat, j: nat)
    requires DecidedBy(rbac, e, i) && DecidedBy(rbac, e, j)
    ensures i == j
  {
    if rbac.strategy == "strict" || NoneBroken(rbac, e) {
      SelectionUnique(rbac, e, i, j);
    }
  }

  /** Each refusal has its own cause. */
  lemma RefusedIff(
    cfg: RequestConfig, engine: ExprEngine, programs: map<string, Program>, accounts: seq<Account>, v: Verified,
    now: int, r: Result<UserClaims, Failure>, i: nat)
    requires Built(cfg, engine, programs, accounts, v, now, r)
    requires DecidedBy(cfg.rbac, Eval(engine, programs, v.context), i)
    ensures i < |cfg.rbac.bindings|
    ensures var b := cfg.rbac.bindings[i];
      && (r.Err? && r.error.NoBinding? <==> exists n :: n in b.roles && forall r | r in cfg.rbac.roles :: r.name != n)
      && (r == Err(NoAccountName) <==>
            (forall n | n in b.roles :: exists r :: r in cfg.rbac.roles && r.name == n) && b.account == "")
      && (r == Err(UnknownAccount) <==>
            && (forall n | n in b.roles :: exists r :: r in cfg.rbac.roles && r.name == n)
            && b.account != "" && forall a | a in accounts :: a.name != b.account)
  {
    RequestMeaning(cfg, engine, programs, accounts, v, now, r);
    CollateFailsIff(cfg.rbac.roles, cfg.rbac.bindings[i].roles);
  }

  /** With the configuration as it is rendered: one that cannot be rendered is a failure of its own. */
  lemma ConcludedIff(
    rendered: Option<RequestConfig>, engine: ExprEngine, programs: map<string, Program>, accounts: seq<Account>,
    v: Verified, now: int, r: Result<UserClaims, Failure>)
    requires Concluded(rendered, engine, programs, accounts, v, now, r)
    ensures r == Err(BadConfig) <==> rendered.None?
    ensures r.Ok? <==>
      rendered.Some? && exists i: nat :: Mints(rendered.value.rbac, Eval(engine, programs, v.context), accounts, i)
    ensures r != Err(NoToken) && r != Err(NotVerified)
  {
    if rendered.Some? {
      GrantedIff(rendered.value, engine, programs, accounts, v, now, r);
    }
  }

  // ---- What is counted ------------------------------------------------------------------------

  /** Only claims count as a success; no verifier and no binding as refused; the rest has failed. */
  lemma StatusMeaning(r: Result<UserClaims, Failure>)
    ensures StatusOf(r) == Success <==> r.Ok?
    ensures StatusOf(r) == Refused <==> r.Err? && (r.error == NotVerified || r.error.NoBinding?)
  {
  }

  lemma CountedMeaning(total: map<Status, nat>, status: Status, other: Status)
    ensures status in Counted(total, status)
    ensures Counted(total, status)[status] == (if status in total then total[status] else 0) + 1
    ensures other != status ==> (other in Counted(total, status) <==> other in total)
    ensures other != status && other in total ==> Counted(total, status)[other] == total[other]
  {
  }
}
