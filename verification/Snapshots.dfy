/**
 * Requests and reloads side by side (config_watcher.go, auth_callback.go): the published state
 * is one pointer, stored by a serialized reload and loaded once by each request.
 */
module Snapshots {
  import opened Values
  import opened LiveState

  /** How far the reload that holds the lock has come; it stores only at the very end. */
  datatype Progress =
    | Idle
    | HaveManager(manager: Manager)
    | HaveConfig(manager: Manager, config: ServiceConfig)
    | HaveVerifiers(manager: Manager, config: ServiceConfig, verifiers: seq<nat>)

  datatype Part = ConfigPart | ManagerPart | VerifiersPart | SubjectPart

  /** What a request finds when it turns to one part of the state. */
  datatype Content =
    | TheConfig(config: ServiceConfig) | TheManager(manager: Manager)
    | TheVerifiers(verifiers: seq<nat>) | TheSubject(subject: string)

  function PartOf(s: LiveState, part: Part): Content {
    match part
    case ConfigPart => TheConfig(s.config)
    case ManagerPart => TheManager(s.manager)
    case VerifiersPart => TheVerifiers(s.verifiers)
    case SubjectPart => TheSubject(s.auditSubject)
  }

  datatype Use = Use(part: Part, content: Content)

  /** A request holds the state it loaded; `version` records which that was in the history. */
  datatype Request = Request(state: LiveState, version: nat, uses: seq<Use>)

  /** `published` is the history of the pointer; its last element is the current state. */
  datatype System = System(published: seq<LiveState>, reload: Progress, requests: seq<Request>)

  datatype Label =
    | BeginReload(manager: Option<Manager>) | ValidateConfig | BuildVerifiers(setUp: nat -> bool) | StoreState
    | BeginRequest | UsePart(request: nat, part: Part)

  predicate Enabled(s: System, l: Label) {
    match l
    case BeginReload(_) => s.reload.Idle?
    case ValidateConfig => s.reload.HaveManager?
    case BuildVerifiers(_) => s.reload.HaveConfig?
    case StoreState => s.reload.HaveVerifiers?
    case BeginRequest => s.published != []
    case UsePart(r, _) => r < |s.requests|
  }

  /** Steps may have several outcomes only through their labels; a failure returns to idle. */
  ghost predicate Next(render: Render, s: System, l: Label, t: System) {
    && Enabled(s, l)
    && match l
       case BeginReload(m) => t == s.(reload := if m.Some? then HaveManager(m.value) else Idle)
       case ValidateConfig =>
         var c := render(s.reload.manager);
         t == s.(reload := if c.None? then Idle else
           HaveConfig(s.reload.manager, c.value.(serviceName := Masked(c.value.serviceName))))
       case BuildVerifiers(setUp) =>
         var idps := s.reload.config.idps;
         if exists i: nat :: Fatal(idps, setUp, i) then t == s.(reload := Idle)
         else
           && t.reload.HaveVerifiers?
           && t == s.(reload := HaveVerifiers(s.reload.manager, s.reload.config, t.reload.verifiers))
           && Increasing(t.reload.verifiers)
           && forall i: nat :: i in t.reload.verifiers <==> i < |idps| && setUp(i)
       case StoreState =>
         var r := s.reload;
         var state := LiveState(r.config, r.manager, r.verifiers, r.config.serviceName + AUDIT_SUFFIX);
         t == s.(published := s.published + [state], reload := Idle)
       case BeginRequest =>
         var current := s.published[|s.published| - 1];
         t == s.(requests := s.requests + [Request(current, |s.published| - 1, [])])
       case UsePart(r, part) =>
         var q := s.requests[r];
         t == s.(requests := s.requests[r := q.(uses := q.uses + [Use(part, PartOf(q.state, part))])])
  }

  /** A run: systems `0..n` with the label that leads from each to the next. */
  ghost predicate IsRun(render: Render, systems: seq<System>, labels: seq<Label>) {
    && |systems| == |labels| + 1
    && forall i | 0 <= i < |labels| :: Next(render, systems[i], labels[i], systems[i + 1])
  }

  ghost predicate Initial(render: Render, s: System) {
    |s.published| == 1 && WellFormed(render, s.published[0]) && s.reload.Idle? && s.requests == []
  }

  // ---- What every step keeps -----------------------------------------------------------------

  ghost predicate ReloadInv(render: Render, r: Progress) {
    match r
    case Idle => true
    case HaveManager(_) => true
    case HaveConfig(m, c) => RenderedBy(render, m, c)
    case HaveVerifiers(m, c, v) =>
      && RenderedBy(render, m, c)
      && Increasing(v)
      && (forall i | i in v :: i < |c.idps|)
      && (forall i: nat | i < |c.idps| && i !in v :: c.idps[i].ignoreSetupError)
  }

  ghost predicate RenderedBy(render: Render, m: Manager, c: ServiceConfig) {
    render(m).Some? && c == render(m).value.(serviceName := Masked(render(m).value.serviceName))
  }

  ghost predicate PublishedInv(render: Render, s: System) {
    s.published != [] && forall p | p in s.published :: WellFormed(render, p)
  }

  /** All that a request has used belongs to the one state that was current when it began. */
  ghost predicate OneVersion(published: seq<LiveState>, q: Request) {
    && q.version < |published|
    && q.state == published[q.version]
    && forall u | u in q.uses ::
         match u.part
         case ConfigPart => u.content == TheConfig(published[q.version].config)
         case ManagerPart => u.content == TheManager(published[q.version].manager)
         case VerifiersPart => u.content == TheVerifiers(published[q.version].verifiers)
         case SubjectPart => u.content == TheSubject(published[q.version].auditSubject)
  }

  ghost predicate RequestsInv(s: System) {
    && (forall q | q in s.requests :: OneVersion(s.published, q))
    && (forall i, j | 0 <= i < j < |s.requests| :: s.requests[i].version <= s.requests[j].version)
  }

  ghost predicate Inv(render: Render, s: System) {
    ReloadInv(render, s.reload) && PublishedInv(render, s) && RequestsInv(s)
  }

  lemma StoreKeepsInv(render: Render, s: System, t: System)
    requires Inv(render, s) && Next(render, s, StoreState, t)
    ensures Inv(render, t)
  {
    forall q | q in t.requests
      ensures OneVersion(t.published, q)
    {
      assert OneVersion(s.published, q);
    }
  }

  lemma BeginKeepsInv(render: Render, s: System, t: System)
    requires Inv(render, s) && Next(render, s, BeginRequest, t)
    ensures Inv(render, t)
  {
    forall i | 0 <= i < |s.requests|
      ensures s.requests[i].version < |s.published|
    {
      assert OneVersion(s.published, s.requests[i]);
    }
  }

  lemma UseKeepsInv(render: Render, s: System, r: nat, part: Part, t: System)
    requires Inv(render, s) && Next(render, s, UsePart(r, part), t)
    ensures Inv(render, t)
  {
    var q := s.requests[r];
    assert OneVersion(s.published, q);
    assert OneVersion(t.published, t.requests[r]);
  }

  lemma NextKeepsInv(render: Render, s: System, l: Label, t: System)
    requires Inv(render, s) && Next(render, s, l, t)
    ensures Inv(render, t)
    ensures s.published <= t.published
  {
    match l
    case StoreState => StoreKeepsInv(render, s, t);
    case BeginRequest => BeginKeepsInv(render, s, t);
    case UsePart(r, part) => UseKeepsInv(render, s, r, part, t);
    case BuildVerifiers(setUp) =>
      var idps := s.reload.config.idps;
      if !exists i: nat :: Fatal(idps, setUp, i) {
        assert forall i: nat | i < |idps| && !setUp(i) :: !Fatal(idps, setUp, i);
      }
    case _ =>
  }

  lemma {:induction false} RunKeepsInv(render: Render, systems: seq<System>, labels: seq<Label>, n: nat)
    requires IsRun(render, systems, labels) && Initial(render, systems[0]) && n < |systems|
    ensures Inv(render, systems[n])
  {
    if n > 0 {
      RunKeepsInv(render, systems, labels, n - 1);
      NextKeepsInv(render, systems[n - 1], labels[n - 1], systems[n]);
    }
  }

  lemma {:induction false} HistoryGrows(render: Render, systems: seq<System>, labels: seq<Label>, m: nat, n: nat)
    requires IsRun(render, systems, labels) && Initial(render, systems[0]) && m <= n < |systems|
    ensures systems[m].published <= systems[n].published
    decreases n - m
  {
    if m < n {
      HistoryGrows(render, systems, labels, m, n - 1);
      RunKeepsInv(render, systems, labels, n - 1);
      NextKeepsInv(render, systems[n - 1], labels[n - 1], systems[n]);
    }
  }

  // ---- The reload as one call ------------------------------------------------------------------

  /** What `ConfigWatcher.Reload` publishes on success is what its four steps publish here. */
  lemma ReloadIsFourSteps(render: Render, s: System, m: Manager, setUp: nat -> bool, state: LiveState)
    returns (systems: seq<System>, labels: seq<Label>)
    requires s.reload.Idle? && WellFormed(render, state) && state.manager == m
    requires forall i: nat :: !Fatal(render(m).value.idps, setUp, i)
    requires forall i: nat :: i in state.verifiers <==> i < |state.config.idps| && setUp(i)
    ensures IsRun(render, systems, labels) && systems[0] == s && |labels| == 4 && labels[3] == StoreState
    ensures systems[4] == s.(published := s.published + [state])
  {
    var read := s.(reload := HaveManager(m));
    var validated := s.(reload := HaveConfig(m, state.config));
    var built := s.(reload := HaveVerifiers(m, state.config, state.verifiers));
    systems := [s, read, validated, built, s.(published := s.published + [state])];
    labels := [BeginReload(Some(m)), ValidateConfig, BuildVerifiers(setUp), StoreState];
    assert Next(render, read, ValidateConfig, validated);
    assert Next(render, validated, BuildVerifiers(setUp), built);
    assert Next(render, built, StoreState, systems[4]);
  }

  /** Its failures are the steps that lead back to idle, with nothing published. */
  lemma FailedReloadIsSteps(render: Render, s: System, loaded: Option<Manager>, setUp: nat -> bool)
    returns (systems: seq<System>, labels: seq<Label>)
    requires s.reload.Idle?
    requires loaded.None? || render(loaded.value).None? || exists i: nat :: Fatal(render(loaded.value).value.idps, setUp, i)
    ensures IsRun(render, systems, labels) && labels != [] && systems[0] == s == systems[|labels|]
    ensures forall l | l in labels :: l != StoreState
  {
    if loaded.None? {
      return [s, s], [BeginReload(None)];
    }
    var m := loaded.value;
    var read := s.(reload := HaveManager(m));
    if render(m).None? {
      assert Next(render, read, ValidateConfig, s);
      return [s, read, s], [BeginReload(loaded), ValidateConfig];
    }
    var c := render(m).value.(serviceName := Masked(render(m).value.serviceName));
    var validated := s.(reload := HaveConfig(m, c));
    assert Next(render, read, ValidateConfig, validated);
    assert Next(render, validated, BuildVerifiers(setUp), s);
    return [s, read, validated, s], [BeginReload(loaded), ValidateConfig, BuildVerifiers(setUp)];
  }

  // ---- Over whole runs -------------------------------------------------------------------------

  /**
   * However requests and reloads interleave, a request works with one published state from
   * beginning to end, and a request that begins later never works with an older one.
   */
  lemma RequestsSeeOneVersion(render: Render, systems: seq<System>, labels: seq<Label>, n: nat, i: nat, j: nat)
    requires IsRun(render, systems, labels) && Initial(render, systems[0]) && n < |systems|
    requires i <= j < |systems[n].requests|
    ensures OneVersion(systems[n].published, systems[n].requests[i])
    ensures WellFormed(render, systems[n].requests[i].state)
    ensures systems[n].requests[i].version <= systems[n].requests[j].version
  {
    RunKeepsInv(render, systems, labels, n);
    var s := systems[n];
    assert OneVersion(s.published, s.requests[i]);
    assert s.published[s.requests[i].version] in s.published;
  }

  /** The state a request begins with is the current one, and stays its state ever after. */
  lemma {:induction false} BeginningIsCurrent(render: Render, systems: seq<System>, labels: seq<Label>, m: nat, n: nat)
    requires IsRun(render, systems, labels) && Initial(render, systems[0]) && m < n < |systems|
    requires labels[m] == BeginRequest
    ensures var r, current := |systems[m].requests|, |systems[m].published| - 1;
      && r < |systems[n].requests|
      && systems[n].requests[r].version == current
      && systems[n].requests[r].state == systems[m].published[current]
    decreases n
  {
    assert Next(render, systems[n - 1], labels[n - 1], systems[n]);
    if n > m + 1 {
      BeginningIsCurrent(render, systems, labels, m, n - 1);
    }
  }

  /** Only a reload that got through all its stages publishes; any other step leaves the history. */
  lemma {:induction false} OnlyStoresPublish(render: Render, systems: seq<System>, labels: seq<Label>, n: nat)
    requires IsRun(render, systems, labels) && Initial(render, systems[0]) && n < |systems|
    ensures |systems[n].published| == 1 + Stores(labels[..n])
  {
    if n == 0 {
      assert labels[..0] == [];
    } else {
      OnlyStoresPublish(render, systems, labels, n - 1);
      assert Next(render, systems[n - 1], labels[n - 1], systems[n]);
      assert labels[..n][..n - 1] == labels[..n - 1];
    }
  }

  function Stores(labels: seq<Label>): nat {
    if labels == [] then 0
    else Stores(labels[..|labels| - 1]) + if labels[|labels| - 1].StoreState? then 1 else 0
  }
}
