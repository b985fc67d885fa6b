/**
 * The debounced reload loop of the configuration watcher (config_watcher.go), together with
 * what it runs against: files being written, file events, timers, the clock.
 */
module WatchLoop {
  import opened Values

  datatype Op = Create | Write | Remove | Rename | Chmod

  /** An event for the file with that number; watched directories hold other files too. */
  datatype Event = Event(file: nat, ops: set<Op>)

  /** A runtime timer: once due it puts a value in its channel, unless stopped before. */
  datatype Timer = Timer(deadline: nat, fired: bool, stopped: bool)

  /** What the loop did, and when: took a relevant event, started a reload for a timer. */
  datatype Entry = Relevant(at: nat) | Reload(at: nat, timer: nat)

  /** Between events, inside `doReload` with the file versions read so far, or returned. */
  datatype Phase = Waiting | Reloading(loaded: seq<nat>) | Exited

  /**
   * `disk` has the version of each configuration file, `live` the versions behind the
   * published state. `reloaded` says that the last attempt to reload succeeded.
   */
  datatype World = World(
    debounce: nat, now: nat, disk: seq<nat>, queue: seq<Event>, timers: seq<Timer>,
    debounceTimer: Option<nat>, debounceCh: Option<nat>, phase: Phase, stop: bool,
    live: seq<nat>, reloaded: bool, log: seq<Entry>)

  /** `isRelevantEvent`: a write or create of a configuration file. */
  predicate IsRelevant(w: World, e: Event) {
    (Write in e.ops || Create in e.ops) && e.file < |w.disk|
  }

  /** The loop starts after the first load; the files may have changed since. */
  predicate Initial(w: World) {
    && w.queue == [] && w.timers == [] && w.debounceTimer.None? && w.debounceCh.None?
    && w.phase == Waiting && !w.reloaded && w.log == [] && |w.live| == |w.disk|
  }

  // ---- Steps -----------------------------------------------------------------------------

  datatype Label =
    // the surroundings
    | Tick(d: nat) | Change(files: set<nat>, event: Event) | Notify(event: Event) | Fire(timer: nat) | RequestStop
    // one case of the select statement; stopping closes two channels, either may be seen first
    | TakeStop | TakeClosed | TakeEvent | TakeError | TakeTimer
    // inside a reload
    | ReadFile | FailReload | PublishReload

  predicate Enabled(w: World, l: Label) {
    match l
    case Tick(_) => true
    case Change(files, _) => forall f | f in files :: f < |w.disk|
    case Notify(_) => true
    case Fire(t) => t < |w.timers| && w.timers[t].deadline <= w.now && !w.timers[t].fired && !w.timers[t].stopped
    case RequestStop => true
    case TakeStop => w.phase == Waiting && w.stop
    case TakeClosed => w.phase == Waiting && w.stop
    case TakeEvent => w.phase == Waiting && w.queue != []
    case TakeError => w.phase == Waiting
    case TakeTimer => w.phase == Waiting && w.debounceCh.Some? && w.debounceCh.value < |w.timers|
      && w.timers[w.debounceCh.value].fired
    case ReadFile => w.phase.Reloading? && |w.phase.loaded| < |w.disk|
    case FailReload => w.phase.Reloading?
    case PublishReload => w.phase.Reloading? && |w.phase.loaded| == |w.disk|
  }

  function StopTimer(timers: seq<Timer>, t: Option<nat>): seq<Timer> {
    if t.Some? && t.value < |timers| then timers[t.value := timers[t.value].(stopped := true)] else timers
  }

  /** All of `files` get a new version at once, as when the directory they link into is swapped. */
  function Changed(disk: seq<nat>, files: set<nat>): (changed: seq<nat>)
    ensures |changed| == |disk|
  {
    seq(|disk|, f requires 0 <= f < |disk| => if f in files then disk[f] + 1 else disk[f])
  }

  /** A new timer takes the place of the previous one, which is stopped. */
  function Rearm(w: World): World {
    w.(timers := StopTimer(w.timers, w.debounceTimer) + [Timer(w.now + w.debounce, false, false)],
       debounceTimer := Some(|w.timers|), debounceCh := Some(|w.timers|),
       log := w.log + [Relevant(w.now)])
  }

  function Step(w: World, l: Label): World
    requires Enabled(w, l)
  {
    match l
    case Tick(d) => w.(now := w.now + d)
    case Change(files, e) => w.(disk := Changed(w.disk, files), queue := w.queue + [e])
    case Notify(e) => w.(queue := w.queue + [e])
    case Fire(t) => w.(timers := w.timers[t := w.timers[t].(fired := true)])
    case RequestStop => w.(stop := true)
    case TakeStop => w.(timers := StopTimer(w.timers, w.debounceTimer), phase := Exited)
    case TakeClosed => w.(phase := Exited)
    case TakeEvent =>
      var rest := w.(queue := w.queue[1..]);
      if IsRelevant(w, w.queue[0]) then Rearm(rest) else rest
    case TakeError => w
    case TakeTimer =>
      w.(debounceCh := None, phase := Reloading([]), log := w.log + [Reload(w.now, w.debounceCh.value)])
    case ReadFile => w.(phase := Reloading(w.phase.loaded + [w.disk[|w.phase.loaded|]]))
    case FailReload => w.(phase := Waiting, reloaded := false)
    case PublishReload => w.(phase := Waiting, reloaded := true, live := w.phase.loaded)
  }

  predicate Runnable(w: World, ls: seq<Label>)
    decreases |ls|
  {
    ls == [] || (Enabled(w, ls[0]) && Runnable(Step(w, ls[0]), ls[1..]))
  }

  function Run(w: World, ls: seq<Label>): World
    requires Runnable(w, ls)
    decreases |ls|
  {
    if ls == [] then w else Run(Step(w, ls[0]), ls[1..])
  }

  // ---- The code --------------------------------------------------------------------------

  /**
   * `watchLoop` under a schedule: each turn, either the surroundings move, a reload in
   * progress moves, or the loop takes one ready case of its select statement.
   */
  method WatchLoop(start: World, schedule: seq<Label>) returns (w: World)
    requires Initial(start) && Runnable(start, schedule)
    ensures w == Run(start, schedule)
  {
    w := start;
    var debounceTimer: Option<nat> := None;
    var debounceCh: Option<nat> := None;
    for i := 0 to |schedule|
      invariant Runnable(w, schedule[i..]) && Run(start, schedule) == Run(w, schedule[i..])
      invariant w.debounceTimer == debounceTimer && w.debounceCh == debounceCh
    {
      var l := schedule[i];
      assert l == schedule[i..][0] && schedule[i..][1..] == schedule[i + 1..];
      ghost var next := Step(w, l);
      assert Runnable(next, schedule[i + 1..]) && Run(start, schedule) == Run(next, schedule[i + 1..]);
      match l {
        case TakeStop =>
          if debounceTimer.Some? {
            w := w.(timers := StopTimer(w.timers, debounceTimer));
          }
          w := w.(phase := Exited);
        case TakeClosed =>
          w := w.(phase := Exited);
        case TakeEvent =>
          var event := w.queue[0];
          w := w.(queue := w.queue[1..]);
          if IsRelevant(w, event) {
            if debounceTimer.Some? {
              w := w.(timers := StopTimer(w.timers, debounceTimer));
            }
            debounceTimer := Some(|w.timers|);
            w := w.(timers := w.timers + [Timer(w.now + w.debounce, false, false)]);
            debounceCh := debounceTimer;
            w := w.(debounceTimer := debounceTimer, debounceCh := debounceCh, log := w.log + [Relevant(w.now)]);
          }
        case TakeTimer =>
          w := w.(log := w.log + [Reload(w.now, debounceCh.value)], phase := Reloading([]));
          debounceCh := None;
          w := w.(debounceCh := None);
        case _ =>
          w := Step(w, l);
      }
      assert w == next;
    }
  }

  // ---- What every step keeps ---------------------------------------------------------------

  function Relevants(log: seq<Entry>): nat {
    if log == [] then 0 else Relevants(log[..|log| - 1]) + if log[|log| - 1].Relevant? then 1 else 0
  }

  /**
   * `e` may follow `log`: in time order, and a reload only right after the relevant event whose
   * timer, the newest at that point, it serves, no sooner than the debounce time after it.
   */
  predicate GoodEntry(log: seq<Entry>, e: Entry, debounce: nat, since: nat) {
    && since <= e.at
    && (log != [] ==> log[|log| - 1].at <= e.at)
    && (e.Reload? ==>
          && log != [] && log[|log| - 1].Relevant?
          && log[|log| - 1].at + debounce <= e.at
          && e.timer + 1 == Relevants(log))
  }

  predicate GoodLog(log: seq<Entry>, debounce: nat, since: nat) {
    if log == [] then true
    else
      var init, e := log[..|log| - 1], log[|log| - 1];
      GoodLog(init, debounce, since) && GoodEntry(init, e, debounce, since)
  }

  predicate Armed(w: World) { w.log != [] && w.log[|w.log| - 1].Relevant? }

  /** A relevant event waits in the queue. */
  predicate Announced(w: World) {
    exists e | e in w.queue :: IsRelevant(w, e)
  }

  predicate LogInv(w: World, since: nat) {
    && since <= w.now
    && GoodLog(w.log, w.debounce, since)
    && (w.log != [] ==> w.log[|w.log| - 1].at <= w.now)
  }

  /** The channel is that of the newest timer, set from the newest relevant event. */
  predicate TimerInv(w: World) {
    && |w.timers| == Relevants(w.log)
    && (forall t | 0 <= t < |w.timers| && w.timers[t].fired :: w.timers[t].deadline <= w.now)
    && (w.debounceCh.Some? <==> Armed(w))
    && (Armed(w) ==>
          && |w.timers| > 0
          && w.debounceCh == w.debounceTimer == Some(|w.timers| - 1)
          && w.timers[|w.timers| - 1].deadline == w.log[|w.log| - 1].at + w.debounce
          && (w.phase != Exited ==> !w.timers[|w.timers| - 1].stopped))
  }

  predicate Inv(w: World, since: nat) {
    LogInv(w, since) && TimerInv(w) && |w.live| == |w.disk|
  }

  /** What is read, or published, is what is on disk unless an announcement is still waiting. */
  predicate FreshInv(w: World) {
    && (w.phase.Reloading? ==>
          && |w.phase.loaded| <= |w.disk|
          && (Announced(w) || w.phase.loaded == w.disk[..|w.phase.loaded|]))
    && (w.phase == Waiting && w.reloaded && !Armed(w) ==> Announced(w) || w.live == w.disk)
  }

  lemma LogSnoc(log: seq<Entry>, e: Entry, debounce: nat, since: nat)
    requires GoodLog(log, debounce, since) && GoodEntry(log, e, debounce, since)
    ensures GoodLog(log + [e], debounce, since)
    ensures Relevants(log + [e]) == Relevants(log) + if e.Relevant? then 1 else 0
    ensures Reloads(log + [e]) == Reloads(log) + if e.Reload? then 1 else 0
  {
    assert (log + [e])[..|log|] == log;
  }

  lemma RearmKeepsLog(w: World, since: nat)
    requires LogInv(w, since) && |w.timers| == Relevants(w.log)
    ensures LogInv(Rearm(w), since) && |Rearm(w).timers| == Relevants(Rearm(w).log) && Armed(Rearm(w))
  {
    LogSnoc(w.log, Relevant(w.now), w.debounce, since);
  }

  lemma RearmKeepsTimers(w: World)
    requires TimerInv(w)
    requires |Rearm(w).timers| == Relevants(Rearm(w).log) && Armed(Rearm(w))
    ensures TimerInv(Rearm(w))
  {
    var stopped, timers := StopTimer(w.timers, w.debounceTimer), Rearm(w).timers;
    assert timers[|w.timers|] == Timer(w.now + w.debounce, false, false);
    forall t | 0 <= t < |timers| && timers[t].fired
      ensures timers[t].deadline <= w.now
    {
      assert timers[t] == stopped[t] && stopped[t].deadline == w.timers[t].deadline;
    }
  }

  lemma RearmKeepsInv(w: World, since: nat)
    requires Inv(w, since) && w.phase == Waiting
    ensures Inv(Rearm(w), since)
  {
    RearmKeepsLog(w, since);
    RearmKeepsTimers(w);
  }

  /** What the invariant speaks about; the queue, the files' versions and a request to stop are not. */
  predicate SameLoop(w: World, t: World) {
    && t.debounce == w.debounce && t.now == w.now && t.timers == w.timers
    && t.debounceTimer == w.debounceTimer && t.debounceCh == w.debounceCh && t.log == w.log
    && (w.phase == Exited <==> t.phase == Exited) && |t.live| == |t.disk|
  }

  lemma SameLoopKeepsInv(w: World, t: World, since: nat)
    requires Inv(w, since) && SameLoop(w, t)
    ensures Inv(t, since)
  {
  }

  lemma TakeEventKeepsInv(w: World, since: nat)
    requires Inv(w, since) && Enabled(w, TakeEvent)
    ensures Inv(Step(w, TakeEvent), since)
  {
    var rest := w.(queue := w.queue[1..]);
    SameLoopKeepsInv(w, rest, since);
    if IsRelevant(w, w.queue[0]) {
      RearmKeepsInv(rest, since);
    }
  }

  lemma TakeTimerKeepsInv(w: World, since: nat)
    requires Inv(w, since) && Enabled(w, TakeTimer)
    ensures Inv(Step(w, TakeTimer), since)
  {
    LogSnoc(w.log, Reload(w.now, w.debounceCh.value), w.debounce, since);
  }

  lemma FireKeepsInv(w: World, t: nat, since: nat)
    requires Inv(w, since) && Enabled(w, Fire(t))
    ensures Inv(Step(w, Fire(t)), since)
  {
  }

  lemma TakeStopKeepsInv(w: World, since: nat)
    requires Inv(w, since) && Enabled(w, TakeStop)
    ensures Inv(Step(w, TakeStop), since)
  {
  }

  lemma StepKeepsInv(w: World, l: Label, since: nat)
    requires Inv(w, since) && Enabled(w, l)
    ensures Inv(Step(w, l), since)
  {
    match l
    case TakeEvent => TakeEventKeepsInv(w, since);
    case TakeTimer => TakeTimerKeepsInv(w, since);
    case Fire(t) => FireKeepsInv(w, t, since);
    case TakeStop => TakeStopKeepsInv(w, since);
    case TakeClosed =>
    case Tick(_) =>
    case _ => SameLoopKeepsInv(w, Step(w, l), since);
  }

  /** The change, if it is one, comes with an event under the name of a configuration file. */
  predicate IsAnnounced(w: World, l: Label) {
    l.Change? && l.files != {} ==> IsRelevant(w, l.event)
  }

  lemma ChangeKeepsFresh(w: World, files: set<nat>, e: Event)
    requires FreshInv(w) && Enabled(w, Change(files, e)) && IsAnnounced(w, Change(files, e))
    ensures FreshInv(Step(w, Change(files, e)))
  {
    var next := Step(w, Change(files, e));
    if files == {} {
      assert next.disk == w.disk;
      MoreAnnounced(w, next);
    } else {
      assert e in next.queue && IsRelevant(next, e);
    }
  }

  lemma MoreAnnounced(w: World, next: World)
    requires |next.disk| == |w.disk| && forall e | e in w.queue :: e in next.queue
    ensures Announced(w) ==> Announced(next)
  {
    if Announced(w) {
      var e :| e in w.queue && IsRelevant(w, e);
      assert e in next.queue && IsRelevant(next, e);
    }
  }

  lemma TakeEventKeepsFresh(w: World)
    requires FreshInv(w) && Enabled(w, TakeEvent)
    ensures FreshInv(Step(w, TakeEvent))
  {
    var next := Step(w, TakeEvent);
    if !IsRelevant(w, w.queue[0]) && Announced(w) {
      var e :| e in w.queue && IsRelevant(w, e);
      assert e in next.queue && IsRelevant(next, e);
    }
  }

  lemma ReadFileKeepsFresh(w: World)
    requires FreshInv(w) && Enabled(w, ReadFile)
    ensures FreshInv(Step(w, ReadFile))
  {
    var next, n := Step(w, ReadFile), |w.phase.loaded|;
    MoreAnnounced(w, next);
    assert w.disk[..n + 1] == w.disk[..n] + [w.disk[n]];
  }

  lemma PublishKeepsFresh(w: World)
    requires FreshInv(w) && Enabled(w, PublishReload)
    ensures FreshInv(Step(w, PublishReload))
  {
    MoreAnnounced(w, Step(w, PublishReload));
    assert w.disk[..|w.disk|] == w.disk;
  }

  lemma StepKeepsFresh(w: World, l: Label)
    requires FreshInv(w) && Enabled(w, l) && IsAnnounced(w, l)
    ensures FreshInv(Step(w, l)) && |Step(w, l).disk| == |w.disk|
  {
    match l
    case Change(files, e) => ChangeKeepsFresh(w, files, e);
    case TakeEvent => TakeEventKeepsFresh(w);
    case ReadFile => ReadFileKeepsFresh(w);
    case PublishReload => PublishKeepsFresh(w);
    case _ => MoreAnnounced(w, Step(w, l));
  }

  lemma {:induction false} RunKeepsInv(w: World, ls: seq<Label>, since: nat)
    requires Runnable(w, ls) && Inv(w, since)
    ensures Inv(Run(w, ls), since) && Run(w, ls).debounce == w.debounce
    decreases |ls|
  {
    if ls != [] {
      StepKeepsInv(w, ls[0], since);
      RunKeepsInv(Step(w, ls[0]), ls[1..], since);
    }
  }

  /** Every change in the run is announced; the number of files stays the same throughout. */
  predicate AllAnnounced(w: World, ls: seq<Label>) {
    forall l | l in ls :: IsAnnounced(w, l)
  }

  lemma {:induction false} RunKeepsFresh(w: World, ls: seq<Label>)
    requires Runnable(w, ls) && FreshInv(w) && AllAnnounced(w, ls)
    ensures FreshInv(Run(w, ls))
    decreases |ls|
  {
    if ls != [] {
      StepKeepsFresh(w, ls[0]);
      var next := Step(w, ls[0]);
      forall l | l in ls[1..]
        ensures IsAnnounced(next, l)
      {
        assert l in ls && IsAnnounced(w, l);
      }
      RunKeepsFresh(next, ls[1..]);
    }
  }

  // ---- Over whole runs -----------------------------------------------------------------------

  function Reloads(log: seq<Entry>): nat {
    if log == [] then 0 else Reloads(log[..|log| - 1]) + if log[|log| - 1].Reload? then 1 else 0
  }

  lemma {:induction false} GoodLogAt(log: seq<Entry>, debounce: nat, since: nat, i: nat)
    requires GoodLog(log, debounce, since) && i < |log|
    ensures GoodLog(log[..i], debounce, since) && GoodEntry(log[..i], log[i], debounce, since)
    ensures log[i].at <= log[|log| - 1].at
  {
    var n := |log| - 1;
    if i < n {
      GoodLogAt(log[..n], debounce, since, i);
      assert log[..n][..i] == log[..i];
    }
  }

  /** Every reload comes the debounce time after every relevant event before it. */
  lemma ReloadsAreDebounced(start: World, ls: seq<Label>, i: nat, j: nat)
    requires Initial(start) && Runnable(start, ls)
    requires j < i < |Run(start, ls).log| && Run(start, ls).log[i].Reload?
    ensures Run(start, ls).log[j].at + start.debounce <= Run(start, ls).log[i].at
  {
    RunKeepsInv(start, ls, start.now);
    var log := Run(start, ls).log;
    GoodLogAt(log, start.debounce, start.now, i);
    GoodLogAt(log[..i], start.debounce, start.now, j);
  }

  /**
   * A reload directly follows a relevant event and serves the timer of that event, the newest
   * of all: replaced timers never cause a reload, nor does one event cause two.
   */
  lemma ReloadsServeNewestTimer(start: World, ls: seq<Label>, i: nat)
    requires Initial(start) && Runnable(start, ls)
    requires i < |Run(start, ls).log| && Run(start, ls).log[i].Reload?
    ensures var log := Run(start, ls).log;
      i > 0 && log[i - 1].Relevant? && log[i].timer + 1 == Relevants(log[..i])
  {
    RunKeepsInv(start, ls, start.now);
    GoodLogAt(Run(start, ls).log, start.debounce, start.now, i);
  }

  /** After n reloads, n debounce times have passed; one more if an event has come since. */
  lemma {:induction false} ReloadRate(log: seq<Entry>, debounce: nat, since: nat)
    requires GoodLog(log, debounce, since) && log != []
    ensures since + Reloads(log) * debounce <= log[|log| - 1].at
    decreases |log|
  {
    var n := |log| - 1;
    var init, e := log[..n], log[n];
    if init != [] {
      ReloadRate(init, debounce, since);
      if e.Reload? {
        var k := Reloads(init);
        assert (k + 1) * debounce == k * debounce + debounce;
      }
    }
  }

  /** However often the files change, the n-th reload starts no earlier than n debounce times. */
  lemma ReloadsAreRateLimited(start: World, ls: seq<Label>, i: nat)
    requires Initial(start) && Runnable(start, ls) && i < |Run(start, ls).log|
    ensures start.now + Reloads(Run(start, ls).log[..i + 1]) * start.debounce <= Run(start, ls).log[i].at
  {
    RunKeepsInv(start, ls, start.now);
    var log := Run(start, ls).log;
    GoodLogAt(log, start.debounce, start.now, i);
    assert log[..i + 1] == log[..i] + [log[i]];
    LogSnoc(log[..i], log[i], start.debounce, start.now);
    ReloadRate(log[..i + 1], start.debounce, start.now);
  }

  function After(w: World, d: nat): World { w.(now := w.now + d) }

  /** Without new input, the loop or a timer can take step `l` after waiting `d`. */
  predicate CanMove(w: World, d: nat, l: Label) {
    (l.Fire? || l.TakeEvent? || l.TakeTimer?) && Enabled(After(w, d), l)
  }

  /** Nothing more happens by itself, however long one waits. */
  ghost predicate Quiescent(w: World) {
    && w.phase == Waiting && !w.stop
    && forall d: nat, l: Label :: !CanMove(w, d, l)
  }

  /** How long an armed loop has to wait before its newest timer is due. */
  function Due(w: World): nat
    requires w.timers != []
  {
    var deadline := w.timers[|w.timers| - 1].deadline;
    if deadline > w.now then deadline - w.now else 0
  }

  lemma ArmedCanMove(w: World, since: nat)
    requires Inv(w, since) && Armed(w) && w.phase == Waiting
    ensures w.timers != [] && Due(w) <= w.debounce
    ensures var t := |w.timers| - 1; CanMove(w, Due(w), if w.timers[t].fired then TakeTimer else Fire(t))
  {
  }

  /**
   * A loop at rest has reloaded since its last relevant event. If that reload succeeded and every
   * change was announced, the published state was built from the files as they are on disk, also
   * when they changed while they were being read.
   */
  lemma AtRestLiveIsCurrent(start: World, ls: seq<Label>)
    requires Initial(start) && Runnable(start, ls) && Quiescent(Run(start, ls))
    ensures var w := Run(start, ls);
      && w.queue == []
      && (w.log != [] ==> w.log[|w.log| - 1].Reload?)
      && (w.reloaded && AllAnnounced(start, ls) ==> w.live == w.disk)
  {
    RunKeepsInv(start, ls, start.now);
    var w := Run(start, ls);
    assert !CanMove(w, 0, TakeEvent);
    if Armed(w) {
      ArmedCanMove(w, start.now);
    }
    if AllAnnounced(start, ls) {
      RunKeepsFresh(start, ls);
    }
  }

  // ---- Changes that are not announced ------------------------------------------------------

  /** All changes come with event `e`; notifications of other events may come at any time. */
  predicate ChangesBehind(ls: seq<Label>, e: Event) {
    forall l | l in ls && l.Change? && l.files != {} :: l.event == e
  }

  /**
   * An event arms a new timer exactly when it is a write or a create of a configuration file,
   * whatever other operations come with it, and stops the one before; any other event is only
   * taken from the queue.
   */
  lemma EventArms(w: World)
    requires Enabled(w, TakeEvent)
    ensures var e, next := w.queue[0], Step(w, TakeEvent);
      if e.file < |w.disk| && (Write in e.ops || Create in e.ops) then
        && |next.timers| == |w.timers| + 1
        && next.timers[|w.timers|] == Timer(w.now + w.debounce, false, false)
        && (w.debounceTimer.Some? && w.debounceTimer.value < |w.timers| ==>
              next.timers[w.debounceTimer.value].stopped)
        && next.debounceCh == Some(|w.timers|) && next.queue == w.queue[1..] && next.live == w.live
      else next == w.(queue := w.queue[1..])
  {
  }

  /** Only a reload that got through replaces the published state, by the files that it read. */
  lemma OnlyPublishReplaces(w: World, l: Label)
    requires Enabled(w, l)
    ensures Step(w, l).live == if l.PublishReload? then w.phase.loaded else w.live
    ensures l.PublishReload? ==> w.phase.Reloading? && |w.phase.loaded| == |w.disk|
  {
  }

  /** Returning on the stop signal stops the timer too, so that it never fires. */
  lemma StopStopsTimer(w: World)
    requires Enabled(w, TakeStop)
    ensures var next := Step(w, TakeStop);
      && next.phase == Exited
      && (w.debounceTimer.Some? && w.debounceTimer.value < |w.timers| ==>
            !Enabled(next, Fire(w.debounceTimer.value)))
  {
  }

  /** A loop at rest does not wake up for an irrelevant event, whatever changed behind it. */
  lemma UnannouncedChangeStays(w: World, files: set<nat>, e: Event) returns (more: seq<Label>)
    requires Quiescent(w) && w.reloaded && w.live == w.disk
    requires files != {} && (forall f | f in files :: f < |w.disk|)
    requires e.file >= |w.disk| || (Write !in e.ops && Create !in e.ops)
    ensures Runnable(w, more) && ChangesBehind(more, e)
    ensures Quiescent(Run(w, more)) && Run(w, more).reloaded && Run(w, more).live != Run(w, more).disk
  {
    assert !CanMove(w, 0, TakeEvent);
    more := [Change(files, e), TakeEvent];
    var changed := Step(w, Change(files, e));
    assert changed.queue == [e] && [e][1..] == [];
    RunOne(changed, TakeEvent);
    RunCons(w, Change(files, e), [TakeEvent]);
    var after := Step(changed, TakeEvent);
    assert after == w.(disk := Changed(w.disk, files));
    var f :| f in files;
    assert after.disk[f] == w.disk[f] + 1;
    forall d: nat, l: Label
      ensures !CanMove(after, d, l)
    {
      assert !CanMove(w, d, l);
    }
  }

  lemma {:induction false} ReadRest(w: World) returns (ls: seq<Label>)
    requires w.phase.Reloading? && |w.phase.loaded| <= |w.disk|
    requires w.phase.loaded == w.disk[..|w.phase.loaded|]
    ensures Runnable(w, ls) && Run(w, ls) == w.(phase := Waiting, reloaded := true, live := w.disk)
    ensures forall l | l in ls :: !l.Change?
    decreases |w.disk| - |w.phase.loaded|
  {
    var n := |w.phase.loaded|;
    if n == |w.disk| {
      assert w.disk[..n] == w.disk;
      RunOne(w, PublishReload);
      return [PublishReload];
    }
    assert w.disk[..n + 1] == w.disk[..n] + [w.disk[n]];
    var rest := ReadRest(Step(w, ReadFile));
    RunCons(w, ReadFile, rest);
    return [ReadFile] + rest;
  }

  /** Within a reload that nothing else is waiting behind. */
  predicate OnlyReloading(w: World, start: World) {
    && w.phase == Reloading([]) && w.disk == start.disk && w.stop == start.stop
    && w.queue == [] && w.debounceCh.None? && |w.timers| == 1 && w.timers[0].fired
  }

  lemma FirstEvent(start: World) returns (ls: seq<Label>)
    requires Initial(start) && |start.disk| > 0
    ensures Runnable(start, ls) && (forall l | l in ls :: !l.Change?)
    ensures Run(start, ls) == Rearm(start)
  {
    var e := Event(0, {Write});
    var w := Step(start, Notify(e));
    assert w.queue == [e] && w.queue[1..] == [];
    assert w.(queue := []) == start;
    RunOne(w, TakeEvent);
    RunCons(start, Notify(e), [TakeEvent]);
    ls := [Notify(e)] + [TakeEvent];
  }

  lemma FirstTimer(start: World) returns (ls: seq<Label>)
    requires Initial(start)
    ensures Runnable(Rearm(start), ls) && (forall l | l in ls :: !l.Change?)
    ensures OnlyReloading(Run(Rearm(start), ls), start)
  {
    var w := Rearm(start);
    assert w.timers == [Timer(start.now + start.debounce, false, false)];
    var due := Step(w, Tick(start.debounce));
    var fired := Step(due, Fire(0));
    RunOne(fired, TakeTimer);
    RunCons(due, Fire(0), [TakeTimer]);
    RunCons(w, Tick(start.debounce), [Fire(0)] + [TakeTimer]);
    ls := [Tick(start.debounce)] + ([Fire(0)] + [TakeTimer]);
  }

  /** A relevant event and the debounce time take the loop from its start into a reload. */
  lemma FirstReload(start: World) returns (ls: seq<Label>)
    requires Initial(start) && |start.disk| > 0
    ensures Runnable(start, ls) && (forall l | l in ls :: !l.Change?)
    ensures OnlyReloading(Run(start, ls), start)
  {
    var a := FirstEvent(start);
    var b := FirstTimer(start);
    RunJoin(start, a, b);
    ls := a + b;
  }

  /** From its start the loop can come to rest with a successful reload. */
  lemma CanComeToRest(start: World) returns (ls: seq<Label>)
    requires Initial(start) && |start.disk| > 0 && !start.stop
    ensures Runnable(start, ls) && (forall l | l in ls :: !l.Change?)
    ensures var w := Run(start, ls); Quiescent(w) && w.reloaded && w.live == w.disk == start.disk
  {
    var first := FirstReload(start);
    var rest := ReadRest(Run(start, first));
    RunJoin(start, first, rest);
    ls := first + rest;
  }

  /**
   * Files that change behind event `e`, as in a symlink rotation, end up in the published state
   * whenever the loop comes to rest on a successful reload, exactly when `e` is a write or create
   * under the name of a configuration file; an event for the rotated link itself is not.
   */
  lemma RotationIff(start: World, e: Event)
    requires Initial(start) && |start.disk| > 0 && !start.stop
    ensures (forall ls: seq<Label>
               | Runnable(start, ls) && ChangesBehind(ls, e) && Quiescent(Run(start, ls)) && Run(start, ls).reloaded ::
               Run(start, ls).live == Run(start, ls).disk)
      <==> e.file < |start.disk| && (Write in e.ops || Create in e.ops)
  {
    if IsRelevant(start, e) {
      forall ls: seq<Label>
        | Runnable(start, ls) && ChangesBehind(ls, e) && Quiescent(Run(start, ls)) && Run(start, ls).reloaded
        ensures Run(start, ls).live == Run(start, ls).disk
      {
        AtRestLiveIsCurrent(start, ls);
      }
    } else {
      var ls := CanComeToRest(start);
      var more := UnannouncedChangeStays(Run(start, ls), {0}, e);
      RunJoin(start, ls, more);
      assert ChangesBehind(ls + more, e);
    }
  }

  lemma {:induction false} RunJoin(w: World, a: seq<Label>, b: seq<Label>)
    requires Runnable(w, a) && Runnable(Run(w, a), b)
    ensures Runnable(w, a + b) && Run(w, a + b) == Run(Run(w, a), b)
    decreases |a|
  {
    if a == [] {
      assert a + b == b;
    } else {
      RunJoin(Step(w, a[0]), a[1..], b);
      RunCons(w, a[0], a[1..] + b);
      assert a + b == [a[0]] + (a[1..] + b);
    }
  }

  /** Left undisturbed, an armed loop starts its reload within the debounce time. */
  lemma ArmedLoopReloads(start: World, ls: seq<Label>) returns (more: seq<Label>)
    requires Initial(start) && Runnable(start, ls)
    requires Armed(Run(start, ls)) && Run(start, ls).phase == Waiting
    ensures Runnable(Run(start, ls), more)
    ensures var w, after := Run(start, ls), Run(Run(start, ls), more);
      && after.phase == Reloading([]) && after.now <= w.now + w.debounce
      && |after.log| == |w.log| + 1 && after.log[|w.log|].Reload? && after.log[|w.log|].at == after.now
  {
    RunKeepsInv(start, ls, start.now);
    var w := Run(start, ls);
    more := Undisturbed(w, start.now);
  }

  lemma Undisturbed(w: World, since: nat) returns (more: seq<Label>)
    requires Inv(w, since) && Armed(w) && w.phase == Waiting
    ensures Runnable(w, more)
    ensures var after := Run(w, more);
      && after.phase == Reloading([]) && after.now <= w.now + w.debounce
      && |after.log| == |w.log| + 1 && after.log[|w.log|].Reload? && after.log[|w.log|].at == after.now
  {
    ArmedCanMove(w, since);
    var t, waited := |w.timers| - 1, After(w, Due(w));
    assert Step(w, Tick(Due(w))) == waited;
    if w.timers[t].fired {
      more := [Tick(Due(w)), TakeTimer];
      RunOne(waited, TakeTimer);
      RunCons(w, Tick(Due(w)), [TakeTimer]);
    } else {
      more := [Tick(Due(w)), Fire(t), TakeTimer];
      var fired := Step(waited, Fire(t));
      RunOne(fired, TakeTimer);
      RunCons(waited, Fire(t), [TakeTimer]);
      RunCons(w, Tick(Due(w)), [Fire(t), TakeTimer]);
      assert more == [Tick(Due(w))] + [Fire(t), TakeTimer];
    }
  }

  /** Once the loop has returned, no timer and no event makes it reload again. */
  lemma {:induction false} ReturnedLoopStaysQuiet(w: World, ls: seq<Label>)
    requires w.phase == Exited && Runnable(w, ls)
    ensures Run(w, ls).phase == Exited && Run(w, ls).log == w.log && Run(w, ls).live == w.live
    decreases |ls|
  {
    if ls != [] {
      ReturnedLoopStaysQuiet(Step(w, ls[0]), ls[1..]);
    }
  }

  lemma RunCons(w: World, l: Label, ls: seq<Label>)
    requires Enabled(w, l) && Runnable(Step(w, l), ls)
    ensures Runnable(w, [l] + ls) && Run(w, [l] + ls) == Run(Step(w, l), ls)
  {
    assert ([l] + ls)[1..] == ls;
  }

  lemma RunOne(w: World, l: Label)
    requires Enabled(w, l)
    ensures Runnable(w, [l]) && Run(w, [l]) == Step(w, l)
  {
    assert [l][1..] == [];
  }
}
