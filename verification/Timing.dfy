/**
 * Time: each checker has a ticker with room for one tick, and a probe that ends within the
 * timeout. A checker that has a tick begins its probe at once, and recording takes no time.
 */
module Timing {
  import opened Common
  import opened StopChannels
  import opened HealthCache
  import opened Discovery
  import opened LiveCheckers
  import opened CacheHistory

  /** `distinct` tells that no list of the registry names an ID twice. */
  datatype Config = Config(interval: int, timeout: int, max: int, distinct: bool)

  predicate Sensible(cfg: Config) {
    cfg.interval >= 1 && cfg.timeout >= 0 && cfg.max >= 1
  }

  /** `next` is when the ticker ticks next, `buffered` that a tick is waiting, `since` when the probe began. */
  datatype Timer = Timer(next: int, buffered: bool, since: Option<int>)

  datatype Clocked = Clocked(core: State, now: int, timers: map<nat, Timer>)

  datatype Event =
    | Pass(time: nat)
    | Fire(checker: nat)
    | Begin(checker: nat)
    | Finish(checker: nat, ok: bool)
    | Deliver(service: string, list: seq<ServiceInstance>)
    | Load(service: string, list: seq<ServiceInstance>)
    | Enrol(service: string, id: string, host: string, port: string)

  /** What an event does to the discovery cache, if anything. */
  function CoreOf(e: Event, now: int): Option<Action> {
    match e
    case Finish(i, ok) => Some(Tick(i, ok, now))
    case Deliver(service, list) => Some(Watched(service, list, now))
    case Load(service, list) => Some(Got(service, list, now))
    case Enrol(service, id, host, port) => Some(Registered(service, id, host, port))
    case _ => None
  }

  /** A checker that has just been started gets a ticker. */
  function WithTickers(core: State, timers: map<nat, Timer>, now: int, interval: int): map<nat, Timer> {
    map i | i in core.stops.checkers :: if i in timers then timers[i] else Timer(now + interval, false, None)
  }

  function Next(c: Clocked, e: Event, cfg: Config): Clocked {
    match e
    case Pass(time) => c.(now := c.now + time)
    case Fire(i) =>
      if i !in c.timers then c
      else c.(timers := c.timers[i := c.timers[i].(next := c.timers[i].next + cfg.interval, buffered := true)])
    case Begin(i) =>
      if i !in c.timers then c
      else c.(timers := c.timers[i := c.timers[i].(buffered := false, since := Some(c.now))])
    case Finish(i, ok) =>
      if i !in c.timers then c
      else Clocked(Apply(c.core, Tick(i, ok, c.now), cfg.max), c.now, c.timers[i := c.timers[i].(since := None)])
    case _ =>
      var core := Apply(c.core, CoreOf(e, c.now).value, cfg.max);
      Clocked(core, c.now, WithTickers(core, c.timers, c.now, cfg.interval))
  }

  /** No time passes beyond what a running checker still has to do. */
  predicate MayPass(t: Timer, now: int, time: nat, timeout: int) {
    && now + time <= t.next
    && (t.since.Some? ==> now + time <= t.since.value + timeout)
    && (t.since.None? && t.buffered ==> time == 0)
  }

  predicate DistinctIDs(list: seq<ServiceInstance>) {
    forall i, j | 0 <= i < j < |list| :: list[i].instanceID != list[j].instanceID
  }

  predicate CleanList(list: seq<ServiceInstance>) {
    forall i | 0 <= i < |list| :: list[i].failedChecks == 0
  }

  ghost predicate Legal(c: Clocked, e: Event, cfg: Config, known: set<Checker>) {
    match e
    case Pass(time) => forall i | i in c.timers && Open(c.core.stops, i) :: MayPass(c.timers[i], c.now, time, cfg.timeout)
    case Fire(i) => i in c.timers && c.timers[i].next <= c.now
    case Begin(i) => i in c.timers && c.timers[i].buffered && c.timers[i].since.None?
    case Finish(i, _) => i in c.timers && c.timers[i].since.Some?
    case Deliver(service, list) => Known(known, service, list) && CleanList(list) && (cfg.distinct ==> DistinctIDs(list))
    case Load(service, list) => Known(known, service, list) && CleanList(list) && (cfg.distinct ==> DistinctIDs(list))
    case Enrol(service, id, host, port) => Checker(service, id, host, port) in known
  }

  /** No two of the addresses share a checker key, and each has a port. */
  ghost predicate Clear(known: set<Checker>) {
    Unambiguous(known) && HavePorts(known)
  }

  // ---------------------------------------------------------------- when a probe is due

  predicate Steady(t: Timer, now: int, cfg: Config) {
    && now <= t.next <= now + cfg.interval
    && (t.since.Some? ==> t.since.value <= now <= t.since.value + cfg.timeout)
  }

  /** The latest time at which the checker records its next probe. */
  function Due(t: Timer, now: int, cfg: Config): int {
    if t.since.Some? then t.since.value + cfg.timeout
    else if t.buffered then now + cfg.timeout
    else t.next + cfg.timeout
  }

  lemma DueSoon(t: Timer, now: int, cfg: Config)
    requires Steady(t, now, cfg) && Sensible(cfg)
    ensures now <= Due(t, now, cfg) <= now + cfg.interval + cfg.timeout
  {
  }

  ghost predicate AllSteady(c: Clocked, cfg: Config) {
    && c.timers.Keys == c.core.stops.checkers.Keys
    && forall i | i in c.timers && Open(c.core.stops, i) :: Steady(c.timers[i], c.now, cfg)
  }

  /** The first cached instance with the ID is probed within an interval and a timeout of its last touch. */
  ghost predicate OnTime(c: Clocked, cfg: Config, service: string, id: string) {
    var list := Cached(c.core.cache, service);
    var found := Find(list, id);
    found.Some? && Key(service, id) in c.core.stops.stop ==>
      var i := c.core.stops.stop[Key(service, id)];
      i in c.timers && Due(c.timers[i], c.now, cfg) <= list[found.value].lastChecked + cfg.interval + cfg.timeout
  }

  ghost predicate AllOnTime(c: Clocked, cfg: Config) {
    forall service, id :: OnTime(c, cfg, service, id)
  }

  ghost predicate Punctual(c: Clocked, cfg: Config, known: set<Checker>) {
    Inv(c.core, known) && c.core.stops.ended == {} && AllSteady(c, cfg) && AllOnTime(c, cfg)
  }

  // ---------------------------------------------------------------- events keep it

  lemma PassKeepsOnTime(c: Clocked, time: nat, cfg: Config, known: set<Checker>, service: string, id: string)
    requires Punctual(c, cfg, known) && Sensible(cfg) && Legal(c, Pass(time), cfg, known)
    ensures OnTime(Next(c, Pass(time), cfg), cfg, service, id)
  {
    assert OnTime(c, cfg, service, id);
    if Key(service, id) in c.core.stops.stop {
      EntryIsOpen(c.core.stops, Key(service, id));
    }
  }

  lemma PassKeepsPunctual(c: Clocked, time: nat, cfg: Config, known: set<Checker>)
    requires Punctual(c, cfg, known) && Sensible(cfg) && Legal(c, Pass(time), cfg, known)
    ensures Punctual(Next(c, Pass(time), cfg), cfg, known)
  {
    forall service, id
      ensures OnTime(Next(c, Pass(time), cfg), cfg, service, id)
    {
      PassKeepsOnTime(c, time, cfg, known, service, id);
    }
  }

  /** Ticking and beginning put nothing off. */
  lemma TimerKeepsOnTime(c: Clocked, e: Event, cfg: Config, known: set<Checker>, service: string, id: string)
    requires Punctual(c, cfg, known) && Sensible(cfg) && (e.Fire? || e.Begin?) && Legal(c, e, cfg, known)
    ensures OnTime(Next(c, e, cfg), cfg, service, id)
  {
    assert OnTime(c, cfg, service, id);
    if Key(service, id) in c.core.stops.stop {
      EntryIsOpen(c.core.stops, Key(service, id));
    }
  }

  lemma TimerKeepsPunctual(c: Clocked, e: Event, cfg: Config, known: set<Checker>)
    requires Punctual(c, cfg, known) && Sensible(cfg) && (e.Fire? || e.Begin?) && Legal(c, e, cfg, known)
    ensures Punctual(Next(c, e, cfg), cfg, known)
  {
    forall service, id
      ensures OnTime(Next(c, e, cfg), cfg, service, id)
    {
      TimerKeepsOnTime(c, e, cfg, known, service, id);
    }
  }

  /** Probes change no ID, and touch the first instance with theirs. */
  lemma ProbeTouches(list: seq<ServiceInstance>, probed: string, ok: bool, max: int, now: int, id: string)
    ensures
      var after := Probe(list, probed, ok, max, now);
      && Find(after, id) == Find(list, id)
      && (Find(list, id).Some? ==>
            after[Find(list, id).value].lastChecked == if id == probed then now else list[Find(list, id).value].lastChecked)
  {
    FindByIDs(list, Probe(list, probed, ok, max, now), id);
  }

  lemma TickOnStops(s: State, i: nat, ok: bool, now: int, max: int)
    ensures
      var t := Apply(s, Tick(i, ok, now), max);
      t.stops.checkers == s.stops.checkers && s.stops.closed <= t.stops.closed
  {
  }

  function Reset(timers: map<nat, Timer>, i: nat): map<nat, Timer>
    requires i in timers
  {
    timers[i := timers[i].(since := None)]
  }

  lemma ResetStaysSteady(c: Clocked, core: State, i: nat, cfg: Config)
    requires AllSteady(c, cfg) && i in c.timers
    requires core.stops.checkers == c.core.stops.checkers && c.core.stops.closed <= core.stops.closed
    ensures AllSteady(Clocked(core, c.now, Reset(c.timers, i)), cfg)
  {
  }

  lemma FinishKeepsSteady(c: Clocked, i: nat, ok: bool, cfg: Config, known: set<Checker>)
    requires Punctual(c, cfg, known) && Clear(known) && Legal(c, Finish(i, ok), cfg, known)
    ensures Inv(Next(c, Finish(i, ok), cfg).core, known) && AllSteady(Next(c, Finish(i, ok), cfg), cfg)
  {
    TickKeepsInv(c.core, i, ok, c.now, cfg.max, known);
    TickOnStops(c.core, i, ok, c.now, cfg.max);
    ResetStaysSteady(c, Apply(c.core, Tick(i, ok, c.now), cfg.max), i, cfg);
  }

  /** The instance is gone: its entry goes, and the others stay. */
  lemma FindingGoneKeepsOnTime(c: Clocked, i: nat, cfg: Config, known: set<Checker>, service: string, id: string)
    requires Punctual(c, cfg, known) && i in c.timers && Gone(c.core, c.core.stops.checkers[i])
    ensures
      var core := c.core.(stops := CloseKey(c.core.stops, KeyOf(c.core.stops.checkers[i])));
      OnTime(Clocked(core, c.now, Reset(c.timers, i)), cfg, service, id)
  {
    assert OnTime(c, cfg, service, id);
    if Key(service, id) in c.core.stops.stop {
      EntryIsOpen(c.core.stops, Key(service, id));
    }
  }

  lemma RecordingTouches(s: State, own: Checker, ok: bool, max: int, now: int, service: string, id: string)
    ensures
      var list, after := Cached(s.cache, service), Cached(Probing(s, own, ok, max, now).cache, service);
      && Find(after, id) == Find(list, id)
      && (Find(list, id).Some? ==>
            after[Find(list, id).value].lastChecked ==
            if (service, id) == (own.service, own.instanceID) then now else list[Find(list, id).value].lastChecked)
  {
    if service == own.service {
      ProbeTouches(Cached(s.cache, service), own.instanceID, ok, max, now, id);
    }
  }

  /** Resetting a timer leaves the others due as they were. */
  lemma ResetDue(c: Clocked, i: nat, e: nat, cfg: Config)
    requires AllSteady(c, cfg) && Sensible(cfg) && i in c.timers && e in c.timers && Open(c.core.stops, e)
    ensures Due(Reset(c.timers, i)[e], c.now, cfg) <= c.now + cfg.interval + cfg.timeout
    ensures e != i ==> Due(Reset(c.timers, i)[e], c.now, cfg) == Due(c.timers[e], c.now, cfg)
  {
  }

  /** The instance is there: it is touched now, and the others keep their times and their entries. */
  lemma RecordingKeepsOnTime(c: Clocked, i: nat, ok: bool, cfg: Config, known: set<Checker>, service: string, id: string)
    requires Punctual(c, cfg, known) && Sensible(cfg) && Clear(known) && i in c.timers
    ensures OnTime(Clocked(Probing(c.core, c.core.stops.checkers[i], ok, cfg.max, c.now), c.now, Reset(c.timers, i)), cfg, service, id)
  {
    var own := c.core.stops.checkers[i];
    RecordingTouches(c.core, own, ok, cfg.max, c.now, service, id);
    if Find(Cached(c.core.cache, service), id).Some? && Key(service, id) in c.core.stops.stop {
      assert OnTime(c, cfg, service, id);
      EntryIsOpen(c.core.stops, Key(service, id));
      ResetDue(c, i, c.core.stops.stop[Key(service, id)], cfg);
      if (service, id) != (own.service, own.instanceID) {
        EntriesDiffer(c.core, service, id, i, known);
      }
    }
  }

  /** The entry of a cached instance is not the checker of another instance. */
  lemma EntriesDiffer(s: State, service: string, id: string, i: nat, known: set<Checker>)
    requires Inv(s, known) && Clear(known) && i in s.stops.checkers
    requires Find(Cached(s.cache, service), id).Some? && Key(service, id) in s.stops.stop
    requires (service, id) != (s.stops.checkers[i].service, s.stops.checkers[i].instanceID)
    ensures s.stops.stop[Key(service, id)] != i
  {
    var p := CachedIsKnown(s, service, id, known);
    assert s.stops.checkers[i] in known;
    NotItsEntry(s.stops, p, i, known);
  }

  lemma CachedIsKnown(s: State, service: string, id: string, known: set<Checker>) returns (p: Checker)
    requires Inv(s, known) && Find(Cached(s.cache, service), id).Some?
    ensures p in known && p.service == service && p.instanceID == id
  {
    assert Known(known, service, s.cache[service]);
    p := CheckerOf(service, s.cache[service][Find(s.cache[service], id).value]);
  }

  lemma NotItsEntry(s: Stops, p: Checker, i: nat, known: set<Checker>)
    requires StopChannels.Valid(s) && Unambiguous(known) && p in known && KeyOf(p) in s.stop
    requires i in s.checkers && s.checkers[i] in known && s.checkers[i] != p
    ensures s.stop[KeyOf(p)] != i
  {
    EntryIsOpen(s, KeyOf(p));
  }

  lemma FinishKeepsOnTime(c: Clocked, i: nat, ok: bool, cfg: Config, known: set<Checker>, service: string, id: string)
    requires Punctual(c, cfg, known) && Sensible(cfg) && Clear(known) && Legal(c, Finish(i, ok), cfg, known)
    ensures OnTime(Next(c, Finish(i, ok), cfg), cfg, service, id)
  {
    assert Next(c, Finish(i, ok), cfg) == Clocked(Apply(c.core, Tick(i, ok, c.now), cfg.max), c.now, Reset(c.timers, i));
    if Gone(c.core, c.core.stops.checkers[i]) {
      FindingGoneKeepsOnTime(c, i, cfg, known, service, id);
    } else {
      RecordingKeepsOnTime(c, i, ok, cfg, known, service, id);
    }
  }

  lemma FinishKeepsPunctual(c: Clocked, i: nat, ok: bool, cfg: Config, known: set<Checker>)
    requires Punctual(c, cfg, known) && Sensible(cfg) && Clear(known) && Legal(c, Finish(i, ok), cfg, known)
    ensures Punctual(Next(c, Finish(i, ok), cfg), cfg, known)
  {
    FinishKeepsSteady(c, i, ok, cfg, known);
    forall service, id
      ensures OnTime(Next(c, Finish(i, ok), cfg), cfg, service, id)
    {
      FinishKeepsOnTime(c, i, ok, cfg, known, service, id);
    }
  }

  // ---------------------------------------------------------------- starting checkers

  /** New checkers begin with a full interval ahead of them. */
  lemma TickersStaySteady(c: Clocked, core: State, cfg: Config)
    requires AllSteady(c, cfg) && Sensible(cfg) && Adds(c.core.stops, core.stops)
    ensures AllSteady(Clocked(core, c.now, WithTickers(core, c.timers, c.now, cfg.interval)), cfg)
  {
  }

  /** The first cached instance with the ID was touched now, or was there and is as old as before. */
  predicate TouchedOrKept(was: seq<ServiceInstance>, list: seq<ServiceInstance>, now: int, id: string) {
    Find(list, id).Some? ==>
      || list[Find(list, id).value].lastChecked == now
      || (Find(was, id).Some? && list[Find(list, id).value].lastChecked == was[Find(was, id).value].lastChecked)
  }

  /** An instance that was not touched keeps its entry; one that was is due soon enough. */
  lemma AddedKeepsOnTime(c: Clocked, core: State, cfg: Config, known: set<Checker>, service: string, id: string)
    requires Punctual(c, cfg, known) && Sensible(cfg) && Adds(c.core.stops, core.stops) && StopChannels.Valid(core.stops)
    requires TouchedOrKept(Cached(c.core.cache, service), Cached(core.cache, service), c.now, id)
    ensures OnTime(Clocked(core, c.now, WithTickers(core, c.timers, c.now, cfg.interval)), cfg, service, id)
  {
    var c' := Clocked(core, c.now, WithTickers(core, c.timers, c.now, cfg.interval));
    TickersStaySteady(c, core, cfg);
    var list, was := Cached(core.cache, service), Cached(c.core.cache, service);
    if Find(list, id).Some? && Key(service, id) in core.stops.stop {
      EntryIsOpen(core.stops, Key(service, id));
      var e := core.stops.stop[Key(service, id)];
      DueSoon(c'.timers[e], c.now, cfg);
      if list[Find(list, id).value].lastChecked != c.now {
        assert HasEntries(c.core.stops, service, was);
        CachedHasEntry(c.core.stops, was, service, id);
        EntryIsOpen(c.core.stops, Key(service, id));
        assert OnTime(c, cfg, service, id);
      }
    }
  }

  lemma MergeTouches(cached: seq<ServiceInstance>, list: seq<ServiceInstance>, now: int, id: string)
    ensures TouchedOrKept(cached, Merge(cached, list, now), now, id)
  {
    FindByIDs(list, Merge(cached, list, now), id);
  }

  lemma LoadTouches(cached: seq<ServiceInstance>, list: seq<ServiceInstance>, now: int, id: string)
    ensures TouchedOrKept(cached, HealthCache.Load(list, now), now, id)
  {
  }

  lemma AddedKeepsPunctual(c: Clocked, core: State, cfg: Config, known: set<Checker>)
    requires Punctual(c, cfg, known) && Sensible(cfg) && Inv(core, known) && Extends(c.core.stops, core.stops, known)
    requires forall service, id :: TouchedOrKept(Cached(c.core.cache, service), Cached(core.cache, service), c.now, id)
    ensures Punctual(Clocked(core, c.now, WithTickers(core, c.timers, c.now, cfg.interval)), cfg, known)
  {
    TickersStaySteady(c, core, cfg);
    forall service, id
      ensures OnTime(Clocked(core, c.now, WithTickers(core, c.timers, c.now, cfg.interval)), cfg, service, id)
    {
      AddedKeepsOnTime(c, core, cfg, known, service, id);
    }
  }

  lemma DeliverKeepsPunctual(c: Clocked, service: string, list: seq<ServiceInstance>, cfg: Config, known: set<Checker>)
    requires Punctual(c, cfg, known) && Sensible(cfg) && Known(known, service, list) && HavePorts(known)
    ensures Punctual(Next(c, Deliver(service, list), cfg), cfg, known)
  {
    var cached := Cached(c.core.cache, service);
    var core := Apply(c.core, Watched(service, list, c.now), cfg.max);
    DeliveryKeepsInv(c.core, service, list, c.now, cfg.max, known);
    StartMissingAddsEntries(c.core.stops, cached, service, list, known);
    forall other, id
      ensures TouchedOrKept(Cached(c.core.cache, other), Cached(core.cache, other), c.now, id)
    {
      MergeTouches(cached, list, c.now, id);
    }
    AddedKeepsPunctual(c, core, cfg, known);
  }

  lemma LoadKeepsPunctual(c: Clocked, service: string, list: seq<ServiceInstance>, cfg: Config, known: set<Checker>)
    requires Punctual(c, cfg, known) && Sensible(cfg) && Known(known, service, list) && HavePorts(known)
    ensures Punctual(Next(c, Load(service, list), cfg), cfg, known)
  {
    var core := Apply(c.core, Got(service, list, c.now), cfg.max);
    LoadKeepsInv(c.core, service, list, c.now, cfg.max, known);
    StartMissingAddsEntries(c.core.stops, [], service, list, known);
    forall other, id
      ensures TouchedOrKept(Cached(c.core.cache, other), Cached(core.cache, other), c.now, id)
    {
      LoadTouches(Cached(c.core.cache, service), list, c.now, id);
    }
    AddedKeepsPunctual(c, core, cfg, known);
  }

  lemma EnrolKeepsPunctual(c: Clocked, service: string, id: string, host: string, port: string, cfg: Config, known: set<Checker>)
    requires Punctual(c, cfg, known) && Sensible(cfg) && Checker(service, id, host, port) in known
    ensures Punctual(Next(c, Enrol(service, id, host, port), cfg), cfg, known)
  {
    var core := Apply(c.core, Registered(service, id, host, port), cfg.max);
    RegisterKeepsInv(c.core, service, id, host, port, cfg.max, known);
    StartExtends(c.core.stops, service, id, host, port, known);
    AddedKeepsPunctual(c, core, cfg, known);
  }

  lemma EventKeepsPunctual(c: Clocked, e: Event, cfg: Config, known: set<Checker>)
    requires Punctual(c, cfg, known) && Sensible(cfg) && Clear(known) && Legal(c, e, cfg, known)
    ensures Punctual(Next(c, e, cfg), cfg, known)
  {
    match e
    case Pass(time) => PassKeepsPunctual(c, time, cfg, known);
    case Fire(_) => TimerKeepsPunctual(c, e, cfg, known);
    case Begin(_) => TimerKeepsPunctual(c, e, cfg, known);
    case Finish(i, ok) => FinishKeepsPunctual(c, i, ok, cfg, known);
    case Deliver(service, list) => DeliverKeepsPunctual(c, service, list, cfg, known);
    case Load(service, list) => LoadKeepsPunctual(c, service, list, cfg, known);
    case Enrol(service, id, host, port) => EnrolKeepsPunctual(c, service, id, host, port, cfg, known);
  }

  // ---------------------------------------------------------------- runs

  function After(start: int, events: seq<Event>, cfg: Config): Clocked {
    if events == [] then Clocked(NOTHING, start, map[])
    else Next(After(start, events[..|events| - 1], cfg), events[|events| - 1], cfg)
  }

  ghost predicate LegalRun(start: int, events: seq<Event>, cfg: Config, known: set<Checker>) {
    events != [] ==>
      && LegalRun(start, events[..|events| - 1], cfg, known)
      && Legal(After(start, events[..|events| - 1], cfg), events[|events| - 1], cfg, known)
  }

  /** What a run did to the discovery cache, step by step. */
  function Log(start: int, events: seq<Event>, cfg: Config): seq<Action> {
    if events == [] then [] else
      var before := events[..|events| - 1];
      var core := CoreOf(events[|events| - 1], After(start, before, cfg).now);
      Log(start, before, cfg) + if core.Some? then [core.value] else []
  }

  lemma {:induction false} RunIsPunctual(start: int, events: seq<Event>, cfg: Config, known: set<Checker>)
    requires Sensible(cfg) && Clear(known) && LegalRun(start, events, cfg, known)
    ensures Punctual(After(start, events, cfg), cfg, known)
  {
    if events != [] {
      var before := events[..|events| - 1];
      RunIsPunctual(start, before, cfg, known);
      EventKeepsPunctual(After(start, before, cfg), events[|events| - 1], cfg, known);
    }
  }

  /** The timed run drives the discovery cache through its log. */
  lemma {:induction false} CoreFollowsLog(start: int, events: seq<Event>, cfg: Config, known: set<Checker>)
    requires Sensible(cfg) && Clear(known) && LegalRun(start, events, cfg, known)
    ensures After(start, events, cfg).core == Run(NOTHING, Log(start, events, cfg), cfg.max)
  {
    if events != [] {
      var before, last := events[..|events| - 1], events[|events| - 1];
      var c := After(start, before, cfg);
      CoreFollowsLog(start, before, cfg, known);
      var core := CoreOf(last, c.now);
      if core.Some? {
        RunOneMore(NOTHING, Log(start, before, cfg), core.value, cfg.max);
      } else {
        assert Log(start, before, cfg) + [] == Log(start, before, cfg);
      }
    }
  }

  /** What was delivered and loaded carried no failures. */
  lemma {:induction false} LogIsClean(start: int, events: seq<Event>, cfg: Config, known: set<Checker>)
    requires LegalRun(start, events, cfg, known)
    ensures CleanActions(Log(start, events, cfg))
  {
    if events != [] {
      LogIsClean(start, events[..|events| - 1], cfg, known);
    }
  }

  function HistoryOf(start: int, events: seq<Event>, cfg: Config, service: string): seq<HealthCache.Event> {
    History(NOTHING, Log(start, events, cfg), cfg.max, service)
  }

  /** No cached instance goes untouched for longer than an interval and a timeout. */
  lemma AlwaysFresh(start: int, events: seq<Event>, cfg: Config, known: set<Checker>, service: string, id: string)
    requires Sensible(cfg) && Clear(known) && LegalRun(start, events, cfg, known)
    ensures
      var c := After(start, events, cfg);
      var list := Cached(c.core.cache, service);
      var found := Find(list, id);
      found.Some? ==> c.now - list[found.value].lastChecked <= cfg.interval + cfg.timeout
  {
    var c := After(start, events, cfg);
    RunIsPunctual(start, events, cfg, known);
    var list := Cached(c.core.cache, service);
    if Find(list, id).Some? {
      assert HasEntries(c.core.stops, service, list);
      CachedHasEntry(c.core.stops, list, service, id);
      EntryIsOpen(c.core.stops, Key(service, id));
      assert OnTime(c, cfg, service, id);
      DueSoon(c.timers[c.core.stops.stop[Key(service, id)]], c.now, cfg);
    }
  }

  /** The same said of the history: the last probe or admission of a listed instance is recent. */
  lemma LastTouchIsRecent(start: int, events: seq<Event>, cfg: Config, known: set<Checker>, service: string, id: string)
    requires Sensible(cfg) && Clear(known) && LegalRun(start, events, cfg, known)
    ensures
      var h := HistoryOf(start, events, cfg, service);
      Listed(h, id) ==> After(start, events, cfg).now - LastTouch(h, id, cfg.max) <= cfg.interval + cfg.timeout
  {
    CoreFollowsLog(start, events, cfg, known);
    LogIsClean(start, events, cfg, known);
    ReachableCacheTellsItsHistory(Log(start, events, cfg), cfg.max, service, id);
    AlwaysFresh(start, events, cfg, known, service, id);
  }

  lemma HistoryOneMore(log: seq<Action>, a: Action, max: int, service: string)
    ensures History(NOTHING, log + [a], max, service)
         == History(NOTHING, log, max, service) + EventOf(Run(NOTHING, log, max), a, service)
  {
    assert (log + [a])[..|log|] == log;
  }

  lemma PacedOneMore(h: seq<HealthCache.Event>, e: HealthCache.Event, id: string, max: int, gap: int)
    requires Paced(h, id, max, gap)
    requires e.Probed? && e.id == id && Listed(h, id) ==> e.now - LastTouch(h, id, max) <= gap
    ensures Paced(h + [e], id, max, gap)
  {
    assert (h + [e])[..|h|] == h;
  }

  lemma ActionStaysPaced(log: seq<Action>, a: Action, max: int, service: string, id: string, gap: int)
    requires
      var h := History(NOTHING, log, max, service);
      Paced(h, id, max, gap) && (Listed(h, id) && a.Tick? ==> a.now - LastTouch(h, id, max) <= gap)
    requires !a.ProbeSection?
    ensures Paced(History(NOTHING, log + [a], max, service), id, max, gap)
  {
    HistoryOneMore(log, a, max, service);
    var h := History(NOTHING, log, max, service);
    var more := EventOf(Run(NOTHING, log, max), a, service);
    if more == [] {
      assert h + more == h;
    } else {
      assert more == [more[0]];
      PacedOneMore(h, more[0], id, max, gap);
    }
  }

  /**
   * Successive probes of a cached instance, and the first one after it was admitted, are recorded
   * at most an interval and a timeout apart.
   */
  lemma {:induction false} ProbesArePaced(start: int, events: seq<Event>, cfg: Config, known: set<Checker>, service: string, id: string)
    requires Sensible(cfg) && Clear(known) && LegalRun(start, events, cfg, known)
    ensures Paced(HistoryOf(start, events, cfg, service), id, cfg.max, cfg.interval + cfg.timeout)
  {
    if events != [] {
      var before, last := events[..|events| - 1], events[|events| - 1];
      ProbesArePaced(start, before, cfg, known, service, id);
      assert before + [last] == events;
      LastTouchIsRecent(start, before, cfg, known, service, id);
      EventStaysPaced(start, before, last, cfg, service, id, cfg.interval + cfg.timeout);
    }
  }

  lemma EventStaysPaced(start: int, before: seq<Event>, last: Event, cfg: Config, service: string, id: string, gap: int)
    requires
      var h := HistoryOf(start, before, cfg, service);
      Paced(h, id, cfg.max, gap) && (Listed(h, id) ==> After(start, before, cfg).now - LastTouch(h, id, cfg.max) <= gap)
    ensures Paced(HistoryOf(start, before + [last], cfg, service), id, cfg.max, gap)
  {
    var log, now := Log(start, before, cfg), After(start, before, cfg).now;
    LogOneMore(start, before, last, cfg);
    if CoreOf(last, now).Some? {
      CoreTicksNow(last, now);
      ActionStaysPaced(log, CoreOf(last, now).value, cfg.max, service, id, gap);
    }
  }

  lemma CoreTicksNow(e: Event, now: int)
    ensures CoreOf(e, now).Some? ==> !CoreOf(e, now).value.ProbeSection?
    ensures CoreOf(e, now).Some? && CoreOf(e, now).value.Tick? ==> CoreOf(e, now).value.now == now
  {
  }

  lemma LogOneMore(start: int, before: seq<Event>, last: Event, cfg: Config)
    ensures
      var core := CoreOf(last, After(start, before, cfg).now);
      Log(start, before + [last], cfg) == if core.Some? then Log(start, before, cfg) + [core.value] else Log(start, before, cfg)
  {
    assert (before + [last])[..|before|] == before;
  }

  // ---------------------------------------------------------------- lists without repetitions

  ghost predicate AllDistinct(s: State) {
    forall service | service in s.cache :: DistinctIDs(s.cache[service])
  }

  lemma SameIDsDistinct(a: seq<ServiceInstance>, b: seq<ServiceInstance>)
    requires |a| == |b| && DistinctIDs(a) && forall i | 0 <= i < |a| :: a[i].instanceID == b[i].instanceID
    ensures DistinctIDs(b)
  {
  }

  lemma EventKeepsDistinct(c: Clocked, e: Event, cfg: Config, known: set<Checker>)
    requires AllDistinct(c.core) && cfg.distinct && Legal(c, e, cfg, known)
    ensures AllDistinct(Next(c, e, cfg).core)
  {
    match e
    case Deliver(service, list) => SameIDsDistinct(list, Merge(Cached(c.core.cache, service), list, c.now));
    case Load(service, list) => SameIDsDistinct(list, HealthCache.Load(list, c.now));
    case Finish(i, ok) =>
      if i in c.core.stops.checkers && c.core.stops.checkers[i].service in c.core.cache {
        var own := c.core.stops.checkers[i];
        var list := c.core.cache[own.service];
        SameIDsDistinct(list, Probe(list, own.instanceID, ok, cfg.max, c.now));
      }
    case _ =>
  }

  lemma {:induction false} RunIsDistinct(start: int, events: seq<Event>, cfg: Config, known: set<Checker>)
    requires cfg.distinct && LegalRun(start, events, cfg, known)
    ensures AllDistinct(After(start, events, cfg).core)
  {
    if events != [] {
      RunIsDistinct(start, events[..|events| - 1], cfg, known);
      EventKeepsDistinct(After(start, events[..|events| - 1], cfg), events[|events| - 1], cfg, known);
    }
  }

  /** In a list without repetitions, every entry is the first with its ID. */
  lemma DistinctIsFirst(list: seq<ServiceInstance>, i: nat)
    requires DistinctIDs(list) && i < |list|
    ensures Find(list, list[i].instanceID) == Some(i)
  {
  }

  // ---------------------------------------------------------------- detection

  /** Some entry with the ID is healthy and fresh. */
  ghost predicate Offered(c: Clocked, service: string, id: string, minHealthyTime: int) {
    var list := Cached(c.core.cache, service);
    exists i :: 0 <= i < |list| && list[i].instanceID == id && Visible(list[i], c.now, minHealthyTime)
  }

  /** That is what `GetInstances` returns. */
  lemma OfferedIsReturned(c: Clocked, service: string, id: string, minHealthyTime: int)
    ensures Offered(c, service, id, minHealthyTime)
       <==> exists inst :: inst in FilterHealthy(Cached(c.core.cache, service), c.now, minHealthyTime) && inst.instanceID == id
  {
    var list := Cached(c.core.cache, service);
    forall inst
      ensures inst in FilterHealthy(list, c.now, minHealthyTime) <==> inst in list && Visible(inst, c.now, minHealthyTime)
    {
      FilterKeepsTheVisible(list, c.now, minHealthyTime, inst);
    }
    if i :| 0 <= i < |list| && list[i].instanceID == id && Visible(list[i], c.now, minHealthyTime) {
      assert list[i] in FilterHealthy(list, c.now, minHealthyTime);
    }
  }

  /** Without repetitions, what the cache offers is what its history lets through. */
  lemma OfferedIsSelectable(start: int, events: seq<Event>, cfg: Config, known: set<Checker>,
                            service: string, id: string, minHealthyTime: int)
    requires Sensible(cfg) && Clear(known) && LegalRun(start, events, cfg, known) && cfg.distinct
    ensures
      var c, h := After(start, events, cfg), HistoryOf(start, events, cfg, service);
      Clean(h) && (Offered(c, service, id, minHealthyTime) <==> Selectable(h, id, cfg.max, c.now, minHealthyTime))
  {
    CoreFollowsLog(start, events, cfg, known);
    LogIsClean(start, events, cfg, known);
    CacheIsItsHistory(Log(start, events, cfg), cfg.max, service);
    CleanHistory(NOTHING, Log(start, events, cfg), cfg.max, service);
    RunIsDistinct(start, events, cfg, known);
    FirstIsOffered(After(start, events, cfg), service, id, minHealthyTime);
  }

  lemma FirstIsOffered(c: Clocked, service: string, id: string, minHealthyTime: int)
    requires AllDistinct(c.core)
    ensures
      var list := Cached(c.core.cache, service);
      Offered(c, service, id, minHealthyTime) <==>
      Find(list, id).Some? && Visible(list[Find(list, id).value], c.now, minHealthyTime)
  {
    var list := Cached(c.core.cache, service);
    if i :| 0 <= i < |list| && list[i].instanceID == id && Visible(list[i], c.now, minHealthyTime) {
      DistinctIsFirst(list, i);
    }
  }

  /** The instance is offered exactly while it has failed fewer checks in a row than the limit. */
  ghost predicate ShowsFailures(start: int, events: seq<Event>, cfg: Config, service: string, id: string, minHealthyTime: int) {
    var c, h := After(start, events, cfg), HistoryOf(start, events, cfg, service);
    Listed(h, id) ==> (Offered(c, service, id, minHealthyTime) <==> TrailingFailures(Outcomes(h, id, cfg.max)) < cfg.max)
  }

  lemma FailuresShow(start: int, events: seq<Event>, cfg: Config, known: set<Checker>,
                     service: string, id: string, minHealthyTime: int)
    requires Sensible(cfg) && Clear(known) && LegalRun(start, events, cfg, known) && cfg.distinct
    requires cfg.interval + cfg.timeout < minHealthyTime
    ensures ShowsFailures(start, events, cfg, service, id, minHealthyTime)
  {
    if Listed(HistoryOf(start, events, cfg, service), id) {
      OfferedIsSelectable(start, events, cfg, known, service, id, minHealthyTime);
      LastTouchIsRecent(start, events, cfg, known, service, id);
      RecentIsSelectable(HistoryOf(start, events, cfg, service), id, cfg.max, cfg.interval + cfg.timeout,
                         After(start, events, cfg).now, minHealthyTime);
    }
  }

  /** The gaps are an interval and a timeout long. */
  ghost predicate KeepsFailing(start: int, events: seq<Event>, cfg: Config, service: string, id: string) {
    LongFailing(HistoryOf(start, events, cfg, service), id, cfg.max, cfg.interval + cfg.timeout, After(start, events, cfg).now)
  }

  lemma ListedIsKeptUp(start: int, events: seq<Event>, cfg: Config, known: set<Checker>, service: string, id: string)
    requires Sensible(cfg) && Clear(known) && LegalRun(start, events, cfg, known)
    requires Listed(HistoryOf(start, events, cfg, service), id)
    ensures KeptUp(HistoryOf(start, events, cfg, service), id, cfg.max, cfg.interval + cfg.timeout, After(start, events, cfg).now)
  {
    ProbesArePaced(start, events, cfg, known, service, id);
    LastTouchIsRecent(start, events, cfg, known, service, id);
    LogIsClean(start, events, cfg, known);
    CleanHistory(NOTHING, Log(start, events, cfg), cfg.max, service);
  }

  /** Whatever the minimum healthy time, such an instance is no longer offered. */
  lemma FailingIsWithdrawn(start: int, events: seq<Event>, cfg: Config, known: set<Checker>,
                           service: string, id: string, minHealthyTime: int)
    requires Sensible(cfg) && Clear(known) && LegalRun(start, events, cfg, known)
    requires cfg.distinct && KeepsFailing(start, events, cfg, service, id)
    ensures !Offered(After(start, events, cfg), service, id, minHealthyTime)
  {
    OfferedIsSelectable(start, events, cfg, known, service, id, minHealthyTime);
    KeepsFailingKeepsOut(start, events, cfg, known, service, id, minHealthyTime);
  }

  lemma KeepsFailingKeepsOut(start: int, events: seq<Event>, cfg: Config, known: set<Checker>,
                             service: string, id: string, minHealthyTime: int)
    requires Sensible(cfg) && Clear(known) && LegalRun(start, events, cfg, known) && KeepsFailing(start, events, cfg, service, id)
    ensures !Selectable(HistoryOf(start, events, cfg, service), id, cfg.max, After(start, events, cfg).now, minHealthyTime)
  {
    var h, now := HistoryOf(start, events, cfg, service), After(start, events, cfg).now;
    ListedIsKeptUp(start, events, cfg, known, service, id);
    FailingIsNotSelectable(h, id, cfg.max, cfg.interval + cfg.timeout, now, minHealthyTime);
  }

  // ---------------------------------------------------------------- the bound is exact

  /** One checker, with a probe under way, for the instances of one service. */
  ghost predicate OneProbing(c: Clocked, p: Checker, list: seq<ServiceInstance>) {
    && c.core.cache == map[p.service := list]
    && c.timers.Keys == {0} && c.timers[0].since.Some? && c.now <= c.timers[0].next
  }

  lemma LegalOneMore(start: int, events: seq<Event>, e: Event, cfg: Config, known: set<Checker>)
    requires LegalRun(start, events, cfg, known) && Legal(After(start, events, cfg), e, cfg, known)
    ensures LegalRun(start, events + [e], cfg, known)
    ensures After(start, events + [e], cfg) == Next(After(start, events, cfg), e, cfg)
  {
    assert (events + [e])[..|events|] == events;
  }

  /** While the probe lasts, time passes and the ticker keeps ticking. */
  lemma {:induction false} ProbeLasts(events: seq<Event>, time: nat, cfg: Config, known: set<Checker>,
                                      p: Checker, list: seq<ServiceInstance>)
    returns (longer: seq<Event>)
    requires Sensible(cfg) && LegalRun(0, events, cfg, known)
    requires
      var c := After(0, events, cfg);
      OneProbing(c, p, list) && c.now + time <= c.timers[0].since.value + cfg.timeout
    ensures LegalRun(0, longer, cfg, known)
    ensures OneProbing(After(0, longer, cfg), p, list) && After(0, longer, cfg).now == After(0, events, cfg).now + time
    decreases time, 1
  {
    var c := After(0, events, cfg);
    if c.now + time <= c.timers[0].next {
      LegalOneMore(0, events, Pass(time), cfg, known);
      longer := events + [Pass(time)];
    } else {
      var part := c.timers[0].next - c.now;
      LegalOneMore(0, events, Pass(part), cfg, known);
      LegalOneMore(0, events + [Pass(part)], Fire(0), cfg, known);
      var ticked := events + [Pass(part)] + [Fire(0)];
      longer := ProbeLastsOn(ticked, time - part, cfg, known, p, list);
    }
  }

  lemma {:induction false} ProbeLastsOn(events: seq<Event>, time: nat, cfg: Config, known: set<Checker>,
                                        p: Checker, list: seq<ServiceInstance>)
    returns (longer: seq<Event>)
    requires Sensible(cfg) && LegalRun(0, events, cfg, known) && time > 0
    requires
      var c := After(0, events, cfg);
      OneProbing(c, p, list) && c.now + time <= c.timers[0].since.value + cfg.timeout && c.now < c.timers[0].next
    ensures LegalRun(0, longer, cfg, known)
    ensures OneProbing(After(0, longer, cfg), p, list) && After(0, longer, cfg).now == After(0, events, cfg).now + time
    decreases time, 0
  {
    LegalOneMore(0, events, Pass(1), cfg, known);
    longer := ProbeLasts(events + [Pass(1)], time - 1, cfg, known, p, list);
  }

  /** One checker, which waits for the tick an interval from now, for the instances of one service. */
  ghost predicate OneWaiting(c: Clocked, cfg: Config, p: Checker, list: seq<ServiceInstance>) {
    && c.core.cache == map[p.service := list] && Find(list, p.instanceID) == Some(0)
    && c.core.stops.checkers == map[0 := p] && c.core.stops.stop == map[KeyOf(p) := 0] && c.core.stops.ended == {}
    && c.timers == map[0 := Timer(c.now + cfg.interval, false, None)]
  }

  /** Loading the instance, however often the list has it, starts one checker. */
  lemma LoadingStops(p: Checker, list: seq<ServiceInstance>)
    requires p.port != "" && (list == [At(p)] || list == [At(p), At(p)])
    ensures
      var t := StartMissing(EMPTY, [], p.service, list);
      t.checkers == map[0 := p] && t.stop == map[KeyOf(p) := 0] && t.ended == {}
  {
    OneInstanceStarts(EMPTY, [], p.service, At(p));
    var one := StartPorts(EMPTY, p.service, At(p));
    assert one.checkers == map[0 := p] && one.stop == map[KeyOf(p) := 0];
    assert [At(p), At(p)][..1] == [At(p)];
    assert StartMissing(EMPTY, [], p.service, [At(p), At(p)]) == StartPorts(one, p.service, At(p));
  }

  lemma Loading(p: Checker, list: seq<ServiceInstance>, cfg: Config, known: set<Checker>)
    requires Sensible(cfg) && p in known && p.port != ""
    requires list == [At(p)] || (list == [At(p), At(p)] && !cfg.distinct)
    ensures LegalRun(0, [Load(p.service, list)], cfg, known)
    ensures
      var c := After(0, [Load(p.service, list)], cfg);
      c.now == 0 && OneWaiting(c, cfg, p, HealthCache.Load(list, 0))
  {
    var e0: seq<Event> := [];
    assert e0 + [Load(p.service, list)] == [Load(p.service, list)];
    assert Legal(After(0, e0, cfg), Load(p.service, list), cfg, known) by {
      assert CheckerOf(p.service, At(p)) == p;
    }
    LegalOneMore(0, e0, Load(p.service, list), cfg, known);
    LoadingStops(p, list);
    LoadedOnce(p, list, cfg);
  }

  lemma LoadedOnce(p: Checker, list: seq<ServiceInstance>, cfg: Config)
    requires p.port != "" && list != [] && list[0] == At(p)
    requires
      var t := StartMissing(EMPTY, [], p.service, list);
      t.checkers == map[0 := p] && t.stop == map[KeyOf(p) := 0] && t.ended == {}
    ensures OneWaiting(Next(Clocked(NOTHING, 0, map[]), Load(p.service, list), cfg), cfg, p, HealthCache.Load(list, 0))
  {
    var c := Next(Clocked(NOTHING, 0, map[]), Load(p.service, list), cfg);
    assert c.core.cache == map[p.service := HealthCache.Load(list, 0)];
    assert c.timers == map[0 := Timer(cfg.interval, false, None)];
  }

  /** An interval passes, the ticker ticks, and the probe begins. */
  lemma BeginningSteps(c: Clocked, cfg: Config, known: set<Checker>, p: Checker, list: seq<ServiceInstance>)
    requires Sensible(cfg) && OneWaiting(c, cfg, p, list)
    ensures
      var passed := Next(c, Pass(cfg.interval), cfg);
      var ticked := Next(passed, Fire(0), cfg);
      && Legal(c, Pass(cfg.interval), cfg, known) && Legal(passed, Fire(0), cfg, known) && Legal(ticked, Begin(0), cfg, known)
      && Next(ticked, Begin(0), cfg)
         == Clocked(c.core, passed.now, map[0 := Timer(passed.now + cfg.interval, false, Some(passed.now))])
      && passed.now == c.now + cfg.interval
  {
  }

  lemma Beginning(events: seq<Event>, cfg: Config, known: set<Checker>, p: Checker, list: seq<ServiceInstance>)
    returns (longer: seq<Event>)
    requires Sensible(cfg) && LegalRun(0, events, cfg, known) && OneWaiting(After(0, events, cfg), cfg, p, list)
    ensures LegalRun(0, longer, cfg, known)
    ensures
      var c, c' := After(0, events, cfg), After(0, longer, cfg);
      && c'.core == c.core && c'.now == c.now + cfg.interval && OneProbing(c', p, list)
      && c'.timers == map[0 := Timer(c'.now + cfg.interval, false, Some(c'.now))]
  {
    BeginningSteps(After(0, events, cfg), cfg, known, p, list);
    LegalOneMore(0, events, Pass(cfg.interval), cfg, known);
    var e1 := events + [Pass(cfg.interval)];
    LegalOneMore(0, e1, Fire(0), cfg, known);
    LegalOneMore(0, e1 + [Fire(0)], Begin(0), cfg, known);
    longer := e1 + [Fire(0)] + [Begin(0)];
  }

  /** The probe ends as soon as it began. */
  lemma FinishingStep(c: Clocked, ok: bool, cfg: Config, known: set<Checker>, p: Checker, list: seq<ServiceInstance>)
    requires OneProbing(c, p, list) && c.timers == map[0 := Timer(c.now + cfg.interval, false, Some(c.now))]
    requires Find(list, p.instanceID) == Some(0)
    requires c.core.stops.checkers == map[0 := p] && c.core.stops.stop == map[KeyOf(p) := 0] && c.core.stops.ended == {}
    ensures Legal(c, Finish(0, ok), cfg, known)
    ensures Next(c, Finish(0, ok), cfg).now == c.now
    ensures OneWaiting(Next(c, Finish(0, ok), cfg), cfg, p, Probe(list, p.instanceID, ok, cfg.max, c.now))
  {
    FindByIDs(list, Probe(list, p.instanceID, ok, cfg.max, c.now), p.instanceID);
  }

  /** A round: the tick comes after an interval, and the probe takes no time. */
  lemma Round(events: seq<Event>, ok: bool, cfg: Config, known: set<Checker>, p: Checker, list: seq<ServiceInstance>)
    returns (longer: seq<Event>)
    requires Sensible(cfg) && LegalRun(0, events, cfg, known) && OneWaiting(After(0, events, cfg), cfg, p, list)
    ensures LegalRun(0, longer, cfg, known)
    ensures
      var c, c' := After(0, events, cfg), After(0, longer, cfg);
      c'.now == c.now + cfg.interval && OneWaiting(c', cfg, p, Probe(list, p.instanceID, ok, cfg.max, c'.now))
  {
    var begun := Beginning(events, cfg, known, p, list);
    FinishingStep(After(0, begun, cfg), ok, cfg, known, p, list);
    LegalOneMore(0, begun, Finish(0, ok), cfg, known);
    longer := begun + [Finish(0, ok)];
  }

  /** The first of two entries after so many rounds. */
  function Probed(first: ServiceInstance, ok: bool, rounds: nat, cfg: Config, start: int): ServiceInstance {
    if rounds == 0 then first
    else ProbeOne(Probed(first, ok, rounds - 1, cfg, start), ok, cfg.max, start + rounds * cfg.interval)
  }

  lemma {:induction false} Rounds(events: seq<Event>, ok: bool, rounds: nat, cfg: Config, known: set<Checker>, p: Checker,
                                  first: ServiceInstance, second: ServiceInstance)
    returns (longer: seq<Event>)
    requires Sensible(cfg) && LegalRun(0, events, cfg, known) && OneWaiting(After(0, events, cfg), cfg, p, [first, second])
    ensures LegalRun(0, longer, cfg, known)
    ensures
      var c, c' := After(0, events, cfg), After(0, longer, cfg);
      && c'.now == c.now + rounds * cfg.interval
      && OneWaiting(c', cfg, p, [Probed(first, ok, rounds, cfg, c.now), second])
  {
    if rounds == 0 {
      longer := events;
    } else {
      var before := Rounds(events, ok, rounds - 1, cfg, known, p, first, second);
      var start := After(0, events, cfg).now;
      var list := [Probed(first, ok, rounds - 1, cfg, start), second];
      longer := Round(before, ok, cfg, known, p, list);
      var now := After(0, longer, cfg).now;
      assert now == start + rounds * cfg.interval;
      assert Probe(list, p.instanceID, ok, cfg.max, now) == [Probed(first, ok, rounds, cfg, start), second];
    }
  }

  lemma {:induction false} ProbedHealth(first: ServiceInstance, ok: bool, rounds: nat, cfg: Config, start: int)
    requires first.isHealthy && first.failedChecks == 0 && cfg.max >= 1
    ensures
      var last := Probed(first, ok, rounds, cfg, start);
      && last.instanceID == first.instanceID
      && last.failedChecks == (if ok then 0 else rounds) && (last.isHealthy <==> ok || rounds < cfg.max)
  {
    if rounds > 0 {
      ProbedHealth(first, ok, rounds - 1, cfg, start);
    }
  }

  /** The first tick comes after an interval, and its probe takes the whole timeout. */
  lemma SlowProbe(cfg: Config, known: set<Checker>, p: Checker) returns (events: seq<Event>)
    requires Sensible(cfg) && p in known && p.port != ""
    ensures LegalRun(0, events, cfg, known)
    ensures
      var c := After(0, events, cfg);
      c.core.cache == map[p.service := HealthCache.Load([At(p)], 0)] && c.now == cfg.interval + cfg.timeout
  {
    var list := HealthCache.Load([At(p)], 0);
    Loading(p, [At(p)], cfg, known);
    var begun := Beginning([Load(p.service, [At(p)])], cfg, known, p, list);
    events := ProbeLasts(begun, cfg.timeout, cfg, known, p, list);
  }

  /** No healthy cached entry is withheld because its last check is too old. */
  ghost predicate NoneStale(c: Clocked, minHealthyTime: int) {
    forall service, i | service in c.core.cache && 0 <= i < |c.core.cache[service]| ::
      c.core.cache[service][i].isHealthy ==> c.now - c.core.cache[service][i].lastChecked < minHealthyTime
  }

  // ---------------------------------------------------------------- a repeated ID

  /** The second entry with an ID is never probed: it goes stale while it is healthy. */
  lemma RepeatedGoesStale(cfg: Config, known: set<Checker>, p: Checker, minHealthyTime: int) returns (events: seq<Event>)
    requires Sensible(cfg) && p in known && p.port != "" && !cfg.distinct
    ensures LegalRun(0, events, cfg, known) && !NoneStale(After(0, events, cfg), minHealthyTime)
  {
    var list := HealthCache.Load([At(p), At(p)], 0);
    assert list == [list[0], list[1]];
    Loading(p, [At(p), At(p)], cfg, known);
    var rounds: nat := if minHealthyTime > 0 then minHealthyTime else 0;
    events := Rounds([Load(p.service, [At(p), At(p)])], true, rounds, cfg, known, p, list[0], list[1]);
    RoundsTakeLonger(rounds, cfg.interval);
    var c := After(0, events, cfg);
    assert c.core.cache[p.service][1] == list[1];
  }

  lemma RoundsTakeLonger(rounds: nat, interval: int)
    requires interval >= 1
    ensures rounds * interval >= rounds
  {
  }

  /** All but one of the failures that give the instance up. */
  lemma RepeatedFails(cfg: Config, known: set<Checker>, p: Checker)
    returns (events: seq<Event>, first: ServiceInstance, second: ServiceInstance)
    requires Sensible(cfg) && p in known && p.port != "" && !cfg.distinct
    ensures LegalRun(0, events, cfg, known) && OneWaiting(After(0, events, cfg), cfg, p, [first, second])
    ensures first == At(p).(isHealthy := true, lastChecked := After(0, events, cfg).now, failedChecks := cfg.max - 1)
  {
    var list := HealthCache.Load([At(p), At(p)], 0);
    assert list == [list[0], list[1]];
    Loading(p, [At(p), At(p)], cfg, known);
    events := Rounds([Load(p.service, [At(p), At(p)])], false, cfg.max - 1, cfg, known, p, list[0], list[1]);
    first, second := Probed(list[0], false, cfg.max - 1, cfg, 0), list[1];
    ProbedHealth(list[0], false, cfg.max - 1, cfg, 0);
    ProbedTime(list[0], false, cfg.max - 1, cfg, 0);
    ProbedIsItself(list[0], false, cfg.max - 1, cfg, 0);
  }

  /** And the list again. */
  lemma RepeatedIsRenewed(cfg: Config, known: set<Checker>, p: Checker) returns (events: seq<Event>, first: ServiceInstance)
    requires Sensible(cfg) && p in known && p.port != "" && !cfg.distinct
    ensures LegalRun(0, events, cfg, known) && OneWaiting(After(0, events, cfg), cfg, p, [first, first])
    ensures first.instanceID == p.instanceID && first.isHealthy && first.failedChecks == cfg.max - 1
    ensures first.lastChecked == After(0, events, cfg).now
  {
    var failed, one, second := RepeatedFails(cfg, known, p);
    first := one;
    var c := After(0, failed, cfg);
    assert Legal(c, Deliver(p.service, [At(p), At(p)]), cfg, known) by {
      assert CheckerOf(p.service, At(p)) == p;
    }
    LegalOneMore(0, failed, Deliver(p.service, [At(p), At(p)]), cfg, known);
    events := failed + [Deliver(p.service, [At(p), At(p)])];
    Redelivered(c, cfg, p, first, second);
  }

  lemma ProbedTime(first: ServiceInstance, ok: bool, rounds: nat, cfg: Config, start: int)
    requires first.lastChecked == start
    ensures Probed(first, ok, rounds, cfg, start).lastChecked == start + rounds * cfg.interval
  {
  }

  lemma {:induction false} ProbedIsItself(first: ServiceInstance, ok: bool, rounds: nat, cfg: Config, start: int)
    ensures
      var last := Probed(first, ok, rounds, cfg, start);
      last == first.(isHealthy := last.isHealthy, lastChecked := last.lastChecked, failedChecks := last.failedChecks)
  {
    if rounds > 0 {
      ProbedIsItself(first, ok, rounds - 1, cfg, start);
    }
  }

  /** A delivery gives both entries the health data of the first. */
  lemma Redelivered(c: Clocked, cfg: Config, p: Checker, first: ServiceInstance, second: ServiceInstance)
    requires OneWaiting(c, cfg, p, [first, second]) && first.isHealthy
    requires first == At(p).(isHealthy := true, lastChecked := first.lastChecked, failedChecks := first.failedChecks)
    ensures OneWaiting(Next(c, Deliver(p.service, [At(p), At(p)]), cfg), cfg, p, [first, first])
  {
    var cached, twice := [first, second], [At(p), At(p)];
    assert Merge(cached, twice, c.now) == [first, first];
    assert twice[..1] == [At(p)];
    OneInstanceStarts(c.core.stops, cached, p.service, At(p));
    assert StartMissing(c.core.stops, cached, p.service, twice) == c.core.stops;
    var c' := Next(c, Deliver(p.service, twice), cfg);
    assert c'.core.cache == map[p.service := [first, first]];
    assert c'.timers == c.timers;
  }

  /** One more failure: the first entry is given up, and the second is still offered. */
  lemma RepeatedHidesFailures(cfg: Config, known: set<Checker>, p: Checker, minHealthyTime: int) returns (events: seq<Event>)
    requires Sensible(cfg) && p in known && p.port != "" && !cfg.distinct && cfg.interval < minHealthyTime && Clear(known)
    ensures LegalRun(0, events, cfg, known) && !ShowsFailures(0, events, cfg, p.service, p.instanceID, minHealthyTime)
  {
    var renewed, first := RepeatedIsRenewed(cfg, known, p);
    events := Round(renewed, false, cfg, known, p, [first, first]);
    var c := After(0, events, cfg);
    var list := Probe([first, first], p.instanceID, false, cfg.max, c.now);
    assert list == [ProbeOne(first, false, cfg.max, c.now), first];
    assert Cached(c.core.cache, p.service) == list;
    assert list[1].instanceID == p.instanceID && Visible(list[1], c.now, minHealthyTime);
    CoreFollowsLog(0, events, cfg, known);
    LogIsClean(0, events, cfg, known);
    ReachableCacheTellsItsHistory(Log(0, events, cfg), cfg.max, p.service, p.instanceID);
    assert Offered(c, p.service, p.instanceID, minHealthyTime);
  }

  // ---------------------------------------------------------------- exactly when

  /** The healthy instance whose probe takes the whole timeout is neither fresh nor offered. */
  lemma SlowProbeWithholds(cfg: Config, known: set<Checker>, p: Checker, minHealthyTime: int) returns (events: seq<Event>)
    requires Sensible(cfg) && Clear(known) && p in known && cfg.interval + cfg.timeout >= minHealthyTime
    ensures LegalRun(0, events, cfg, known) && !NoneStale(After(0, events, cfg), minHealthyTime)
    ensures !ShowsFailures(0, events, cfg, p.service, p.instanceID, minHealthyTime)
  {
    events := SlowProbe(cfg, known, p);
    var c := After(0, events, cfg);
    assert !NoneStale(c, minHealthyTime) by {
      assert p.service in c.core.cache && c.core.cache[p.service][0].isHealthy;
    }
    CoreFollowsLog(0, events, cfg, known);
    LogIsClean(0, events, cfg, known);
    ReachableCacheTellsItsHistory(Log(0, events, cfg), cfg.max, p.service, p.instanceID);
    assert Find(Cached(c.core.cache, p.service), p.instanceID) == Some(0);
    assert !Offered(c, p.service, p.instanceID, minHealthyTime);
  }

  lemma NoneIsStale(start: int, events: seq<Event>, cfg: Config, known: set<Checker>, minHealthyTime: int)
    requires Sensible(cfg) && Clear(known) && LegalRun(start, events, cfg, known)
    requires cfg.distinct && cfg.interval + cfg.timeout < minHealthyTime
    ensures NoneStale(After(start, events, cfg), minHealthyTime)
  {
    var c := After(start, events, cfg);
    RunIsDistinct(start, events, cfg, known);
    forall service, i | service in c.core.cache && 0 <= i < |c.core.cache[service]|
      ensures c.now - c.core.cache[service][i].lastChecked < minHealthyTime
    {
      DistinctIsFirst(c.core.cache[service], i);
      AlwaysFresh(start, events, cfg, known, service, c.core.cache[service][i].instanceID);
    }
  }

  /**
   * Over all runs, no healthy cached entry is ever withheld as stale exactly when no list names an
   * ID twice and an interval and a timeout together stay below the minimum healthy time.
   */
  lemma NeverStaleIff(cfg: Config, known: set<Checker>, minHealthyTime: int)
    requires Sensible(cfg) && Clear(known) && known != {}
    ensures (forall start: int, events: seq<Event> | LegalRun(start, events, cfg, known) ::
               NoneStale(After(start, events, cfg), minHealthyTime))
       <==> cfg.distinct && cfg.interval + cfg.timeout < minHealthyTime
  {
    var p :| p in known;
    if cfg.interval + cfg.timeout >= minHealthyTime {
      var events := SlowProbeWithholds(cfg, known, p, minHealthyTime);
    } else if !cfg.distinct {
      var events := RepeatedGoesStale(cfg, known, p, minHealthyTime);
    } else {
      forall start: int, events: seq<Event> | LegalRun(start, events, cfg, known)
        ensures NoneStale(After(start, events, cfg), minHealthyTime)
      {
        NoneIsStale(start, events, cfg, known, minHealthyTime);
      }
    }
  }

  /**
   * Over all runs, what `GetInstances` returns shows failures in time, each instance being offered
   * exactly while it has failed fewer checks in a row than the limit, under the same condition.
   */
  lemma FailuresShowIff(cfg: Config, known: set<Checker>, minHealthyTime: int)
    requires Sensible(cfg) && Clear(known) && known != {}
    ensures (forall start: int, events: seq<Event>, service: string, id: string | LegalRun(start, events, cfg, known) ::
               ShowsFailures(start, events, cfg, service, id, minHealthyTime))
       <==> cfg.distinct && cfg.interval + cfg.timeout < minHealthyTime
  {
    var p :| p in known;
    if cfg.interval + cfg.timeout >= minHealthyTime {
      var events := SlowProbeWithholds(cfg, known, p, minHealthyTime);
    } else if !cfg.distinct {
      var events := RepeatedHidesFailures(cfg, known, p, minHealthyTime);
    } else {
      forall start: int, events: seq<Event>, service: string, id: string | LegalRun(start, events, cfg, known)
        ensures ShowsFailures(start, events, cfg, service, id, minHealthyTime)
      {
        FailuresShow(start, events, cfg, known, service, id, minHealthyTime);
      }
    }
  }
}
