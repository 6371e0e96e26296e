/** Ties the discovery cache, as its goroutines change it, to the history of one service. */
module CacheHistory {
  import opened Common
  import opened StopChannels
  import opened HealthCache
  import opened Discovery

  /** What an action means for one service: nothing, or one event. */
  function EventOf(s: State, a: Action, service: string): seq<Event> {
    match a
    case Watched(other, list, now) => if other == service then [Merged(list, now)] else []
    case Got(other, list, now) => if other == service then [Loaded(list, now)] else []
    case Tick(c, ok, now) => ProbeOf(s, c, ok, now, service)
    case ProbeSection(c, ok, now) => ProbeOf(s, c, ok, now, service)
    case _ => []
  }

  function ProbeOf(s: State, c: nat, ok: bool, now: int, service: string): seq<Event> {
    if c in s.stops.checkers && c !in s.stops.ended && s.stops.checkers[c].service == service
    then [Probed(s.stops.checkers[c].instanceID, ok, now)] else []
  }

  function History(s: State, actions: seq<Action>, max: int, service: string): seq<Event> {
    if actions == [] then [] else
      var before := actions[..|actions| - 1];
      History(s, before, max, service) + EventOf(Run(s, before, max), actions[|actions| - 1], service)
  }

  lemma {:induction false} RunOneMore(s: State, actions: seq<Action>, last: Action, max: int)
    ensures Run(s, actions + [last], max) == Apply(Run(s, actions, max), last, max)
    decreases |actions|
  {
    if actions == [] {
      assert [] + [last] == [last] && [last][1..] == [];
      assert Run(s, [last], max) == Run(Apply(s, last, max), [], max);
    } else {
      assert (actions + [last])[1..] == actions[1..] + [last];
      RunOneMore(Apply(s, actions[0], max), actions[1..], last, max);
    }
  }

  lemma OneMoreEvent(events: seq<Event>, e: Event, max: int)
    ensures CacheAfter(events + [e], max) == AfterEvent(CacheAfter(events, max), e, max)
  {
  }

  lemma GoneProbeChangesNothing(list: seq<ServiceInstance>, id: string, ok: bool, max: int, now: int)
    requires Find(list, id).None?
    ensures Probe(list, id, ok, max, now) == list
  {
  }

  /** The cached list of a service after a step, in terms of the event the step is for it. */
  lemma StepIsItsEvent(s: State, a: Action, max: int, service: string)
    ensures
      var es := EventOf(s, a, service);
      var list := Cached(s.cache, service);
      Cached(Apply(s, a, max).cache, service) == if es == [] then list else AfterEvent(list, es[0], max)
  {
    if (a.Tick? || a.ProbeSection?) && a.checker in s.stops.checkers && a.checker !in s.stops.ended {
      var c := s.stops.checkers[a.checker];
      if c.service == service && Gone(s, c) {
        GoneProbeChangesNothing(Cached(s.cache, service), c.instanceID, a.ok, max, a.now);
      }
    }
  }

  /** The cached list of the service is what the events make of an empty one. */
  ghost predicate Matches(s: State, service: string, events: seq<Event>, max: int) {
    Cached(s.cache, service) == CacheAfter(events, max)
  }

  lemma StepFollowsHistory(s: State, a: Action, max: int, service: string, events: seq<Event>)
    requires Matches(s, service, events, max)
    ensures Matches(Apply(s, a, max), service, events + EventOf(s, a, service), max)
  {
    StepIsItsEvent(s, a, max, service);
    var es := EventOf(s, a, service);
    if es == [] {
      assert events + es == events;
    } else {
      assert es == [es[0]];
      OneMoreEvent(events, es[0], max);
    }
  }

  lemma {:induction false} RunMatchesHistory(start: State, actions: seq<Action>, max: int, service: string)
    requires Matches(start, service, [], max)
    ensures Matches(Run(start, actions, max), service, History(start, actions, max, service), max)
    decreases |actions|
  {
    if actions != [] {
      var before, last := actions[..|actions| - 1], actions[|actions| - 1];
      RunMatchesHistory(start, before, max, service);
      HistoryFollows(start, before, last, max, service);
      assert before + [last] == actions;
    }
  }

  /** After any run, the cached list of a service is the one its history produces. */
  lemma CacheIsItsHistory(actions: seq<Action>, max: int, service: string)
    ensures Cached(Run(State(map[], EMPTY, {}), actions, max).cache, service)
         == CacheAfter(History(State(map[], EMPTY, {}), actions, max, service), max)
  {
    RunMatchesHistory(State(map[], EMPTY, {}), actions, max, service);
  }

  lemma HistoryFollows(start: State, before: seq<Action>, last: Action, max: int, service: string)
    requires Matches(Run(start, before, max), service, History(start, before, max, service), max)
    ensures Matches(Run(start, before + [last], max), service, History(start, before + [last], max, service), max)
  {
    var s, events := Run(start, before, max), History(start, before, max, service);
    RunOneMore(start, before, last, max);
    StepFollowsHistory(s, last, max, service, events);
    assert (before + [last])[..|before|] == before;
    assert History(start, before + [last], max, service) == events + EventOf(s, last, service);
  }

  ghost predicate CleanActions(actions: seq<Action>) {
    forall a | a in actions && (a.Watched? || a.Got?) :: forall i | 0 <= i < |a.list| :: a.list[i].failedChecks == 0
  }

  lemma {:induction false} CleanHistory(s: State, actions: seq<Action>, max: int, service: string)
    requires CleanActions(actions)
    ensures Clean(History(s, actions, max, service))
    decreases |actions|
  {
    if actions != [] {
      var before := actions[..|actions| - 1];
      assert forall a | a in before :: a in actions;
      CleanHistory(s, before, max, service);
      var last := actions[|actions| - 1];
      assert last in actions;
    }
  }

  /**
   * In every reachable state, under every interleaving of deliveries, loads and torn or whole
   * ticks, each cached entry is healthy exactly while it has failed fewer checks than the limit,
   * and the first entry with an ID carries the trailing failures of its history.
   */
  lemma ReachableCacheTellsItsHistory(actions: seq<Action>, max: int, service: string, id: string)
    requires max >= 1 && CleanActions(actions)
    ensures
      var list := Cached(Run(State(map[], EMPTY, {}), actions, max).cache, service);
      var events := History(State(map[], EMPTY, {}), actions, max, service);
      HealthMatchesCounter(list, max) && Tells(events, id, max, list)
  {
    var start := State(map[], EMPTY, {});
    var events := History(start, actions, max, service);
    CacheIsItsHistory(actions, max, service);
    CleanHistory(start, actions, max, service);
    HealthyIffBelowTheLimit(events, max);
    CacheFollowsHistory(events, id, max);
  }
}
