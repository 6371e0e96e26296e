/** How a cached instance can stop being checked, and for how long. */
module LostCheckers {
  import opened Common
  import opened StopChannels
  import opened HealthCache
  import opened Discovery
  import opened LiveCheckers

  /** Some checker of the instance is running, whatever address it dials. */
  ghost predicate HasChecker(s: Stops, service: string, id: string) {
    exists c :: c in s.checkers && s.checkers[c].service == service && s.checkers[c].instanceID == id && Open(s, c) && c !in s.ended
  }

  /** The instance is cached and no checker of its own is running. */
  ghost predicate Lost(s: State, service: string, id: string) {
    Find(Cached(s.cache, service), id).Some? && !HasChecker(s.stops, service, id)
  }

  /**
   * A tick that is torn between its critical sections loses the checker: the instance goes,
   * the tick notices, the instance comes back while the old entry still stands, so nothing is
   * started for it, and then the tick closes the entry.
   */
  lemma TornTickLosesTheChecker(service: string, x: ServiceInstance, ok: bool, max: int)
    requires x.httpPort != ""
    ensures
      var s := Run(NOTHING, [Got(service, [x], 0), Watched(service, [], 1)], max);
      var t := Run(s, [ProbeSection(0, ok, 2), Watched(service, [x], 3)], max);
      Lost(Apply(t, CloseSection(0), max), service, x.instanceID)
  {
    var s0 := Apply(NOTHING, Got(service, [x], 0), max);
    OneInstanceStarts(EMPTY, [], service, x);
    assert s0.stops.stop == map[Key(service, x.instanceID) := 0];
    RunTwo(NOTHING, Got(service, [x], 0), Watched(service, [], 1), max);
    var s := Apply(s0, Watched(service, [], 1), max);
    assert s.stops == s0.stops && s.cache[service] == [];
    RunTwo(s, ProbeSection(0, ok, 2), Watched(service, [x], 3), max);
    var t0 := Apply(s, ProbeSection(0, ok, 2), max);
    OneInstanceStarts(t0.stops, [], service, x);
    var t := Apply(t0, Watched(service, [x], 3), max);
    assert t.stops.checkers == map[0 := Checker(service, x.instanceID, x.host, x.httpPort)];
    assert 0 in t.pending && t.stops.stop[Key(service, x.instanceID)] == 0;
  }

  /** A checker whose context is done, as after a registration with a deadline, is not replaced. */
  lemma EndedContextLosesTheChecker(service: string, x: ServiceInstance, max: int)
    requires x.httpPort != ""
    ensures
      var s := Run(NOTHING, [Registered(service, x.instanceID, x.host, x.httpPort), Ended(0)], max);
      Lost(Apply(s, Got(service, [x], 1), max), service, x.instanceID)
  {
    RunTwo(NOTHING, Registered(service, x.instanceID, x.host, x.httpPort), Ended(0), max);
    var s := Run(NOTHING, [Registered(service, x.instanceID, x.host, x.httpPort), Ended(0)], max);
    assert s.stops.ended == {0} && Key(service, x.instanceID) in s.stops.stop;
    OneInstanceStarts(s.stops, [], service, x);
    StartPortsTaken(s.stops, service, x);
  }

  /** Deliveries that keep naming the instance start nothing for it. */
  lemma {:induction false} NoStartForCached(s: Stops, cached: seq<ServiceInstance>, service: string,
                                            incoming: seq<ServiceInstance>, owner: string, id: string)
    requires !HasChecker(s, owner, id) && (service == owner ==> Find(cached, id).Some?)
    ensures
      var t := StartMissing(s, cached, service, incoming);
      !HasChecker(t, owner, id) && t.closed == s.closed && s.next <= t.next
  {
    if incoming != [] {
      var n := |incoming| - 1;
      NoStartForCached(s, cached, service, incoming[..n], owner, id);
      var before := StartMissing(s, cached, service, incoming[..n]);
      if Find(cached, incoming[n].instanceID).None? {
        StartsForAnother(before, service, incoming[n], owner, id);
      }
    }
  }

  lemma StartsForAnother(s: Stops, service: string, inst: ServiceInstance, owner: string, id: string)
    requires !HasChecker(s, owner, id) && (service, inst.instanceID) != (owner, id)
    ensures
      var t := StartPorts(s, service, inst);
      !HasChecker(t, owner, id) && t.closed == s.closed && s.next <= t.next
  {
    var http := if inst.httpPort != "" then Start(s, service, inst.instanceID, inst.host, inst.httpPort) else s;
    StartsOneForAnother(s, service, inst.instanceID, inst.host, inst.httpPort, owner, id);
    StartsOneForAnother(http, service, inst.instanceID, inst.host, inst.grpcPort, owner, id);
  }

  lemma StartsOneForAnother(s: Stops, service: string, instanceID: string, host: string, port: string, owner: string, id: string)
    requires !HasChecker(s, owner, id) && (service, instanceID) != (owner, id)
    ensures !HasChecker(Start(s, service, instanceID, host, port), owner, id)
  {
  }

  /** A watch that keeps listing the instance, ticks whole or torn, and anything for other instances. */
  ghost predicate KeepsListing(a: Action, service: string, id: string) {
    && (a.Watched? && a.service == service ==> Find(a.list, id).Some?)
    && (a.Got? ==> a.service != service)
    && (a.Registered? ==> (a.service, a.id) != (service, id))
  }

  lemma LostStaysLost(s: State, a: Action, max: int, service: string, id: string)
    requires Lost(s, service, id) && Valid(s.stops) && KeepsListing(a, service, id)
    ensures Lost(Apply(s, a, max), service, id) && Valid(Apply(s, a, max).stops)
  {
    match a
    case Watched(other, list, now) =>
      DeliveryStaysLost(s, other, list, now, max, service, id);
    case Got(other, list, now) =>
      NoStartForCached(s.stops, [], other, list, service, id);
      StartMissingKeepsValid(s.stops, [], other, list);
    case Tick(channel, ok, now) => ProbeOrClose(s, channel, ok, now, max, service, id);
    case ProbeSection(channel, ok, now) => ProbeOrClose(s, channel, ok, now, max, service, id);
    case CloseSection(channel) =>
      if channel in s.stops.checkers {
        ClosingChecksNothing(s.stops, KeyOf(s.stops.checkers[channel]), service, id);
      }
    case Registered(other, i, host, port) =>
      StartsOneForAnother(s.stops, other, i, host, port, service, id);
      StartKeepsValid(s.stops, other, i, host, port);
    case Deregistered(other, i) => ClosingChecksNothing(s.stops, Key(other, i), service, id);
    case Ended(channel) => EndKeepsValid(s.stops, channel);
  }

  lemma DeliveryStaysLost(s: State, other: string, list: seq<ServiceInstance>, now: int, max: int, service: string, id: string)
    requires Lost(s, service, id) && Valid(s.stops) && (other == service ==> Find(list, id).Some?)
    ensures
      var t := Apply(s, Watched(other, list, now), max);
      Lost(t, service, id) && Valid(t.stops)
  {
    var cached := Cached(s.cache, other);
    NoStartForCached(s.stops, cached, other, list, service, id);
    StartMissingKeepsValid(s.stops, cached, other, list);
    FindByIDs(list, Merge(cached, list, now), id);
  }

  lemma ProbeOrClose(s: State, channel: nat, ok: bool, now: int, max: int, service: string, id: string)
    requires Lost(s, service, id) && Valid(s.stops)
    ensures Lost(Apply(s, Tick(channel, ok, now), max), service, id) && Valid(Apply(s, Tick(channel, ok, now), max).stops)
    ensures Lost(Apply(s, ProbeSection(channel, ok, now), max), service, id)
    ensures Valid(Apply(s, ProbeSection(channel, ok, now), max).stops)
  {
    if channel in s.stops.checkers {
      var c := s.stops.checkers[channel];
      ClosingChecksNothing(s.stops, KeyOf(c), service, id);
      var list := Cached(s.cache, c.service);
      FindByIDs(list, Probe(list, c.instanceID, ok, max, now), id);
    }
  }

  lemma ClosingChecksNothing(s: Stops, key: string, service: string, id: string)
    requires Valid(s) && !HasChecker(s, service, id)
    ensures Valid(CloseKey(s, key)) && !HasChecker(CloseKey(s, key), service, id)
  {
  }

  lemma {:induction false} StartMissingKeepsValid(s: Stops, cached: seq<ServiceInstance>, service: string, incoming: seq<ServiceInstance>)
    requires Valid(s)
    ensures Valid(StartMissing(s, cached, service, incoming))
  {
    if incoming != [] {
      var n := |incoming| - 1;
      var inst := incoming[n];
      StartMissingKeepsValid(s, cached, service, incoming[..n]);
      var before := StartMissing(s, cached, service, incoming[..n]);
      StartKeepsValid(before, service, inst.instanceID, inst.host, inst.httpPort);
      StartKeepsValid(before, service, inst.instanceID, inst.host, inst.grpcPort);
      var http := Start(before, service, inst.instanceID, inst.host, inst.httpPort);
      StartKeepsValid(http, service, inst.instanceID, inst.host, inst.grpcPort);
    }
  }

  /** Once lost, an instance stays cached and unchecked for as long as the watch keeps listing it. */
  lemma {:induction false} LostForGood(s: State, actions: seq<Action>, max: int, service: string, id: string)
    requires Lost(s, service, id) && Valid(s.stops)
    requires forall a | a in actions :: KeepsListing(a, service, id)
    ensures Lost(Run(s, actions, max), service, id)
    decreases |actions|
  {
    if actions != [] {
      LostStaysLost(s, actions[0], max, service, id);
      LostForGood(Apply(s, actions[0], max), actions[1..], max, service, id);
    }
  }
}
