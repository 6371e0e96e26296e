/** The discovery cache with its health checkers: the object, and the steps its goroutines take. */
module Discovery {
  import opened Common
  import opened StopChannels
  import opened HealthCache

  function Cached(cache: map<string, seq<ServiceInstance>>, service: string): seq<ServiceInstance> {
    if service in cache then cache[service] else []
  }

  /** One checker start for each port of an instance; the second finds the key already there. */
  function StartPorts(s: Stops, service: string, inst: ServiceInstance): Stops {
    var http := if inst.httpPort != "" then Start(s, service, inst.instanceID, inst.host, inst.httpPort) else s;
    if inst.grpcPort != "" then Start(http, service, inst.instanceID, inst.host, inst.grpcPort) else http
  }

  /** Starts checkers for the instances of a delivered list that are not cached yet. */
  function StartMissing(s: Stops, cached: seq<ServiceInstance>, service: string, incoming: seq<ServiceInstance>): Stops {
    if incoming == [] then s else
      var last := incoming[|incoming| - 1];
      var before := StartMissing(s, cached, service, incoming[..|incoming| - 1]);
      if Find(cached, last.instanceID).None? then StartPorts(before, service, last) else before
  }

  /** `pending` holds the checkers that found their instance gone and have yet to close. */
  datatype State = State(cache: map<string, seq<ServiceInstance>>, stops: Stops, pending: set<nat>)

  /**
   * A tick has two critical sections; `Tick` takes them together, the other two one by one. A
   * checker ends when its context is done, unless it is in between.
   */
  datatype Action =
    | Watched(service: string, list: seq<ServiceInstance>, now: int)
    | Got(service: string, list: seq<ServiceInstance>, now: int)
    | Tick(checker: nat, ok: bool, now: int)
    | ProbeSection(checker: nat, ok: bool, now: int)
    | CloseSection(checker: nat)
    | Registered(service: string, id: string, host: string, port: string)
    | Deregistered(service: string, id: string)
    | Ended(checker: nat)

  function Probing(s: State, c: Checker, ok: bool, max: int, now: int): State {
    if c.service in s.cache
    then s.(cache := s.cache[c.service := Probe(s.cache[c.service], c.instanceID, ok, max, now)])
    else s
  }

  predicate Gone(s: State, c: Checker) {
    Find(Cached(s.cache, c.service), c.instanceID).None?
  }

  function Apply(s: State, a: Action, max: int): State {
    match a
    case Watched(service, list, now) =>
      var cached := Cached(s.cache, service);
      State(s.cache[service := Merge(cached, list, now)], StartMissing(s.stops, cached, service, list), s.pending)
    case Got(service, list, now) =>
      State(s.cache[service := Load(list, now)], StartMissing(s.stops, [], service, list), s.pending)
    case Tick(i, ok, now) =>
      if i !in s.stops.checkers || i in s.stops.ended then s else
        var c := s.stops.checkers[i];
        if Gone(s, c) then s.(stops := CloseKey(s.stops, KeyOf(c))) else Probing(s, c, ok, max, now)
    case ProbeSection(i, ok, now) =>
      if i !in s.stops.checkers || i in s.stops.ended then s else
        var c := s.stops.checkers[i];
        if Gone(s, c) then s.(pending := s.pending + {i}) else Probing(s, c, ok, max, now)
    case CloseSection(i) =>
      if i !in s.stops.checkers || i !in s.pending then s else
        s.(stops := CloseKey(s.stops, KeyOf(s.stops.checkers[i])), pending := s.pending - {i})
    case Registered(service, id, host, port) =>
      s.(stops := Start(s.stops, service, id, host, port))
    case Deregistered(service, id) =>
      s.(stops := CloseKey(s.stops, Key(service, id)))
    case Ended(i) =>
      if i !in s.stops.checkers || i in s.pending then s else s.(stops := End(s.stops, i))
  }

  function Run(s: State, actions: seq<Action>, max: int): State
    decreases |actions|
  {
    if actions == [] then s else Run(Apply(s, actions[0], max), actions[1..], max)
  }

  // ---------------------------------------------------------------- what ticks do

  ghost predicate Lists(s: State, c: Checker) {
    exists i :: 0 <= i < |Cached(s.cache, c.service)| && Cached(s.cache, c.service)[i].instanceID == c.instanceID
  }

  /**
   * A whole tick of a running checker whose instance is listed stops nobody; where the instance is
   * gone, it leaves the cache alone, and the open checker of its key, and no other, is stopped.
   */
  lemma TickStopsIff(s: State, i: nat, ok: bool, now: int, max: int, d: nat)
    requires StopChannels.Valid(s.stops) && i in s.stops.checkers && i !in s.stops.ended && d in s.stops.checkers
    ensures
      var c, t := s.stops.checkers[i], Apply(s, Tick(i, ok, now), max);
      && t.stops.checkers == s.stops.checkers
      && (Open(t.stops, d) <==> Open(s.stops, d) && (Lists(s, c) || KeyOf(s.stops.checkers[d]) != KeyOf(c)))
      && (if Lists(s, c) then t.stops == s.stops else t.cache == s.cache)
  {
    StopClosesIt(s.stops, KeyOf(s.stops.checkers[i]), d);
  }

  /** A torn tick that nothing comes between is a whole one. */
  lemma TornTickIsWhole(s: State, i: nat, ok: bool, now: int, max: int)
    requires i !in s.pending
    ensures Apply(Apply(s, ProbeSection(i, ok, now), max), CloseSection(i), max) == Apply(s, Tick(i, ok, now), max)
  {
    assert s.pending + {i} - {i} == s.pending;
  }

  // ---------------------------------------------------------------- the object

  lemma StartMissingOneMore(s: Stops, cached: seq<ServiceInstance>, service: string, incoming: seq<ServiceInstance>, n: nat)
    requires n < |incoming|
    ensures StartMissing(s, cached, service, incoming[..n + 1]) ==
            var before := StartMissing(s, cached, service, incoming[..n]);
            if Find(cached, incoming[n].instanceID).None? then StartPorts(before, service, incoming[n]) else before
  {
    assert incoming[..n + 1][..n] == incoming[..n];
  }

  lemma MergeOneMore(cached: seq<ServiceInstance>, incoming: seq<ServiceInstance>, now: int, n: nat)
    requires n < |incoming|
    ensures Merge(cached, incoming[..n + 1], now) == Merge(cached, incoming[..n], now) + [MergeOne(cached, incoming[n], now)]
  {
  }

  /** The first n instances have been merged, and checkers started for the new ones among them. */
  ghost predicate MergedSoFar(start: Stops, stops: Stops, cached: seq<ServiceInstance>, service: string,
                              incoming: seq<ServiceInstance>, n: nat, updated: seq<ServiceInstance>, now: int)
    requires n <= |incoming|
  {
    stops == StartMissing(start, cached, service, incoming[..n]) && updated == Merge(cached, incoming[..n], now)
  }

  lemma MergedOneMore(start: Stops, before: Stops, stops: Stops, cached: seq<ServiceInstance>, service: string,
                      incoming: seq<ServiceInstance>, n: nat, updated: seq<ServiceInstance>, merged: ServiceInstance, now: int)
    requires n < |incoming| && MergedSoFar(start, before, cached, service, incoming, n, updated, now)
    requires merged == MergeOne(cached, incoming[n], now)
    requires stops == if Find(cached, incoming[n].instanceID).None? then StartPorts(before, service, incoming[n]) else before
    ensures MergedSoFar(start, stops, cached, service, incoming, n + 1, updated + [merged], now)
  {
    StartMissingOneMore(start, cached, service, incoming, n);
    MergeOneMore(cached, incoming, now, n);
  }

  lemma CloseNothing(s: Stops)
    requires StopChannels.Valid(s)
    ensures CloseThese(s, {}) == s
  {
  }

  lemma UnderOneMore(keys: set<string>, rest: set<string>, key: string, service: string)
    requires rest <= keys && key in rest
    ensures Under(keys - (rest - {key}), service) ==
            Under(keys - rest, service) + if service + "-" <= key then {key} else {}
  {
  }

  class DiscoveryWithLB {
    const maxFailedChecks: int
    const minHealthyTime: int
    var instances: map<string, seq<ServiceInstance>>
    var healthCheckStop: map<string, nat>
    var closedChannels: set<nat>
    var nextChannel: nat
    var checkers: map<nat, Checker>
    var ended: set<nat>

    ghost function StopState(): Stops
      reads this
    {
      Stops(healthCheckStop, closedChannels, nextChannel, checkers, ended, false)
    }

    ghost function Abstract(): State
      reads this
    {
      State(instances, StopState(), {})
    }

    ghost predicate Valid()
      reads this
    {
      StopChannels.Valid(StopState())
    }

    constructor (maxFailedChecks: int, minHealthyTime: int)
      ensures Valid() && Abstract() == State(map[], EMPTY, {})
      ensures this.maxFailedChecks == (if maxFailedChecks <= 0 then 3 else maxFailedChecks)
      ensures this.minHealthyTime == (if minHealthyTime == 0 then 30 else minHealthyTime)
    {
      this.maxFailedChecks := if maxFailedChecks <= 0 then 3 else maxFailedChecks;
      this.minHealthyTime := if minHealthyTime == 0 then 30 else minHealthyTime;
      instances, healthCheckStop, closedChannels, nextChannel, checkers, ended := map[], map[], {}, 0, map[], {};
    }

    /** Closing a channel twice panics. */
    method CloseChannel(channel: nat)
      requires channel !in closedChannels
      modifies this`closedChannels
      ensures closedChannels == old(closedChannels) + {channel}
    {
      closedChannels := closedChannels + {channel};
    }

    method StartHealthCheck(service: string, instanceID: string, host: string, port: string)
      requires Valid()
      modifies this`healthCheckStop, this`nextChannel, this`checkers
      ensures Valid() && StopState() == Start(old(StopState()), service, instanceID, host, port)
    {
      StartKeepsValid(StopState(), service, instanceID, host, port);
      var key := Key(service, instanceID);
      var stopChan := nextChannel;
      nextChannel := nextChannel + 1;
      if key in healthCheckStop {
        return;
      }
      healthCheckStop := healthCheckStop[key := stopChan];
      checkers := checkers[stopChan := Checker(service, instanceID, host, port)];
    }

    method StopHealthCheck(service: string, instanceID: string)
      requires Valid()
      modifies this`healthCheckStop, this`closedChannels
      ensures Valid() && StopState() == CloseKey(old(StopState()), Key(service, instanceID))
    {
      if Key(service, instanceID) in healthCheckStop {
        CloseEntry(Key(service, instanceID));
      }
    }

    /** `ok` is how the registry answered; the checker is started whatever the port. */
    method Register(service: string, instanceID: string, host: string, httpPort: string, ok: bool) returns (r: Result<()>)
      requires Valid()
      modifies this`healthCheckStop, this`nextChannel, this`checkers
      ensures Valid() && r.Ok? == ok
      ensures Abstract() == if ok then Apply(old(Abstract()), Registered(service, instanceID, host, httpPort), maxFailedChecks)
                            else old(Abstract())
    {
      if !ok {
        return Err;
      }
      StartHealthCheck(service, instanceID, host, httpPort);
      return Ok(());
    }

    /** The checker is stopped first, whatever the registry answers. */
    method Deregister(service: string, instanceID: string, ok: bool) returns (r: Result<()>)
      requires Valid()
      modifies this`healthCheckStop, this`closedChannels
      ensures Valid() && r.Ok? == ok
      ensures Abstract() == Apply(old(Abstract()), Deregistered(service, instanceID), maxFailedChecks)
    {
      StopHealthCheck(service, instanceID);
      r := if ok then Ok(()) else Err;
    }

    method StartPortChecks(service: string, inst: ServiceInstance)
      requires Valid()
      modifies this`healthCheckStop, this`nextChannel, this`checkers
      ensures Valid() && StopState() == StartPorts(old(StopState()), service, inst)
    {
      if inst.httpPort != "" {
        StartHealthCheck(service, inst.instanceID, inst.host, inst.httpPort);
      }
      if inst.grpcPort != "" {
        StartHealthCheck(service, inst.instanceID, inst.host, inst.grpcPort);
      }
    }

    method FindInstance(service: string, instanceID: string) returns (found: Option<ServiceInstance>)
      ensures
        var list := Cached(instances, service);
        found == match Find(list, instanceID)
                 case None => None
                 case Some(i) => Some(list[i])
    {
      if service !in instances {
        return None;
      }
      var list := instances[service];
      for i := 0 to |list|
        invariant forall j | 0 <= j < i :: list[j].instanceID != instanceID
      {
        if list[i].instanceID == instanceID {
          return Some(list[i]);
        }
      }
      return None;
    }

    /** One list from the backend's watch channel, merged under the instance lock. */
    method OnWatched(service: string, incoming: seq<ServiceInstance>, now: int) returns (updated: seq<ServiceInstance>)
      requires Valid()
      modifies this`instances, this`healthCheckStop, this`nextChannel, this`checkers
      ensures Valid() && service in instances && updated == instances[service]
      ensures Abstract() == Apply(old(Abstract()), Watched(service, incoming, now), maxFailedChecks)
    {
      updated := MergeAll(service, incoming, now);
      instances := instances[service := updated];
    }

    method MergeAll(service: string, incoming: seq<ServiceInstance>, now: int) returns (updated: seq<ServiceInstance>)
      requires Valid()
      modifies this`healthCheckStop, this`nextChannel, this`checkers
      ensures Valid() && updated == Merge(Cached(instances, service), incoming, now)
      ensures StopState() == StartMissing(old(StopState()), Cached(instances, service), service, incoming)
    {
      ghost var cached := Cached(instances, service);
      ghost var stops := StopState();
      updated := [];
      for i := 0 to |incoming|
        invariant Valid() && MergedSoFar(stops, StopState(), cached, service, incoming, i, updated, now)
      {
        ghost var before := StopState();
        var merged := MergeInstance(service, incoming[i], now);
        MergedOneMore(stops, before, StopState(), cached, service, incoming, i, updated, merged, now);
        updated := updated + [merged];
      }
      assert incoming[..|incoming|] == incoming;
    }

    method MergeInstance(service: string, inst: ServiceInstance, now: int) returns (merged: ServiceInstance)
      requires Valid()
      modifies this`healthCheckStop, this`nextChannel, this`checkers
      ensures Valid() && merged == MergeOne(Cached(instances, service), inst, now)
      ensures StopState() == if Find(Cached(instances, service), inst.instanceID).None?
                             then StartPorts(old(StopState()), service, inst) else old(StopState())
    {
      var existing := FindInstance(service, inst.instanceID);
      if existing.Some? && existing.value.isHealthy {
        merged := inst.(isHealthy := existing.value.isHealthy,
                        lastChecked := existing.value.lastChecked,
                        failedChecks := existing.value.failedChecks);
      } else {
        merged := inst.(isHealthy := true, lastChecked := now);
      }
      if existing.None? {
        StartPortChecks(service, inst);
      }
    }

    method FilterHealthyInstances(list: seq<ServiceInstance>, now: int) returns (healthy: seq<ServiceInstance>)
      ensures healthy == FilterHealthy(list, now, minHealthyTime)
      ensures exists indices :: Selects(list, now, minHealthyTime, indices, healthy)
    {
      healthy := [];
      for i := 0 to |list|
        invariant healthy == FilterHealthy(list[..i], now, minHealthyTime)
      {
        assert list[..i + 1][..i] == list[..i];
        if list[i].isHealthy && now - list[i].lastChecked < minHealthyTime {
          healthy := healthy + [list[i]];
        }
      }
      assert list[..|list|] == list;
      ghost var indices := FilterSelects(list, now, minHealthyTime);
    }

    /** `backend` is what the registry would answer; it is asked only for a service not cached. */
    method GetInstances(service: string, backend: Result<seq<ServiceInstance>>, now: int)
      returns (r: Result<seq<ServiceInstance>>)
      requires Valid()
      modifies this`instances, this`healthCheckStop, this`nextChannel, this`checkers
      ensures Valid()
      ensures Abstract() ==
              if service !in old(instances) && backend.Ok?
              then Apply(old(Abstract()), Got(service, backend.value, now), maxFailedChecks) else old(Abstract())
      ensures r == if service in instances then Ok(FilterHealthy(instances[service], now, minHealthyTime)) else Err
      ensures r.Ok? ==> exists indices :: Selects(instances[service], now, minHealthyTime, indices, r.value)
    {
      if service in instances {
        var healthy := FilterHealthyInstances(instances[service], now);
        return Ok(healthy);
      }
      if backend.Err? {
        return Err;
      }
      LoadAll(service, backend.value, now);
      var healthy := FilterHealthyInstances(instances[service], now);
      return Ok(healthy);
    }

    method LoadAll(service: string, list: seq<ServiceInstance>, now: int)
      requires Valid()
      modifies this`instances, this`healthCheckStop, this`nextChannel, this`checkers
      ensures Valid() && service in instances
      ensures Abstract() == Apply(old(Abstract()), Got(service, list, now), maxFailedChecks)
    {
      var loaded := AdmitAll(service, list, now);
      instances := instances[service := loaded];
    }

    method AdmitAll(service: string, list: seq<ServiceInstance>, now: int) returns (loaded: seq<ServiceInstance>)
      requires Valid()
      modifies this`healthCheckStop, this`nextChannel, this`checkers
      ensures Valid() && loaded == Load(list, now)
      ensures StopState() == StartMissing(old(StopState()), [], service, list)
    {
      ghost var stops := StopState();
      loaded := list;
      for i := 0 to |list|
        invariant Valid() && StopState() == StartMissing(stops, [], service, list[..i])
        invariant |loaded| == |list| && forall j | i <= j < |list| :: loaded[j] == list[j]
        invariant forall j | 0 <= j < i :: loaded[j] == list[j].(isHealthy := true, lastChecked := now)
      {
        loaded := loaded[i := loaded[i].(isHealthy := true, lastChecked := now)];
        StartMissingOneMore(stops, [], service, list, i);
        StartPortChecks(service, list[i]);
      }
      assert list[..|list|] == list;
      assert loaded == Load(list, now);
    }

    /** The first critical section of a tick: records the probe, or finds the instance gone. */
    method RecordProbe(c: Checker, isHealthy: bool, now: int) returns (hasInts: bool)
      modifies this`instances
      ensures hasInts == !Gone(old(Abstract()), c)
      ensures Abstract() == if hasInts then Probing(old(Abstract()), c, isHealthy, maxFailedChecks, now) else old(Abstract())
    {
      if c.service !in instances {
        return false;
      }
      var list := instances[c.service];
      for i := 0 to |list|
        invariant forall j | 0 <= j < i :: list[j].instanceID != c.instanceID
        invariant instances == old(instances)
      {
        if list[i].instanceID == c.instanceID {
          var inst := list[i];
          if isHealthy {
            inst := inst.(failedChecks := 0, isHealthy := true);
          } else {
            inst := inst.(failedChecks := inst.failedChecks + 1);
            if inst.failedChecks >= maxFailedChecks {
              inst := inst.(isHealthy := false);
            }
          }
          instances := instances[c.service := list[i := inst.(lastChecked := now)]];
          return true;
        }
      }
      return false;
    }

    method OnTick(channel: nat, isHealthy: bool, now: int)
      requires Valid() && channel in checkers && channel !in ended
      modifies this`instances, this`healthCheckStop, this`closedChannels
      ensures Valid()
      ensures Abstract() == Apply(old(Abstract()), Tick(channel, isHealthy, now), maxFailedChecks)
    {
      var c := checkers[channel];
      var hasInts := RecordProbe(c, isHealthy, now);
      if !hasInts {
        StopHealthCheck(c.service, c.instanceID);
      }
    }

    /** The checker's context is done: it returns and leaves its entry behind. */
    method OnContextDone(channel: nat)
      requires Valid() && channel in checkers
      modifies this`ended
      ensures Valid() && Abstract() == Apply(old(Abstract()), Ended(channel), maxFailedChecks)
    {
      EndKeepsValid(StopState(), channel);
      ended := ended + {channel};
    }

    /** Ranges over the map in an arbitrary order, deleting as it goes. */
    method StopAllHealthChecks(service: string)
      requires Valid()
      modifies this`healthCheckStop, this`closedChannels
      ensures Valid() && StopState() == CloseAll(old(StopState()), service)
    {
      ghost var before := StopState();
      ghost var matched: set<string> := {};
      CloseNothing(before);
      var rest := healthCheckStop.Keys;
      while rest != {}
        invariant rest <= before.stop.Keys && matched == Under(before.stop.Keys - rest, service)
        invariant Valid() && StopState() == CloseThese(before, matched)
        decreases rest
      {
        var key :| key in rest;
        if service + "-" <= key {
          CloseOneMore(before, matched, key);
          CloseEntry(key);
          matched := matched + {key};
        }
        UnderOneMore(before.stop.Keys, rest, key, service);
        rest := rest - {key};
      }
    }

    method CloseEntry(key: string)
      requires Valid() && key in healthCheckStop
      modifies this`healthCheckStop, this`closedChannels
      ensures Valid() && StopState() == CloseKey(old(StopState()), key)
    {
      EntriesAreOpenAndDistinct(StopState());
      CloseKeyKeepsValid(StopState(), key);
      CloseChannel(healthCheckStop[key]);
      healthCheckStop := healthCheckStop - {key};
    }

    /**
     * `Close` ranges over the checker keys as if they were service names. A key deleted before
     * the range reaches it is never produced; one that stays is produced once. Whatever the
     * order, the keys left over are the same.
     */
    method Close()
      requires Valid()
      modifies this`healthCheckStop, this`closedChannels
      ensures Valid()
      ensures healthCheckStop.Keys == Survivors(old(healthCheckStop.Keys))
    {
      ghost var keys := healthCheckStop.Keys;
      var visited: set<string> := {};
      while healthCheckStop.Keys - visited != {}
        invariant Valid() && healthCheckStop.Keys <= keys && visited <= keys
        invariant forall k, l | k in healthCheckStop.Keys && l in visited :: !(l + "-" <= k)
        invariant forall k | k in keys - healthCheckStop.Keys :: exists l :: l in visited && l + "-" <= k
        decreases keys - visited
      {
        var key :| key in healthCheckStop.Keys - visited;
        ghost var before := healthCheckStop.Keys;
        ghost var seen := visited;
        StopAllHealthChecks(key);
        visited := visited + {key};
        assert key in keys - seen;
        forall k | k in keys - healthCheckStop.Keys
          ensures exists l :: l in visited && l + "-" <= k
        {
          if k in before {
            assert key + "-" <= k && key in visited;
          } else {
            assert k in keys - before;
            var l :| l in seen && l + "-" <= k;
            assert l in visited;
          }
        }
      }
      assert forall k | k in healthCheckStop.Keys :: k in healthCheckStop.Keys - visited || k in visited;
      WhatIsLeftSurvives(keys, healthCheckStop.Keys, visited);
    }
  }

  lemma WhatIsLeftSurvives(keys: set<string>, left: set<string>, visited: set<string>)
    requires left <= visited <= keys
    requires forall k, l | k in left && l in visited :: !(l + "-" <= k)
    requires forall k | k in keys - left :: exists l :: l in visited && l + "-" <= k
    ensures left == Survivors(keys)
  {
    forall k | k in left
      ensures k in Survivors(keys)
    {
      forall l | l in keys
        ensures !(l + "-" <= k)
      {
        if l !in left {
          assert l in keys - left;
          var m :| m in visited && m + "-" <= l;
          if l + "-" <= k {
            PrefixChain(m, l, k);
          }
        }
      }
    }
    forall k | k in keys - left
      ensures k !in Survivors(keys)
    {
      var l :| l in visited && l + "-" <= k;
    }
  }
}
