/**
 * The cached instance list of one service: merged with every list a watch delivers, loaded by
 * `GetInstances`, and probed by the health checkers.
 */
module HealthCache {
  import opened Common

  function Find(list: seq<ServiceInstance>, id: string): (r: Option<nat>)
    ensures r.Some? ==> r.value < |list| && list[r.value].instanceID == id
    ensures r.Some? ==> forall i | 0 <= i < r.value :: list[i].instanceID != id
    ensures r.None? ==> forall i | 0 <= i < |list| :: list[i].instanceID != id
  {
    if list == [] then None
    else if list[0].instanceID == id then Some(0)
    else match Find(list[1..], id)
      case None => None
      case Some(i) => Some(i + 1)
  }

  /** A healthy known instance keeps its health data; any other is admitted as healthy now. */
  function MergeOne(cached: seq<ServiceInstance>, inst: ServiceInstance, now: int): ServiceInstance {
    var found := Find(cached, inst.instanceID);
    if found.Some? && cached[found.value].isHealthy
    then inst.(isHealthy := true,
               lastChecked := cached[found.value].lastChecked,
               failedChecks := cached[found.value].failedChecks)
    else inst.(isHealthy := true, lastChecked := now)
  }

  function Merge(cached: seq<ServiceInstance>, incoming: seq<ServiceInstance>, now: int): (r: seq<ServiceInstance>)
    ensures |r| == |incoming|
    ensures forall i | 0 <= i < |incoming| :: r[i] == MergeOne(cached, incoming[i], now)
  {
    seq(|incoming|, i requires 0 <= i < |incoming| => MergeOne(cached, incoming[i], now))
  }

  function Load(incoming: seq<ServiceInstance>, now: int): (r: seq<ServiceInstance>)
    ensures |r| == |incoming|
    ensures forall i | 0 <= i < |incoming| :: r[i] == incoming[i].(isHealthy := true, lastChecked := now)
  {
    seq(|incoming|, i requires 0 <= i < |incoming| => incoming[i].(isHealthy := true, lastChecked := now))
  }

  function ProbeOne(inst: ServiceInstance, ok: bool, max: int, now: int): ServiceInstance {
    if ok then inst.(failedChecks := 0, isHealthy := true, lastChecked := now)
    else inst.(failedChecks := inst.failedChecks + 1,
               isHealthy := inst.isHealthy && inst.failedChecks + 1 < max,
               lastChecked := now)
  }

  /** A probe touches the first instance with the ID. */
  function Probe(list: seq<ServiceInstance>, id: string, ok: bool, max: int, now: int): (r: seq<ServiceInstance>)
    ensures |r| == |list|
    ensures forall i | 0 <= i < |list| :: r[i] == if Find(list, id) == Some(i) then ProbeOne(list[i], ok, max, now) else list[i]
  {
    match Find(list, id)
    case None => list
    case Some(i) => list[i := ProbeOne(list[i], ok, max, now)]
  }

  predicate Visible(inst: ServiceInstance, now: int, minHealthyTime: int) {
    inst.isHealthy && now - inst.lastChecked < minHealthyTime
  }

  function FilterHealthy(list: seq<ServiceInstance>, now: int, minHealthyTime: int): seq<ServiceInstance> {
    if list == [] then []
    else FilterHealthy(list[..|list| - 1], now, minHealthyTime)
         + if Visible(list[|list| - 1], now, minHealthyTime) then [list[|list| - 1]] else []
  }

  lemma {:induction false} FilterKeepsTheVisible(list: seq<ServiceInstance>, now: int, minHealthyTime: int, inst: ServiceInstance)
    ensures inst in FilterHealthy(list, now, minHealthyTime) <==> inst in list && Visible(inst, now, minHealthyTime)
  {
    if list != [] {
      FilterKeepsTheVisible(list[..|list| - 1], now, minHealthyTime, inst);
      assert list == list[..|list| - 1] + [list[|list| - 1]];
    }
  }

  /** The answer is made of the entries at these indices, which are the healthy and fresh ones, in their order. */
  ghost predicate Selects(list: seq<ServiceInstance>, now: int, minHealthyTime: int, indices: seq<nat>, answer: seq<ServiceInstance>) {
    && |answer| == |indices| && (forall k | 0 <= k < |indices| :: indices[k] < |list| && answer[k] == list[indices[k]])
    && (forall j, k | 0 <= j < k < |indices| :: indices[j] < indices[k])
    && forall i: nat | i < |list| :: i in indices <==> list[i].isHealthy && now - list[i].lastChecked < minHealthyTime
  }

  lemma {:induction false} FilterSelects(list: seq<ServiceInstance>, now: int, minHealthyTime: int) returns (indices: seq<nat>)
    ensures Selects(list, now, minHealthyTime, indices, FilterHealthy(list, now, minHealthyTime))
  {
    if list == [] {
      indices := [];
    } else {
      var n := |list| - 1;
      var before := FilterSelects(list[..n], now, minHealthyTime);
      indices := if Visible(list[n], now, minHealthyTime) then before + [n] else before;
      SelectsOneMore(list, now, minHealthyTime, before, FilterHealthy(list[..n], now, minHealthyTime));
    }
  }

  lemma SelectsOneMore(list: seq<ServiceInstance>, now: int, minHealthyTime: int, before: seq<nat>, answer: seq<ServiceInstance>)
    requires list != [] && Selects(list[..|list| - 1], now, minHealthyTime, before, answer)
    ensures
      var n := |list| - 1;
      if list[n].isHealthy && now - list[n].lastChecked < minHealthyTime
      then Selects(list, now, minHealthyTime, before + [n], answer + [list[n]])
      else Selects(list, now, minHealthyTime, before, answer)
  {
    var n := |list| - 1;
    assert forall k | 0 <= k < |before| :: before[k] < n && list[..n][before[k]] == list[before[k]];
    forall i: nat | i < n
      ensures i in before <==> list[i].isHealthy && now - list[i].lastChecked < minHealthyTime
      ensures i in before + [n] <==> i in before
    {
      assert list[..n][i] == list[i];
    }
    assert n !in before && n in before + [n];
  }

  lemma {:induction false} FindByIDs(a: seq<ServiceInstance>, b: seq<ServiceInstance>, id: string)
    requires |a| == |b| && forall i | 0 <= i < |a| :: a[i].instanceID == b[i].instanceID
    ensures Find(a, id) == Find(b, id)
  {
  }

  /**
   * A delivered instance that was given up, or never known, is offered at once; one that is known
   * and healthy is offered exactly if it was before the delivery.
   */
  lemma MergedIsVisibleIff(cached: seq<ServiceInstance>, incoming: seq<ServiceInstance>, now: int, i: nat, minHealthyTime: int)
    requires i < |incoming|
    ensures
      var known := Find(cached, incoming[i].instanceID);
      Visible(Merge(cached, incoming, now)[i], now, minHealthyTime) <==>
      if known.Some? && cached[known.value].isHealthy then Visible(cached[known.value], now, minHealthyTime) else minHealthyTime > 0
  {
    assert Merge(cached, incoming, now)[i] == MergeOne(cached, incoming[i], now);
  }

  /** Delivering the same list again, at any later time, changes nothing: nobody's time stamp is renewed. */
  lemma MergingAgainChangesNothing(cached: seq<ServiceInstance>, incoming: seq<ServiceInstance>, now: int, later: int)
    requires forall i | 0 <= i < |incoming| :: incoming[i].failedChecks == 0
    ensures Merge(Merge(cached, incoming, now), incoming, later) == Merge(cached, incoming, now)
  {
    var once := Merge(cached, incoming, now);
    forall i | 0 <= i < |incoming|
      ensures MergeOne(once, incoming[i], later) == once[i]
    {
      FindByIDs(incoming, once, incoming[i].instanceID);
      var j := Find(once, incoming[i].instanceID).value;
      assert once[j] == MergeOne(cached, incoming[j], now) && once[i] == MergeOne(cached, incoming[i], now);
    }
  }

  // ---------------------------------------------------------------- histories

  datatype Event =
    | Merged(list: seq<ServiceInstance>, now: int)
    | Loaded(list: seq<ServiceInstance>, now: int)
    | Probed(id: string, ok: bool, now: int)

  function AfterEvent(list: seq<ServiceInstance>, e: Event, max: int): seq<ServiceInstance> {
    match e
    case Merged(incoming, now) => Merge(list, incoming, now)
    case Loaded(incoming, now) => Load(incoming, now)
    case Probed(id, ok, now) => Probe(list, id, ok, max, now)
  }

  /** The cached list after a history. */
  function CacheAfter(events: seq<Event>, max: int): seq<ServiceInstance> {
    if events == [] then []
    else AfterEvent(CacheAfter(events[..|events| - 1], max), events[|events| - 1], max)
  }

  /** Backends deliver lists whose failure counters are zero. */
  ghost predicate Clean(events: seq<Event>) {
    forall e | e in events && !e.Probed? :: forall i | 0 <= i < |e.list| :: e.list[i].failedChecks == 0
  }

  lemma CleanPrefix(events: seq<Event>)
    requires events != [] && Clean(events)
    ensures Clean(events[..|events| - 1])
  {
  }

  /** Every entry, duplicates included, is healthy exactly while it has failed too few checks. */
  ghost predicate HealthMatchesCounter(list: seq<ServiceInstance>, max: int) {
    forall i | 0 <= i < |list| :: list[i].failedChecks >= 0 && (list[i].isHealthy <==> list[i].failedChecks < max)
  }

  lemma {:induction false} HealthyIffBelowTheLimit(events: seq<Event>, max: int)
    requires max >= 1 && Clean(events)
    ensures HealthMatchesCounter(CacheAfter(events, max), max)
  {
    if events != [] {
      CleanPrefix(events);
      HealthyIffBelowTheLimit(events[..|events| - 1], max);
    }
  }

  // ---------------------------------------------------------------- records

  /** All but the health data. */
  ghost predicate SameRecords(a: seq<ServiceInstance>, b: seq<ServiceInstance>) {
    |a| == |b| && forall i | 0 <= i < |a| :: EndpointOf(a[i]) == EndpointOf(b[i]) && a[i].metadata == b[i].metadata
  }

  /** The last list that was delivered or loaded. */
  function LastList(events: seq<Event>): seq<ServiceInstance> {
    if events == [] then []
    else if events[|events| - 1].Probed? then LastList(events[..|events| - 1])
    else events[|events| - 1].list
  }

  /** Whatever happened, the cache lists the instances as they were delivered last, apart from their health data. */
  lemma {:induction false} CacheListsTheLastDelivered(events: seq<Event>, max: int)
    ensures SameRecords(CacheAfter(events, max), LastList(events))
  {
    if events != [] {
      CacheListsTheLastDelivered(events[..|events| - 1], max);
    }
  }

  // ---------------------------------------------------------------- health read off the history

  /** The last list delivered names the instance. */
  predicate Listed(events: seq<Event>, id: string) {
    if events == [] then false else
      match events[|events| - 1]
      case Merged(list, _) => Find(list, id).Some?
      case Loaded(list, _) => Find(list, id).Some?
      case Probed(_, _, _) => Listed(events[..|events| - 1], id)
  }

  function TrailingFailures(outcomes: seq<bool>): nat {
    if outcomes == [] || outcomes[|outcomes| - 1] then 0
    else TrailingFailures(outcomes[..|outcomes| - 1]) + 1
  }

  /** A merge admits the instance anew unless it was listed before and not yet given up. */
  predicate Admits(events: seq<Event>, id: string, max: int)
    requires events != []
    decreases |events|, 0
  {
    match events[|events| - 1]
    case Probed(_, _, _) => false
    case Loaded(_, _) => true
    case Merged(_, _) =>
      var before := events[..|events| - 1];
      !(Listed(before, id) && TrailingFailures(Outcomes(before, id, max)) < max)
  }

  /** The outcomes of the probes of the instance since it was last admitted. */
  function Outcomes(events: seq<Event>, id: string, max: int): seq<bool>
    decreases |events|, 1
  {
    if events == [] then [] else
      var before := events[..|events| - 1];
      if Admits(events, id, max) then []
      else match events[|events| - 1]
        case Probed(i, ok, _) =>
          if i == id && Listed(before, id) then Outcomes(before, id, max) + [ok] else Outcomes(before, id, max)
        case _ => Outcomes(before, id, max)
  }

  /** When the instance was last probed, or admitted if it was not probed since. */
  function LastTouch(events: seq<Event>, id: string, max: int): int {
    if events == [] then 0 else
      var before := events[..|events| - 1];
      var last := events[|events| - 1];
      if Admits(events, id, max) || (last.Probed? && last.id == id && Listed(before, id))
      then last.now else LastTouch(before, id, max)
  }

  lemma TrailingFailuresOneMore(outcomes: seq<bool>, ok: bool)
    ensures TrailingFailures(outcomes + [ok]) == if ok then 0 else TrailingFailures(outcomes) + 1
  {
  }

  /** What the history says about the first cached instance with the ID. */
  ghost predicate Tells(events: seq<Event>, id: string, max: int, list: seq<ServiceInstance>) {
    var found := Find(list, id);
    && (found.Some? <==> Listed(events, id))
    && (found.Some? ==>
          && list[found.value].failedChecks == TrailingFailures(Outcomes(events, id, max))
          && (list[found.value].isHealthy <==> TrailingFailures(Outcomes(events, id, max)) < max)
          && list[found.value].lastChecked == LastTouch(events, id, max))
  }

  /** A probe of another instance, or of one not listed, tells nothing new. */
  lemma OtherProbeTells(events: seq<Event>, id: string, max: int, list: seq<ServiceInstance>, i: string, ok: bool, now: int)
    requires events != [] && events[|events| - 1] == Probed(i, ok, now)
    requires i != id || !Listed(events[..|events| - 1], id)
    requires Tells(events[..|events| - 1], id, max, list)
    ensures Tells(events, id, max, Probe(list, i, ok, max, now))
  {
    var before := events[..|events| - 1];
    FindByIDs(list, Probe(list, i, ok, max, now), id);
    assert !Admits(events, id, max);
    assert Outcomes(events, id, max) == Outcomes(before, id, max);
    assert LastTouch(events, id, max) == LastTouch(before, id, max);
  }

  lemma OwnProbeTells(events: seq<Event>, id: string, max: int, list: seq<ServiceInstance>, ok: bool, now: int)
    requires max >= 1 && events != [] && events[|events| - 1] == Probed(id, ok, now)
    requires Listed(events[..|events| - 1], id)
    requires Tells(events[..|events| - 1], id, max, list)
    ensures Tells(events, id, max, Probe(list, id, ok, max, now))
  {
  }

  lemma ListTells(events: seq<Event>, id: string, max: int)
    requires max >= 1 && Clean(events) && events != [] && !events[|events| - 1].Probed?
    requires Tells(events[..|events| - 1], id, max, CacheAfter(events[..|events| - 1], max))
    ensures Tells(events, id, max, CacheAfter(events, max))
  {
    var last := events[|events| - 1];
    assert last in events;
    FindByIDs(last.list, CacheAfter(events, max), id);
  }

  /**
   * The failure counter of a cached instance is the trailing run of failed probes since it was
   * last admitted, its health is whether that run is shorter than the limit, and its time stamp
   * is that of the last probe or admission.
   */
  lemma {:induction false} CacheFollowsHistory(events: seq<Event>, id: string, max: int)
    requires max >= 1 && Clean(events)
    ensures Tells(events, id, max, CacheAfter(events, max))
  {
    if events != [] {
      CleanPrefix(events);
      CacheFollowsHistory(events[..|events| - 1], id, max);
      var before := events[..|events| - 1];
      var last := events[|events| - 1];
      var list := CacheAfter(before, max);
      if last.Probed? && last.id == id && Listed(before, id) {
        OwnProbeTells(events, id, max, list, last.ok, last.now);
      } else if last.Probed? {
        OtherProbeTells(events, id, max, list, last.id, last.ok, last.now);
      } else {
        ListTells(events, id, max);
      }
    }
  }

  // ---------------------------------------------------------------- how soon failures show

  /** When the instance was last admitted. */
  function AdmittedAt(events: seq<Event>, id: string, max: int): int {
    if events == [] then 0
    else if Admits(events, id, max) then events[|events| - 1].now
    else AdmittedAt(events[..|events| - 1], id, max)
  }

  /** Each probe of the instance comes at most `gap` after the last probe or admission. */
  ghost predicate Paced(events: seq<Event>, id: string, max: int, gap: int) {
    events != [] ==>
      var before := events[..|events| - 1];
      var last := events[|events| - 1];
      && Paced(before, id, max, gap)
      && (last.Probed? && last.id == id && Listed(before, id) ==> last.now - LastTouch(before, id, max) <= gap)
  }

  lemma {:induction false} ProbesKeepPace(events: seq<Event>, id: string, max: int, gap: int)
    requires gap >= 0 && Paced(events, id, max, gap)
    ensures LastTouch(events, id, max) <= AdmittedAt(events, id, max) + |Outcomes(events, id, max)| * gap
  {
    if events != [] {
      var before := events[..|events| - 1];
      ProbesKeepPace(before, id, max, gap);
      var n := |Outcomes(before, id, max)|;
      assert (n + 1) * gap == n * gap + gap;
    }
  }

  ghost predicate AllFailed(outcomes: seq<bool>) {
    forall i | 0 <= i < |outcomes| :: !outcomes[i]
  }

  lemma {:induction false} AllFailedTrails(outcomes: seq<bool>)
    requires AllFailed(outcomes)
    ensures TrailingFailures(outcomes) == |outcomes|
  {
    if outcomes != [] {
      AllFailedTrails(outcomes[..|outcomes| - 1]);
    }
  }

  /** The instance is among those `GetInstances` returns. */
  ghost predicate Selectable(events: seq<Event>, id: string, max: int, now: int, minHealthyTime: int) {
    var list := CacheAfter(events, max);
    Find(list, id).Some? && Visible(list[Find(list, id).value], now, minHealthyTime)
  }

  /** Touched within `gap`, which is below the minimum healthy time, an instance is selectable while it is healthy. */
  lemma RecentIsSelectable(events: seq<Event>, id: string, max: int, gap: int, now: int, minHealthyTime: int)
    requires max >= 1 && Clean(events) && Listed(events, id)
    requires now - LastTouch(events, id, max) <= gap < minHealthyTime
    ensures Selectable(events, id, max, now, minHealthyTime) <==> TrailingFailures(Outcomes(events, id, max)) < max
  {
    CacheFollowsHistory(events, id, max);
  }

  /** The instance was admitted more than `max` gaps ago, and all its probes since then failed. */
  ghost predicate LongFailing(events: seq<Event>, id: string, max: int, gap: int, now: int) {
    && Listed(events, id) && AllFailed(Outcomes(events, id, max))
    && now > AdmittedAt(events, id, max) + max * gap
  }

  /** The probes of the instance are at most `gap` apart, and the last one is no longer ago. */
  ghost predicate KeptUp(events: seq<Event>, id: string, max: int, gap: int, now: int) {
    gap >= 0 && Clean(events) && Paced(events, id, max, gap) && now - LastTouch(events, id, max) <= gap
  }

  /** With probes at most `gap` apart, such an instance is not selectable. */
  lemma FailingIsNotSelectable(events: seq<Event>, id: string, max: int, gap: int, now: int, minHealthyTime: int)
    requires max >= 1 && KeptUp(events, id, max, gap, now) && LongFailing(events, id, max, gap, now)
    ensures !Selectable(events, id, max, now, minHealthyTime)
  {
    CacheFollowsHistory(events, id, max);
    ProbesKeepPace(events, id, max, gap);
    AllFailedTrails(Outcomes(events, id, max));
    FewProbesTakeLittleTime(|Outcomes(events, id, max)|, max, gap);
  }

  lemma FewProbesTakeLittleTime(n: nat, max: int, gap: int)
    requires gap >= 0
    ensures n < max ==> n * gap + gap <= max * gap
  {
    if n < max {
      Product(n + 1, max - n - 1, gap);
      Product(n, 1, gap);
    }
  }

  lemma Product(a: nat, b: nat, c: int)
    requires c >= 0
    ensures (a + b) * c == a * c + b * c && b * c >= 0
  {
  }
}
