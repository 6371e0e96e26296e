/**
 * Registration in etcd: one lease is granted for every registration, but the client remembers
 * only the latest in a single field, and revokes that one whichever instance it deregisters.
 */
module EtcdRegistry {
  import opened Common

  const ROOT := "/services/"

  function Key(service: string, id: string): string {
    ROOT + service + "/" + id
  }

  /** A name or ID that is a single path component. */
  predicate Plain(s: string) {
    s != "" && '/' !in s
  }

  datatype Info = Info(service: string, host: string, httpPort: string, grpcPort: string)

  /** What `register` stores; the codec is lossless. */
  function Stored(id: string, info: Info, hostname: string): ServiceInstance {
    ServiceInstance(id, info.host, info.httpPort, info.grpcPort,
                    map["hostname" := hostname, "host" := info.host, "http_port" := info.httpPort, "grpc_port" := info.grpcPort],
                    false, 0, 0)
  }

  /** What `GetInstances` makes of a stored instance: the ports come from the metadata. */
  function Fetched(inst: ServiceInstance): ServiceInstance {
    inst.(httpPort := if "http_port" in inst.metadata then inst.metadata["http_port"] else "",
          grpcPort := if "grpc_port" in inst.metadata then inst.metadata["grpc_port"] else "")
  }

  /** The ZooKeeper registration stores the ports in the metadata alone. */
  function StoredInZooKeeper(id: string, info: Info, hostname: string): ServiceInstance {
    Stored(id, info, hostname).(httpPort := "", grpcPort := "")
  }

  /** Reading takes the ports from the metadata, so it makes the same of what either store holds. */
  lemma FetchedIsStored(id: string, info: Info, hostname: string)
    ensures Fetched(Stored(id, info, hostname)) == Stored(id, info, hostname)
    ensures Fetched(StoredInZooKeeper(id, info, hostname)) == Stored(id, info, hostname)
  {
  }

  datatype Entry = Entry(value: ServiceInstance, lease: nat)

  /** Leases are numbered from 1; 0 stands for none. */
  datatype Etcd = Etcd(kvs: map<string, Entry>, next: nat)

  ghost predicate Sane(e: Etcd) {
    e.next >= 1 && forall k | k in e.kvs :: 1 <= e.kvs[k].lease < e.next
  }

  /** No two keys hang on one lease. */
  ghost predicate OneKeyPerLease(e: Etcd) {
    forall k, l | k in e.kvs && l in e.kvs && e.kvs[k].lease == e.kvs[l].lease :: k == l
  }

  function OnLease(e: Etcd, lease: nat): set<string> {
    set k | k in e.kvs && e.kvs[k].lease == lease
  }

  /** How the requests of one registration go; a put that fails may still have been stored. */
  datatype Io = Io(grantOk: bool, putOk: bool, stored: bool, keepAliveOk: bool)

  class EtcdDiscovery {
    var etcd: Etcd
    var leaseID: nat
    var registeredServices: map<string, Info>
    const hostname: string

    ghost predicate Valid()
      reads this
    {
      Sane(etcd) && OneKeyPerLease(etcd) && leaseID < etcd.next
    }

    constructor (hostname: string)
      ensures Valid() && etcd == Etcd(map[], 1) && leaseID == 0 && registeredServices == map[]
      ensures this.hostname == hostname
    {
      this.hostname := hostname;
      etcd, leaseID, registeredServices := Etcd(map[], 1), 0, map[];
    }

    method Register(id: string, info: Info, isReRegister: bool, io: Io) returns (r: Result<()>)
      requires Valid()
      modifies this
      ensures Valid()
      ensures registeredServices == if isReRegister then old(registeredServices) else old(registeredServices)[id := info]
      ensures leaseID == if io.grantOk then old(etcd.next) else old(leaseID)
      ensures io.grantOk ==> etcd.next == old(etcd.next) + 1
      ensures etcd.kvs ==
              if io.grantOk && (io.putOk || io.stored)
              then old(etcd.kvs)[Key(info.service, id) := Entry(Stored(id, info, hostname), leaseID)] else old(etcd.kvs)
      ensures r.Ok? <==> io.grantOk && io.putOk && io.keepAliveOk
      ensures State(etcd, leaseID) == Apply(old(State(etcd, leaseID)), hostname, Registering(id, info, io))
    {
      if !isReRegister {
        registeredServices := registeredServices[id := info];
      }
      if !io.grantOk {
        return Err;
      }
      leaseID := etcd.next;
      etcd := etcd.(next := etcd.next + 1);
      if io.putOk || io.stored {
        etcd := etcd.(kvs := etcd.kvs[Key(info.service, id) := Entry(Stored(id, info, hostname), leaseID)]);
      }
      if !io.putOk || !io.keepAliveOk {
        return Err;
      }
      return Ok(());
    }

    /** Deletes the instance's key, and then revokes the latest lease, whoever it was granted for. */
    method Deregister(service: string, id: string, deleteOk: bool, revokeOk: bool) returns (r: Result<()>)
      requires Valid()
      modifies this
      ensures Valid() && leaseID == old(leaseID) && r.Ok? == deleteOk
      ensures !deleteOk ==> etcd == old(etcd) && registeredServices == old(registeredServices)
      ensures deleteOk ==>
        && registeredServices == old(registeredServices) - {id}
        && etcd.kvs == old(etcd.kvs) - {Key(service, id)} - (if revokeOk then OnLease(old(etcd), leaseID) else {})
      ensures State(etcd, leaseID) == Apply(old(State(etcd, leaseID)), hostname, Deregistering(service, id, deleteOk, revokeOk))
    {
      if !deleteOk {
        return Err;
      }
      ghost var before := etcd;
      etcd := etcd.(kvs := etcd.kvs - {Key(service, id)});
      NoKeyWithoutLease(before);
      if leaseID != 0 && revokeOk {
        RemovedTogether(before, Key(service, id), leaseID);
        etcd := etcd.(kvs := etcd.kvs - OnLease(etcd, leaseID));
      }
      registeredServices := registeredServices - {id};
      return Ok(());
    }

    /**
     * Registers again, in any order, every remembered service whose key is gone; `reliable` tells
     * that no request fails. No key disappears meanwhile.
     */
    method CheckAndReRegister(reliable: bool) returns (r: Result<()>)
      requires Valid()
      modifies this
      ensures Valid() && registeredServices == old(registeredServices)
      ensures forall k | k in old(etcd.kvs) :: k in etcd.kvs && etcd.kvs[k] == old(etcd.kvs[k])
      ensures forall k | k in etcd.kvs && k !in old(etcd.kvs) :: Restored(registeredServices, hostname, k, etcd.kvs[k])
      ensures r.Ok? ==> AllStored(registeredServices, etcd)
      ensures AllStored(registeredServices, old(etcd)) ==> etcd == old(etcd) && leaseID == old(leaseID)
      ensures reliable ==> r.Ok?
    {
      var rest := registeredServices.Keys;
      while rest != {}
        invariant Valid() && rest <= registeredServices.Keys && registeredServices == old(registeredServices)
        invariant forall k | k in old(etcd.kvs) :: k in etcd.kvs && etcd.kvs[k] == old(etcd.kvs[k])
        invariant forall k | k in etcd.kvs && k !in old(etcd.kvs) :: Restored(registeredServices, hostname, k, etcd.kvs[k])
        invariant forall id | id in registeredServices.Keys - rest :: Key(registeredServices[id].service, id) in etcd.kvs
        invariant AllStored(registeredServices, old(etcd)) ==> etcd == old(etcd) && leaseID == old(leaseID)
        decreases rest
      {
        var id :| id in rest;
        rest := rest - {id};
        var again := EnsureRegistered(id, reliable);
        if again.Err? {
          return Err;
        }
      }
      return Ok(());
    }

    /** One remembered service: looks for its key and registers it if need be, as often as the retries allow. */
    method EnsureRegistered(id: string, reliable: bool) returns (r: Result<()>)
      requires Valid() && id in registeredServices
      modifies this
      ensures Valid() && registeredServices == old(registeredServices)
      ensures forall k | k in old(etcd.kvs) :: k in etcd.kvs && etcd.kvs[k] == old(etcd.kvs[k])
      ensures forall k | k in etcd.kvs && k !in old(etcd.kvs) :: Restored(registeredServices, hostname, k, etcd.kvs[k])
      ensures r.Ok? ==> Key(registeredServices[id].service, id) in etcd.kvs
      ensures Key(registeredServices[id].service, id) in old(etcd.kvs) ==> etcd == old(etcd) && leaseID == old(leaseID)
      ensures reliable ==> r.Ok?
    {
      var info := registeredServices[id];
      var retries: nat := *;
      r := Once(id, info, reliable);
      while r.Err? && retries > 0
        invariant Valid() && registeredServices == old(registeredServices)
        invariant forall k | k in old(etcd.kvs) :: k in etcd.kvs && etcd.kvs[k] == old(etcd.kvs[k])
        invariant forall k | k in etcd.kvs && k !in old(etcd.kvs) :: Restored(registeredServices, hostname, k, etcd.kvs[k])
        invariant r.Ok? ==> Key(info.service, id) in etcd.kvs
        invariant Key(info.service, id) in old(etcd.kvs) ==> etcd == old(etcd) && leaseID == old(leaseID)
        invariant reliable ==> r.Ok?
        decreases retries
      {
        retries := retries - 1;
        r := Once(id, info, reliable);
      }
    }

    /** One attempt, with whatever outcome its requests have. */
    method Once(id: string, info: Info, reliable: bool) returns (r: Result<()>)
      requires Valid() && id in registeredServices && registeredServices[id] == info
      modifies this
      ensures Valid() && registeredServices == old(registeredServices)
      ensures forall k | k in old(etcd.kvs) :: k in etcd.kvs && etcd.kvs[k] == old(etcd.kvs[k])
      ensures forall k | k in etcd.kvs && k !in old(etcd.kvs) :: Restored(registeredServices, hostname, k, etcd.kvs[k])
      ensures r.Ok? ==> Key(info.service, id) in etcd.kvs
      ensures Key(info.service, id) in old(etcd.kvs) ==> etcd == old(etcd) && leaseID == old(leaseID)
      ensures reliable ==> r.Ok?
    {
      var getOk: bool := *;
      if !getOk && !reliable {
        return Err;
      }
      if Key(info.service, id) in etcd.kvs {
        return Ok(());
      }
      var io: Io := *;
      r := Register(id, info, true, if reliable then Io(true, true, true, true) else io);
    }

    /** Fetches every key that starts with the service's path, as text. */
    method GetInstances(service: string, ok: bool) returns (r: Result<map<string, ServiceInstance>>)
      ensures r == if ok then Ok(Instances(etcd, service)) else Err
    {
      r := if ok then Ok(Instances(etcd, service)) else Err;
    }
  }

  lemma RemovedTogether(e: Etcd, key: string, lease: nat)
    ensures
      var kvs := e.kvs - {key};
      kvs - OnLease(e.(kvs := kvs), lease) == kvs - OnLease(e, lease)
  {
  }

  lemma NoKeyWithoutLease(e: Etcd)
    requires Sane(e)
    ensures OnLease(e, 0) == {}
  {
  }

  ghost predicate AllStored(services: map<string, Info>, e: Etcd) {
    forall id | id in services :: Key(services[id].service, id) in e.kvs
  }

  /** The entry is a remembered service's own, as `register` writes it. */
  ghost predicate Restored(services: map<string, Info>, hostname: string, key: string, entry: Entry) {
    exists id :: id in services && key == Key(services[id].service, id) && entry.value == Stored(id, services[id], hostname)
  }

  // ---------------------------------------------------------------- runs

  datatype Event =
    | Registering(id: string, info: Info, io: Io)
    | Deregistering(service: string, id: string, deleteOk: bool, revokeOk: bool)
    | Expiring(lease: nat)

  datatype State = State(etcd: Etcd, leaseID: nat)

  function Apply(s: State, hostname: string, ev: Event): State {
    match ev
    case Registering(id, info, io) =>
      if !io.grantOk then s else
        var lease := s.etcd.next;
        var kvs := if io.putOk || io.stored
                   then s.etcd.kvs[Key(info.service, id) := Entry(Stored(id, info, hostname), lease)] else s.etcd.kvs;
        State(Etcd(kvs, lease + 1), lease)
    case Deregistering(service, id, deleteOk, revokeOk) =>
      if !deleteOk then s else
        var kvs := s.etcd.kvs - {Key(service, id)};
        s.(etcd := s.etcd.(kvs := if revokeOk then kvs - OnLease(s.etcd, s.leaseID) else kvs))
    case Expiring(lease) =>
      s.(etcd := s.etcd.(kvs := s.etcd.kvs - OnLease(s.etcd, lease)))
  }

  function Run(s: State, hostname: string, events: seq<Event>): State
    decreases |events|
  {
    if events == [] then s else Run(Apply(s, hostname, events[0]), hostname, events[1..])
  }

  /** When a lease expires, exactly its keys go. */
  lemma ExpiryRemovesItsKeys(s: State, hostname: string, lease: nat, key: string)
    ensures
      var after := Apply(s, hostname, Expiring(lease));
      && (key in after.etcd.kvs <==> key in s.etcd.kvs && s.etcd.kvs[key].lease != lease)
      && (key in after.etcd.kvs ==> after.etcd.kvs[key] == s.etcd.kvs[key])
  {
  }

  ghost predicate Good(s: State) {
    Sane(s.etcd) && OneKeyPerLease(s.etcd) && s.leaseID < s.etcd.next
  }

  /** One after the other, registrations never share a lease, whatever fails or expires. */
  lemma {:induction false} LeasesStayApart(s: State, hostname: string, events: seq<Event>)
    requires Good(s)
    ensures Good(Run(s, hostname, events))
    decreases |events|
  {
    if events != [] {
      LeasesStayApart(Apply(s, hostname, events[0]), hostname, events[1..]);
    }
  }

  /** What a deregistration removes besides the instance's own key. */
  function Collateral(s: State, service: string, id: string): set<string> {
    OnLease(s.etcd, s.leaseID) - {Key(service, id)}
  }

  /**
   * A deregistration removes the instance's key and at most one other: the one that hangs on the
   * latest lease. It spares all others exactly when that lease holds no other key, that is when
   * the instance is itself the last one registered or the last one registered is gone.
   */
  lemma DeregistrationSparesOthersIff(s: State, hostname: string, service: string, id: string)
    requires Good(s)
    ensures
      var after := Apply(s, hostname, Deregistering(service, id, true, true));
      && after.etcd.kvs == s.etcd.kvs - {Key(service, id)} - Collateral(s, service, id)
      && |Collateral(s, service, id)| <= 1
      && (after.etcd.kvs == s.etcd.kvs - {Key(service, id)} <==> OnLease(s.etcd, s.leaseID) <= {Key(service, id)})
  {
    CollateralIsOne(s, service, id);
    RemovedBesides(s.etcd.kvs, Key(service, id), OnLease(s.etcd, s.leaseID));
  }

  lemma RemovedBesides(kvs: map<string, Entry>, key: string, lost: set<string>)
    requires lost <= kvs.Keys
    ensures kvs - {key} - lost == kvs - {key} - (lost - {key})
    ensures kvs - {key} - lost == kvs - {key} <==> lost <= {key}
  {
    if k :| k in lost && k != key {
      assert k in kvs - {key} && k !in kvs - {key} - lost;
    } else {
      assert lost <= {key};
    }
  }

  lemma CollateralIsOne(s: State, service: string, id: string)
    requires Good(s)
    ensures |Collateral(s, service, id)| <= 1
  {
    var c := Collateral(s, service, id);
    if k :| k in c {
      assert c == {k};
    }
  }

  /** The key of the last registration that was granted a lease; `before` is the one remembered from earlier. */
  function LatestKey(before: set<string>, events: seq<Event>): set<string>
    decreases |events|
  {
    if events == [] then before else
      LatestKey(if events[0].Registering? && events[0].io.grantOk then {Key(events[0].info.service, events[0].id)} else before, events[1..])
  }

  /**
   * Over every run, only the last granted registration can hang on the latest lease. So
   * deregistering spares every other key whenever that registration was for the same instance.
   */
  lemma {:induction false} OnlyTheLatestIsAtRisk(s: State, before: set<string>, hostname: string, events: seq<Event>)
    requires Good(s) && OnLease(s.etcd, s.leaseID) <= before
    ensures
      var t := Run(s, hostname, events);
      OnLease(t.etcd, t.leaseID) <= LatestKey(before, events)
    decreases |events|
  {
    if events != [] {
      var ev := events[0];
      var now := if ev.Registering? && ev.io.grantOk then {Key(ev.info.service, ev.id)} else before;
      LeasesStayApart(s, hostname, [ev]);
      assert OnLease(Apply(s, hostname, ev).etcd, Apply(s, hostname, ev).leaseID) <= now;
      OnlyTheLatestIsAtRisk(Apply(s, hostname, ev), now, hostname, events[1..]);
    }
  }

  lemma DeregisteringTheLatestSparesOthers(hostname: string, events: seq<Event>, service: string, id: string)
    ensures
      var s := Run(State(Etcd(map[], 1), 0), hostname, events);
      LatestKey({}, events) <= {Key(service, id)} ==>
        Apply(s, hostname, Deregistering(service, id, true, true)).etcd.kvs == s.etcd.kvs - {Key(service, id)}
  {
    var start := State(Etcd(map[], 1), 0);
    LeasesStayApart(start, hostname, events);
    OnlyTheLatestIsAtRisk(start, {}, hostname, events);
    DeregistrationSparesOthersIff(Run(start, hostname, events), hostname, service, id);
  }

  /** Registering a, then b, then deregistering a leaves neither of them in the store. */
  lemma DeregisteringTheFirstRemovesTheSecond(s: State, hostname: string, a: string, infoA: Info, b: string, infoB: Info)
    requires Good(s) && Key(infoA.service, a) != Key(infoB.service, b)
    ensures
      var fine := Io(true, true, true, true);
      var s1 := Apply(Apply(s, hostname, Registering(a, infoA, fine)), hostname, Registering(b, infoB, fine));
      var s2 := Apply(s1, hostname, Deregistering(infoA.service, a, true, true));
      && Key(infoA.service, a) in s1.etcd.kvs && Key(infoB.service, b) in s1.etcd.kvs
      && Key(infoA.service, a) !in s2.etcd.kvs && Key(infoB.service, b) !in s2.etcd.kvs
  {
  }

  // ---------------------------------------------------------------- registrations at once

  /** It holds the lease of its own grant until it has assigned it to the shared field. */
  datatype Phase = Granting | Holding(lease: nat) | Putting | Done

  datatype Registration = Registration(key: string, value: ServiceInstance, phase: Phase)

  datatype Racing = Racing(etcd: Etcd, leaseID: nat, running: seq<Registration>)

  /** A request fails, or is carried out and its reply lost, or is answered; the first two are retried. */
  datatype Reply = Failed | Lost | Answered

  datatype Move = Move(who: nat, reply: Reply)

  /** One request, or the assignment of the field; a registration that gives up makes no more moves. */
  function Step(s: Racing, m: Move): Racing {
    if m.who >= |s.running| then s else
      var own := s.running[m.who];
      match own.phase
      case Granting =>
        if m.reply.Failed? then s
        else Racing(s.etcd.(next := s.etcd.next + 1), s.leaseID,
                    if m.reply.Lost? then s.running else s.running[m.who := own.(phase := Holding(s.etcd.next))])
      case Holding(lease) => Racing(s.etcd, lease, s.running[m.who := own.(phase := Putting)])
      case Putting =>
        if m.reply.Failed? then s
        else Racing(s.etcd.(kvs := s.etcd.kvs[own.key := Entry(own.value, s.leaseID)]), s.leaseID,
                    if m.reply.Lost? then s.running else s.running[m.who := own.(phase := Done)])
      case Done => s
  }

  function Race(s: Racing, schedule: seq<Move>): Racing
    decreases |schedule|
  {
    if schedule == [] then s else Race(Step(s, schedule[0]), schedule[1..])
  }

  /** In every state of the run, no two keys hang on one lease. */
  ghost predicate AlwaysApart(s: Racing, schedule: seq<Move>)
    decreases |schedule|
  {
    OneKeyPerLease(s.etcd) && (schedule != [] ==> AlwaysApart(Step(s, schedule[0]), schedule[1..]))
  }

  datatype Effect = Assign | Put(key: string)

  /** What a move does to the field or to the store, if anything. */
  function EffectOf(s: Racing, m: Move): Option<Effect> {
    if m.who >= |s.running| then None
    else if s.running[m.who].phase.Holding? then Some(Assign)
    else if s.running[m.who].phase.Putting? && !m.reply.Failed? then Some(Put(s.running[m.who].key))
    else None
  }

  function Effects(s: Racing, schedule: seq<Move>): seq<Effect>
    decreases |schedule|
  {
    if schedule == [] then [] else
      var first, rest := EffectOf(s, schedule[0]), Effects(Step(s, schedule[0]), schedule[1..]);
      if first.None? then rest else [first.value] + rest
  }

  /** The field is assigned between any two puts of different keys; `last` was put before. */
  predicate Separated(last: Option<string>, effects: seq<Effect>)
    decreases |effects|
  {
    effects != [] ==>
      match effects[0]
      case Assign => Separated(None, effects[1..])
      case Put(key) => (last.None? || last.value == key) && Separated(Some(key), effects[1..])
  }

  ghost predicate NoneBegun(s: Racing) {
    forall i | 0 <= i < |s.running| :: s.running[i].phase == Granting
  }

  /** A lease that a registration holds is nobody else's, and nothing hangs on it. */
  ghost predicate HeldAreFresh(s: Racing) {
    && (forall i | 0 <= i < |s.running| && s.running[i].phase.Holding? :: IsFresh(s, s.running[i].phase.lease))
    && (forall i, j | 0 <= i < j < |s.running| && s.running[i].phase.Holding? && s.running[j].phase.Holding? ::
          s.running[i].phase.lease != s.running[j].phase.lease)
  }

  ghost predicate IsFresh(s: Racing, lease: nat) {
    1 <= lease < s.etcd.next && lease != s.leaseID && Unused(s.etcd, lease)
  }

  ghost predicate Unused(e: Etcd, lease: nat) {
    forall k | k in e.kvs :: e.kvs[k].lease != lease
  }

  ghost predicate NonePuts(s: Racing) {
    forall i | 0 <= i < |s.running| :: !s.running[i].phase.Putting?
  }

  /** What hangs on the lease in the field: `last`, or nothing yet, if a registration has assigned it. */
  ghost predicate Tracks(s: Racing, last: Option<string>) {
    && Sane(s.etcd) && OneKeyPerLease(s.etcd) && s.leaseID < s.etcd.next && HeldAreFresh(s)
    && match last
       case None => NonePuts(s) || (s.leaseID >= 1 && Unused(s.etcd, s.leaseID))
       case Some(key) => key in s.etcd.kvs && s.etcd.kvs[key].lease == s.leaseID
  }

  lemma OtherMovesTrack(s: Racing, m: Move, last: Option<string>)
    requires Tracks(s, last) && EffectOf(s, m).None?
    ensures Tracks(Step(s, m), last)
  {
    var t := Step(s, m);
    forall i | 0 <= i < |t.running| && t.running[i].phase.Holding?
      ensures IsFresh(t, t.running[i].phase.lease)
    {
      if t.running[i].phase.lease != s.etcd.next {
        assert IsFresh(s, s.running[i].phase.lease);
      }
    }
  }

  lemma AssignTracks(s: Racing, m: Move, last: Option<string>)
    requires Tracks(s, last) && EffectOf(s, m) == Some(Assign)
    ensures Tracks(Step(s, m), None)
  {
    var t := Step(s, m);
    assert IsFresh(s, s.running[m.who].phase.lease);
    forall i | 0 <= i < |t.running| && t.running[i].phase.Holding?
      ensures IsFresh(t, t.running[i].phase.lease)
    {
      assert IsFresh(s, s.running[i].phase.lease);
    }
  }

  lemma PutTracks(s: Racing, m: Move, last: Option<string>, key: string)
    requires Tracks(s, last) && EffectOf(s, m) == Some(Put(key)) && (last.None? || last.value == key)
    ensures Tracks(Step(s, m), Some(key))
  {
    var t := Step(s, m);
    forall i | 0 <= i < |t.running| && t.running[i].phase.Holding?
      ensures IsFresh(t, t.running[i].phase.lease)
    {
      assert IsFresh(s, s.running[i].phase.lease);
    }
  }

  /** A put of another key under the same lease. */
  lemma PutShares(s: Racing, m: Move, last: string, key: string)
    requires Tracks(s, Some(last)) && EffectOf(s, m) == Some(Put(key)) && last != key
    ensures !OneKeyPerLease(Step(s, m).etcd)
  {
    var kvs := Step(s, m).etcd.kvs;
    assert last in kvs && key in kvs && kvs[last].lease == kvs[key].lease;
  }

  lemma {:induction false} ApartFrom(s: Racing, schedule: seq<Move>, last: Option<string>)
    requires Tracks(s, last)
    ensures AlwaysApart(s, schedule) <==> Separated(last, Effects(s, schedule))
    decreases |schedule|
  {
    if schedule != [] {
      var m, first, rest := schedule[0], EffectOf(s, schedule[0]), Effects(Step(s, schedule[0]), schedule[1..]);
      match first
      case None =>
        OtherMovesTrack(s, m, last);
        ApartFrom(Step(s, m), schedule[1..], last);
      case Some(Assign) =>
        AssignTracks(s, m, last);
        ApartFrom(Step(s, m), schedule[1..], None);
        assert ([Assign] + rest)[1..] == rest;
      case Some(Put(key)) =>
        assert ([Put(key)] + rest)[1..] == rest;
        if last.None? || last.value == key {
          PutTracks(s, m, last, key);
          ApartFrom(Step(s, m), schedule[1..], Some(key));
        } else {
          PutShares(s, m, last.value, key);
        }
    }
  }

  /**
   * The lease a registration puts its key under is read back from the shared field at every
   * attempt. Over any interleaving of any registrations, with requests that fail, are repeated or
   * lose their replies, no two keys ever hang on one lease exactly when the field is assigned
   * between any two puts of different keys.
   */
  lemma LeasesStayApartIff(s: Racing, schedule: seq<Move>)
    requires Sane(s.etcd) && OneKeyPerLease(s.etcd) && s.leaseID < s.etcd.next && NoneBegun(s)
    ensures AlwaysApart(s, schedule) <==> Separated(None, Effects(s, schedule))
  {
    ApartFrom(s, schedule, None);
  }

  /** A put whose reply was lost is tried again, and moves the key to the lease that is in the field by then. */
  lemma RepeatedPutMovesTheKey(s: Racing, i: nat, lease: nat)
    requires i < |s.running| && s.running[i].phase.Putting?
    ensures
      var own := s.running[i];
      var once := Step(s, Move(i, Lost));
      var twice := Step(once.(leaseID := lease), Move(i, Answered));
      && once.etcd.kvs == s.etcd.kvs[own.key := Entry(own.value, s.leaseID)]
      && twice.etcd.kvs == s.etcd.kvs[own.key := Entry(own.value, lease)] && twice.running[i].phase == Done
  {
    assert s.etcd.kvs[s.running[i].key := Entry(s.running[i].value, s.leaseID)][s.running[i].key := Entry(s.running[i].value, lease)]
        == s.etcd.kvs[s.running[i].key := Entry(s.running[i].value, lease)];
  }

  function Fine(who: nat): Move {
    Move(who, Answered)
  }

  /** Two registrations that both assign the field before either puts end up on one lease. */
  lemma RacingRegistrationsShareALease(e: Etcd, leaseID: nat, a: string, x: ServiceInstance, b: string, y: ServiceInstance)
    requires a != b
    ensures
      var s := Racing(e, leaseID, [Registration(a, x, Granting), Registration(b, y, Granting)]);
      !OneKeyPerLease(Race(s, [Fine(0), Fine(1), Fine(0), Fine(1), Fine(0), Fine(1)]).etcd)
  {
    var s := Racing(e, leaseID, [Registration(a, x, Granting), Registration(b, y, Granting)]);
    var granted := Race(s, [Fine(0), Fine(1)]);
    RaceTwo(s, Fine(0), Fine(1), []);
    assert granted.running == [Registration(a, x, Holding(e.next)), Registration(b, y, Holding(e.next + 1))];
    var both := Race(granted, [Fine(0), Fine(1)]);
    RaceTwo(granted, Fine(0), Fine(1), []);
    assert both.running == [Registration(a, x, Putting), Registration(b, y, Putting)];
    var done := Race(both, [Fine(0), Fine(1)]);
    RaceTwo(both, Fine(0), Fine(1), []);
    assert a in done.etcd.kvs && b in done.etcd.kvs && done.etcd.kvs[a].lease == done.etcd.kvs[b].lease;
    RaceTwo(s, Fine(0), Fine(1), [Fine(0), Fine(1), Fine(0), Fine(1)]);
    RaceTwo(granted, Fine(0), Fine(1), [Fine(0), Fine(1)]);
  }

  lemma RaceTwo(s: Racing, m: Move, n: Move, rest: seq<Move>)
    ensures Race(s, [m, n] + rest) == Race(Step(Step(s, m), n), rest)
  {
    assert ([m, n] + rest)[1..] == [n] + rest && ([n] + rest)[1..] == rest;
  }

  // ---------------------------------------------------------------- fetching a service

  function Prefix(service: string): string {
    ROOT + service
  }

  function Instances(e: Etcd, service: string): map<string, ServiceInstance> {
    map k | k in e.kvs && Prefix(service) <= k :: Fetched(e.kvs[k].value)
  }

  /**
   * Registering and then getting the service gives back the instance with its ID, host and ports
   * and no failed checks, besides what the service had before.
   */
  lemma RegisterThenGet(s: State, hostname: string, id: string, info: Info, io: Io)
    requires io.grantOk && (io.putOk || io.stored)
    ensures
      var after := Apply(s, hostname, Registering(id, info, io));
      var inst := Stored(id, info, hostname);
      && Instances(after.etcd, info.service) == Instances(s.etcd, info.service)[Key(info.service, id) := inst]
      && inst.instanceID == id && inst.host == info.host && inst.failedChecks == 0
      && inst.httpPort == info.httpPort && inst.grpcPort == info.grpcPort
      && inst.metadata.Keys == {"hostname", "host", "http_port", "grpc_port"}
      && inst.metadata["hostname"] == hostname && inst.metadata["host"] == info.host
      && inst.metadata["http_port"] == info.httpPort && inst.metadata["grpc_port"] == info.grpcPort
      && Key(info.service, id) == "/services/" + info.service + "/" + id
  {
    FetchedIsStored(id, info, hostname);
    assert Key(info.service, id) == Prefix(info.service) + ("/" + id);
    var after := Apply(s, hostname, Registering(id, info, io));
    assert Instances(after.etcd, info.service).Keys == Instances(s.etcd, info.service).Keys + {Key(info.service, id)};
  }

  lemma NoSlashInside(s: string, i: nat)
    requires Plain(s)
    ensures i < |s| ==> s[i] != '/'
  {
  }

  /** A stored key starts with a service's path, as text, when its service name starts with that name. */
  lemma PrefixMatchesLongerNames(service: string, other: string, id: string)
    requires Plain(service) && Plain(other)
    ensures Prefix(service) <= Key(other, id) <==> service <= other
  {
    var key := Key(other, id);
    assert key == ROOT + (other + "/" + id);
    if Prefix(service) <= key {
      assert forall i | 0 <= i < |service| :: service[i] == Prefix(service)[|ROOT| + i] == key[|ROOT| + i] == (other + "/" + id)[i];
      NoSlashInside(service, |other|);
      assert forall i | 0 <= i < |service| :: service[i] == other[i];
    }
    if service <= other {
      assert forall i | 0 <= i < |service| :: service[i] == other[i];
      assert forall i | 0 <= i < |Prefix(service)| :: Prefix(service)[i] == key[i];
    }
  }

  /** The keys of the pairs (service, ID) are what is stored. */
  ghost predicate Stores(e: Etcd, pairs: set<(string, string)>) {
    && (forall p | p in pairs :: Plain(p.0) && Plain(p.1) && Key(p.0, p.1) in e.kvs)
    && (forall k | k in e.kvs :: exists p :: p in pairs && k == Key(p.0, p.1))
  }

  lemma KeysAreUnambiguous(p: (string, string), q: (string, string))
    requires Plain(p.0) && Plain(q.0) && Key(p.0, p.1) == Key(q.0, q.1)
    ensures p == q
  {
    var s, t := p.0 + "/" + p.1, q.0 + "/" + q.1;
    assert Key(p.0, p.1)[|ROOT|..] == s && Key(q.0, q.1)[|ROOT|..] == t;
    assert s[|p.0|] == '/' && t[|q.0|] == '/';
    NoSlashInside(q.0, |p.0|);
    NoSlashInside(p.0, |q.0|);
    assert s[..|p.0|] == p.0 && t[..|q.0|] == q.0;
    assert s[|p.0| + 1..] == p.1 && t[|q.0| + 1..] == q.1;
  }

  /** What `GetInstances` answers with: the keys of every service whose name begins with the one asked for. */
  lemma GetInstancesMatchesPrefixes(e: Etcd, pairs: set<(string, string)>, service: string)
    requires Stores(e, pairs) && Plain(service)
    ensures Instances(e, service).Keys == Matching(pairs, service)
  {
    forall p | p in pairs
      ensures Prefix(service) <= Key(p.0, p.1) <==> service <= p.0
    {
      PrefixMatchesLongerNames(service, p.0, p.1);
    }
  }

  function Matching(pairs: set<(string, string)>, service: string): set<string> {
    set p | p in pairs && service <= p.0 :: Key(p.0, p.1)
  }

  function Own(pairs: set<(string, string)>, service: string): set<string> {
    set p | p in pairs && p.0 == service :: Key(p.0, p.1)
  }

  /** It answers with the service's own exactly when no stored service has a longer name that starts with it. */
  lemma GetInstancesIsExactIff(e: Etcd, pairs: set<(string, string)>, service: string)
    requires Stores(e, pairs) && Plain(service)
    ensures Instances(e, service).Keys == Own(pairs, service) <==> forall p | p in pairs && service <= p.0 :: p.0 == service
  {
    GetInstancesMatchesPrefixes(e, pairs, service);
    forall p | p in pairs && service <= p.0 && p.0 != service
      ensures Key(p.0, p.1) in Matching(pairs, service) && Key(p.0, p.1) !in Own(pairs, service)
    {
      if Key(p.0, p.1) in Own(pairs, service) {
        var q :| q in pairs && q.0 == service && Key(q.0, q.1) == Key(p.0, p.1);
        KeysAreUnambiguous(p, q);
      }
    }
  }
}
