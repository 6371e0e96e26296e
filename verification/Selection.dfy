/** `Select`: the visible instances of the cache, handed to the balancer that all services share. */
module Selection {
  import opened Common
  import opened HealthCache
  import opened Discovery
  import opened ConsistentHash
  import opened RingProperties

  /** The cached instances of a service that `GetInstances` lets through. */
  function VisibleNow(d: DiscoveryWithLB, service: string, now: int): seq<ServiceInstance>
    reads d
  {
    FilterHealthy(Cached(d.instances, service), now, d.minHealthyTime)
  }

  lemma NothingCachedIsNothingVisible(now: int, minHealthyTime: int)
    ensures FilterHealthy([], now, minHealthyTime) == []
  {
  }

  method Select(d: DiscoveryWithLB, lb: ConsistentHashBalancer, service: string, key: string,
                backend: Result<seq<ServiceInstance>>, now: int) returns (r: Result<ServiceInstance>)
    requires d.Valid() && lb.Valid()
    modifies d`instances, d`healthCheckStop, d`nextChannel, d`checkers, lb
    ensures d.Valid() && lb.Valid()
    ensures d.Abstract() ==
            if service !in old(d.instances) && backend.Ok?
            then Apply(old(d.Abstract()), Got(service, backend.value, now), d.maxFailedChecks) else old(d.Abstract())
    ensures lb.builtFrom == BuiltFromNext(old(lb.builtFrom), VisibleNow(d, service, now))
    ensures r == if VisibleNow(d, service, now) == [] then Err else Ok(Owner(lb.hash, lb.builtFrom, key))
  {
    NothingCachedIsNothingVisible(now, d.minHealthyTime);
    var got := d.GetInstances(service, backend, now);
    if got.Err? {
      return Err;
    }
    if |got.value| == 0 {
      return Err;
    }
    r := lb.Select(got.value, key);
  }

  /** Every entry of the table belongs to the last write of its hash. */
  lemma {:induction false} EntryHasItsWrite(h: HashFunction, insts: seq<ServiceInstance>, n: nat, p: Hash) returns (w: nat)
    requires n <= 10 * |insts| && p in NodeTable(h, insts, n)
    ensures w < n && WriteHash(h, insts, w) == p && NodeTable(h, insts, n)[p] == insts[w / 10]
    ensures forall v: nat | w < v < n :: WriteHash(h, insts, v) != p
  {
    if WriteHash(h, insts, n - 1) == p {
      w := n - 1;
    } else {
      w := EntryHasItsWrite(h, insts, n - 1, p);
    }
  }

  lemma OwnerIsInTheTable(h: HashFunction, built: seq<ServiceInstance>, key: string)
    requires built != []
    ensures Owner(h, built, key) in NodeTable(h, built, 10 * |built|).Values
  {
    var w := Winner(h, built, h(key), 10 * |built|);
    LastWriterOwnsTheSlot(h, built, 10 * |built|, w);
    assert WriteHash(h, built, w) in NodeTable(h, built, 10 * |built|).Keys;
  }

  lemma TableIsAnswered(h: HashFunction, built: seq<ServiceInstance>, x: ServiceInstance) returns (key: string)
    requires x in NodeTable(h, built, 10 * |built|).Values
    ensures built != [] && Owner(h, built, key) == x
  {
    var p :| p in NodeTable(h, built, 10 * |built|) && NodeTable(h, built, 10 * |built|)[p] == x;
    var w := EntryHasItsWrite(h, built, 10 * |built|, p);
    key := LabelOf(built, w);
    assert h(key) == p;
    OwnerIsUnique(h, built, key, w);
  }

  /** The instances a ring answers with are exactly those in its node table. */
  lemma AnswersAreTheTable(h: HashFunction, built: seq<ServiceInstance>, x: ServiceInstance)
    requires built != []
    ensures (exists key: string :: Owner(h, built, key) == x) <==> x in NodeTable(h, built, 10 * |built|).Values
  {
    if key: string :| Owner(h, built, key) == x {
      OwnerIsInTheTable(h, built, key);
    }
    if x in NodeTable(h, built, 10 * |built|).Values {
      var key := TableIsAnswered(h, built, x);
    }
  }

  /** `GetInstances` would return an instance at the endpoint. */
  ghost predicate Offers(current: seq<ServiceInstance>, now: int, minHealthyTime: int, at: Endpoint) {
    exists y :: y in FilterHealthy(current, now, minHealthyTime) && EndpointOf(y) == at
  }

  /** Some cached instance at the endpoint is healthy and fresh. */
  ghost predicate StillVisible(current: seq<ServiceInstance>, now: int, minHealthyTime: int, at: Endpoint) {
    exists y :: y in current && EndpointOf(y) == at && Visible(y, now, minHealthyTime)
  }

  lemma OfferedIffVisible(current: seq<ServiceInstance>, now: int, minHealthyTime: int, at: Endpoint)
    ensures Offers(current, now, minHealthyTime, at) <==> StillVisible(current, now, minHealthyTime, at)
  {
    forall y
      ensures y in FilterHealthy(current, now, minHealthyTime) <==> y in current && Visible(y, now, minHealthyTime)
    {
      FilterKeepsTheVisible(current, now, minHealthyTime, y);
    }
  }

  /**
   * Every answer leads to an instance that is healthy and fresh now, whatever the key, exactly
   * when every endpoint in the node table of the list that last forced a rebuild still has one.
   */
  lemma EveryAnswerIsVisibleIff(h: HashFunction, built: seq<ServiceInstance>, current: seq<ServiceInstance>, now: int, minHealthyTime: int)
    requires built != []
    ensures (forall key: string :: Offers(current, now, minHealthyTime, EndpointOf(Owner(h, built, key))))
       <==> forall x | x in NodeTable(h, built, 10 * |built|).Values :: StillVisible(current, now, minHealthyTime, EndpointOf(x))
  {
    forall at
      ensures Offers(current, now, minHealthyTime, at) <==> StillVisible(current, now, minHealthyTime, at)
    {
      OfferedIffVisible(current, now, minHealthyTime, at);
    }
    if forall x | x in NodeTable(h, built, 10 * |built|).Values :: StillVisible(current, now, minHealthyTime, EndpointOf(x)) {
      forall key: string
        ensures Offers(current, now, minHealthyTime, EndpointOf(Owner(h, built, key)))
      {
        OwnerIsInTheTable(h, built, key);
      }
    } else {
      var x :| x in NodeTable(h, built, 10 * |built|).Values && !StillVisible(current, now, minHealthyTime, EndpointOf(x));
      var key := TableIsAnswered(h, built, x);
      assert !Offers(current, now, minHealthyTime, EndpointOf(Owner(h, built, key)));
    }
  }
}
