/**
 * The consistent-hash balancer: a cached ring of virtual nodes, sorted in place and
 * scanned for the successor of the key's hash. The cached answer is compared with a
 * stateless one, and the stateless one with what consistent hashing is for.
 */
module ConsistentHash {
  import opened Common

  const RING_SIZE := 0x1_0000_0000

  /** A CRC-32 value; the checksum itself is an arbitrary function to 32 bits. */
  type Hash = h: int | 0 <= h < RING_SIZE

  type HashFunction = string -> Hash

  const DIGITS := "0123456789"

  /** The label hashed for one of the ten virtual nodes of a host. */
  function VirtualNode(host: string, replica: nat): string
    requires replica < 10
  {
    host + ":" + [DIGITS[replica]]
  }

  /** The ten labels of a host are different: the host, a colon and a decimal digit. */
  lemma LabelsDiffer(host: string, i: nat, j: nat)
    requires i < 10 && j < 10
    ensures
      var text := VirtualNode(host, i);
      && |text| == |host| + 2 && text[..|host|] == host && text[|host|] == ':'
      && text[|host| + 1] as int == '0' as int + i
      && (i != j ==> text != VirtualNode(host, j))
  {
    assert VirtualNode(host, i)[|host| + 1] == DIGITS[i] && VirtualNode(host, j)[|host| + 1] == DIGITS[j];
  }

  lemma RingHas32Bits()
    ensures RING_SIZE == Pow2(32)
  {
    EightMoreBits(0);
    EightMoreBits(8);
    EightMoreBits(16);
    EightMoreBits(24);
  }

  /** The k-th ring point written by a rebuild: ten consecutive writes for each instance. */
  function WriteHash(h: HashFunction, insts: seq<ServiceInstance>, k: nat): Hash
    requires k < 10 * |insts|
  {
    h(VirtualNode(insts[k / 10].host, k % 10))
  }

  function Points(h: HashFunction, insts: seq<ServiceInstance>, n: nat): seq<Hash>
    requires n <= 10 * |insts|
  {
    if n == 0 then [] else Points(h, insts, n - 1) + [WriteHash(h, insts, n - 1)]
  }

  function NodeTable(h: HashFunction, insts: seq<ServiceInstance>, n: nat): map<Hash, ServiceInstance>
    requires n <= 10 * |insts|
  {
    if n == 0 then map[] else NodeTable(h, insts, n - 1)[WriteHash(h, insts, n - 1) := insts[(n - 1) / 10]]
  }

  // ---------------------------------------------------------------- the stateless answer

  /** How far one walks clockwise on the ring to get from one hash to another. */
  function Clockwise(from: Hash, to: Hash): nat {
    if to >= from then to - from else to - from + RING_SIZE
  }

  /** Write w owns the position `from`: no write is nearer, and no later write is as near. */
  predicate Owns(h: HashFunction, insts: seq<ServiceInstance>, from: Hash, n: nat, w: nat)
    requires n <= 10 * |insts|
  {
    && w < n
    && forall v: nat | v < n ::
         && Clockwise(from, WriteHash(h, insts, w)) <= Clockwise(from, WriteHash(h, insts, v))
         && (WriteHash(h, insts, v) == WriteHash(h, insts, w) ==> v <= w)
  }

  function Winner(h: HashFunction, insts: seq<ServiceInstance>, from: Hash, n: nat): (w: nat)
    requires 1 <= n <= 10 * |insts|
    ensures Owns(h, insts, from, n, w)
  {
    if n == 1 then 0 else
      var best := Winner(h, insts, from, n - 1);
      if Clockwise(from, WriteHash(h, insts, n - 1)) <= Clockwise(from, WriteHash(h, insts, best)) then n - 1 else best
  }

  /** The instance a key belongs to, computed from the list alone. */
  function Owner(h: HashFunction, insts: seq<ServiceInstance>, key: string): ServiceInstance
    requires insts != []
  {
    insts[Winner(h, insts, h(key), 10 * |insts|) / 10]
  }

  lemma OwnerIsUnique(h: HashFunction, insts: seq<ServiceInstance>, key: string, w: nat)
    requires Owns(h, insts, h(key), 10 * |insts|, w)
    ensures insts != [] && Owner(h, insts, key) == insts[w / 10]
  {
  }

  // ---------------------------------------------------------------- sorting and scanning

  ghost predicate Sorted(s: seq<Hash>) {
    forall i, j | 0 <= i < j < |s| :: s[i] <= s[j]
  }

  method ExchangeSort(a: array<Hash>)
    modifies a
    ensures Sorted(a[..])
    ensures multiset(a[..]) == multiset(old(a[..]))
  {
    var i := 0;
    while i < a.Length - 1
      invariant 0 <= i <= a.Length
      invariant forall p, q | 0 <= p < i && p < q < a.Length :: a[p] <= a[q]
      invariant multiset(a[..]) == multiset(old(a[..]))
    {
      var j := i + 1;
      while j < a.Length
        invariant i < j <= a.Length
        invariant forall p, q | 0 <= p < i && p < q < a.Length :: a[p] <= a[q]
        invariant forall q | i < q < j :: a[i] <= a[q]
        invariant multiset(a[..]) == multiset(old(a[..]))
      {
        if a[i] > a[j] {
          a[i], a[j] := a[j], a[i];
        }
        j := j + 1;
      }
      i := i + 1;
    }
  }

  /** The scan over a sorted ring: the first point at or after the hash, else the first point. */
  ghost predicate IsSuccessor(ring: seq<Hash>, from: Hash, p: Hash) {
    exists i: nat | i < |ring| ::
      && p == ring[i]
      && if p >= from then forall j | 0 <= j < i :: ring[j] < from
         else i == 0 && forall j | 0 <= j < |ring| :: ring[j] < from
  }

  lemma SuccessorIsNearest(ring: seq<Hash>, from: Hash, p: Hash)
    requires Sorted(ring) && IsSuccessor(ring, from, p)
    ensures p in ring && forall x | x in ring :: Clockwise(from, p) <= Clockwise(from, x)
  {
  }

  lemma {:induction false} PointsAreWrites(h: HashFunction, insts: seq<ServiceInstance>, n: nat)
    requires n <= 10 * |insts|
    ensures |Points(h, insts, n)| == n
    ensures forall k: nat | k < n :: Points(h, insts, n)[k] == WriteHash(h, insts, k)
  {
    if n > 0 {
      PointsAreWrites(h, insts, n - 1);
    }
  }

  /** The ring and the table after n writes of a rebuild. */
  predicate Written(h: HashFunction, insts: seq<ServiceInstance>, n: nat, ring: seq<Hash>, nodes: map<Hash, ServiceInstance>) {
    n <= 10 * |insts| && ring == Points(h, insts, n) && nodes == NodeTable(h, insts, n)
  }

  lemma NextWrite(h: HashFunction, insts: seq<ServiceInstance>, k: nat, i: nat, ring: seq<Hash>, nodes: map<Hash, ServiceInstance>)
    requires k < |insts| && i < 10 && Written(h, insts, 10 * k + i, ring, nodes)
    ensures
      var point := h(VirtualNode(insts[k].host, i));
      Written(h, insts, 10 * k + i + 1, ring + [point], nodes[point := insts[k]])
  {
    assert (10 * k + i) / 10 == k && (10 * k + i) % 10 == i;
  }

  lemma {:induction false} LastWriterOwnsTheSlot(h: HashFunction, insts: seq<ServiceInstance>, n: nat, w: nat)
    requires w < n <= 10 * |insts|
    requires forall v: nat | w < v < n :: WriteHash(h, insts, v) != WriteHash(h, insts, w)
    ensures WriteHash(h, insts, w) in NodeTable(h, insts, n)
    ensures NodeTable(h, insts, n)[WriteHash(h, insts, w)] == insts[w / 10]
  {
    if w < n - 1 {
      LastWriterOwnsTheSlot(h, insts, n - 1, w);
    }
  }

  /** A permutation of the points contains exactly the written hashes. */
  lemma RingHoldsTheWrites(h: HashFunction, insts: seq<ServiceInstance>, n: nat, ring: seq<Hash>)
    requires n <= 10 * |insts|
    requires multiset(ring) == multiset(Points(h, insts, n))
    ensures forall k: nat | k < n :: WriteHash(h, insts, k) in ring
    ensures forall p | p in ring :: exists k: nat :: k < n && WriteHash(h, insts, k) == p
  {
    var points := Points(h, insts, n);
    PointsAreWrites(h, insts, n);
    forall k: nat | k < n
      ensures WriteHash(h, insts, k) in ring
    {
      assert points[k] in multiset(ring);
    }
    forall p | p in ring
      ensures exists k: nat :: k < n && WriteHash(h, insts, k) == p
    {
      assert p in multiset(points);
      var k :| 0 <= k < n && points[k] == p;
      assert WriteHash(h, insts, k) == p;
    }
  }

  /** Whatever permutation of the points is scanned, the scan finds the stateless owner. */
  lemma ScanFindsOwner(h: HashFunction, insts: seq<ServiceInstance>, n: nat, ring: seq<Hash>, key: string, p: Hash)
    requires insts != [] && n == 10 * |insts|
    requires Sorted(ring) && multiset(ring) == multiset(Points(h, insts, n))
    requires IsSuccessor(ring, h(key), p)
    ensures p in NodeTable(h, insts, n)
    ensures NodeTable(h, insts, n)[p] == Owner(h, insts, key)
  {
    RingHoldsTheWrites(h, insts, n, ring);
    SuccessorIsNearest(ring, h(key), p);
    var w := Winner(h, insts, h(key), n);
    var k: nat :| k < n && WriteHash(h, insts, k) == p;
    assert Clockwise(h(key), p) <= Clockwise(h(key), WriteHash(h, insts, w));
    assert WriteHash(h, insts, w) == p;
    LastWriterOwnsTheSlot(h, insts, n, w);
  }

  // ---------------------------------------------------------------- the balancer

  /** A call rebuilds the ring exactly when its list is not empty and has another length. */
  function BuiltFromNext(built: seq<ServiceInstance>, instances: seq<ServiceInstance>): (next: seq<ServiceInstance>)
    ensures instances != [] ==> |next| == |instances|
  {
    if instances == [] || |instances| == |built| then built else instances
  }

  class ConsistentHashBalancer {
    const hash: HashFunction
    var hashRing: array<Hash>
    var nodes: map<Hash, ServiceInstance>
    /** The list that last forced a rebuild. */
    ghost var builtFrom: seq<ServiceInstance>

    ghost predicate Valid()
      reads this, hashRing
    {
      && hashRing.Length == 10 * |builtFrom|
      && Sorted(hashRing[..])
      && multiset(hashRing[..]) == multiset(Points(hash, builtFrom, 10 * |builtFrom|))
      && nodes == NodeTable(hash, builtFrom, 10 * |builtFrom|)
    }

    constructor (hash: HashFunction)
      ensures Valid() && this.hash == hash && builtFrom == []
    {
      this.hash := hash;
      hashRing := new Hash[0];
      nodes := map[];
      builtFrom := [];
    }

    method Select(instances: seq<ServiceInstance>, key: string) returns (r: Result<ServiceInstance>)
      requires Valid()
      modifies this
      ensures Valid()
      ensures builtFrom == BuiltFromNext(old(builtFrom), instances)
      ensures r == if instances == [] then Err else Ok(Owner(hash, builtFrom, key))
    {
      if |instances| == 0 {
        return Err;
      }
      if hashRing.Length != |instances| * 10 {
        Rebuild(instances);
      }
      var from := hash(key);
      var i := 0;
      while i < hashRing.Length
        invariant 0 <= i <= hashRing.Length
        invariant forall j | 0 <= j < i :: hashRing[j] < from
      {
        if hashRing[i] >= from {
          ghost var ring := hashRing[..];
          assert ring[i] == hashRing[i];
          assert IsSuccessor(ring, from, hashRing[i]);
          ScanFindsOwner(hash, builtFrom, 10 * |builtFrom|, ring, key, hashRing[i]);
          return Ok(nodes[hashRing[i]]);
        }
        i := i + 1;
      }
      ghost var ring := hashRing[..];
      assert ring[0] == hashRing[0];
      assert IsSuccessor(ring, from, hashRing[0]);
      ScanFindsOwner(hash, builtFrom, 10 * |builtFrom|, ring, key, hashRing[0]);
      return Ok(nodes[hashRing[0]]);
    }

    /** The first n points of a rebuild have been written. */
    ghost predicate Filled(instances: seq<ServiceInstance>, n: nat)
      reads this, hashRing
    {
      && n <= 10 * |instances| == hashRing.Length
      && Written(hash, instances, n, hashRing[..n], nodes)
    }

    method Rebuild(instances: seq<ServiceInstance>)
      modifies this
      ensures Valid() && builtFrom == instances
    {
      hashRing := new Hash[|instances| * 10];
      nodes := map[];
      Fill(instances);
      builtFrom := instances;
      assert hashRing[..] == hashRing[..10 * |instances|];
      ExchangeSort(hashRing);
    }

    method Fill(instances: seq<ServiceInstance>)
      requires hashRing.Length == |instances| * 10 && nodes == map[]
      modifies this`nodes, hashRing
      ensures Filled(instances, 10 * |instances|)
    {
      var k := 0;
      while k < |instances|
        invariant 0 <= k <= |instances| && Filled(instances, 10 * k)
      {
        AppendInstance(instances, k);
        k := k + 1;
      }
    }

    method AppendInstance(instances: seq<ServiceInstance>, k: nat)
      requires k < |instances| && Filled(instances, 10 * k)
      modifies this`nodes, hashRing
      ensures Filled(instances, 10 * k + 10)
    {
      var i, n := 0, 10 * k;
      while i < 10
        invariant 0 <= i <= 10 && n == 10 * k + i
        invariant Filled(instances, n)
      {
        n := AppendPoint(instances, k, i, n);
        i := i + 1;
      }
    }

    /** Writes one point at n; returns where the next one goes. */
    method AppendPoint(instances: seq<ServiceInstance>, k: nat, i: nat, n: nat) returns (next: nat)
      requires k < |instances| && i < 10 && n == 10 * k + i && Filled(instances, n)
      modifies this`nodes, hashRing
      ensures next == n + 1 && Filled(instances, next)
    {
      next := n + 1;
      var point := hash(VirtualNode(instances[k].host, i));
      ghost var before := hashRing[..n];
      NextWrite(hash, instances, k, i, before, nodes);
      hashRing[n] := point;
      nodes := nodes[point := instances[k]];
      assert hashRing[..n + 1] == before + [point];
    }
  }
}
