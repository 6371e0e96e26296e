/** What the stateless ring promises, and exactly when the cached ring keeps that promise. */
module RingProperties {
  import opened Common
  import opened ConsistentHash

  function Insert(insts: seq<ServiceInstance>, p: nat, x: ServiceInstance): seq<ServiceInstance>
    requires p <= |insts|
  {
    insts[..p] + [x] + insts[p..]
  }

  /** Where a write into the shorter list goes once an instance is inserted at p. */
  function Shifted(p: nat, w: nat): nat {
    if w < 10 * p then w else w + 10
  }

  lemma ShiftedWrite(h: HashFunction, insts: seq<ServiceInstance>, p: nat, x: ServiceInstance, w: nat)
    requires p <= |insts| && w < 10 * |insts|
    ensures WriteHash(h, Insert(insts, p, x), Shifted(p, w)) == WriteHash(h, insts, w)
    ensures Insert(insts, p, x)[Shifted(p, w) / 10] == insts[w / 10]
  {
  }

  /** An owner in the longer list that is not the inserted instance also owns the key without it. */
  lemma SurvivingOwner(h: HashFunction, insts: seq<ServiceInstance>, p: nat, x: ServiceInstance, key: string, w: nat)
    requires p <= |insts| && w < 10 * |insts|
    requires Owns(h, Insert(insts, p, x), h(key), 10 * (|insts| + 1), Shifted(p, w))
    ensures Owns(h, insts, h(key), 10 * |insts|, w)
  {
    ShiftedWrite(h, insts, p, x, w);
    forall v: nat | v < 10 * |insts|
      ensures Clockwise(h(key), WriteHash(h, insts, w)) <= Clockwise(h(key), WriteHash(h, insts, v))
      ensures WriteHash(h, insts, v) == WriteHash(h, insts, w) ==> v <= w
    {
      ShiftedWrite(h, insts, p, x, v);
      assert Shifted(p, v) < 10 * (|insts| + 1);
    }
  }

  /**
   * Minimal disruption: adding (or removing) one instance, anywhere in the list, moves a key
   * only to (or away from) that instance.
   */
  lemma OnlyTheNewInstanceTakesKeys(h: HashFunction, insts: seq<ServiceInstance>, p: nat, x: ServiceInstance, key: string)
    requires p <= |insts| && insts != []
    ensures
      || Owner(h, Insert(insts, p, x), key) == x
      || Owner(h, Insert(insts, p, x), key) == Owner(h, insts, key)
  {
    var longer := Insert(insts, p, x);
    var w := Winner(h, longer, h(key), 10 * |longer|);
    if w / 10 == p {
      assert longer[p] == x;
    } else {
      var v := if w < 10 * p then w else w - 10;
      assert Shifted(p, v) == w;
      SurvivingOwner(h, insts, p, x, key, v);
      OwnerIsUnique(h, insts, key, v);
      ShiftedWrite(h, insts, p, x, v);
    }
  }

  // ---------------------------------------------------------------- hidden instances

  ghost predicate HasHost(insts: seq<ServiceInstance>, host: string) {
    exists i :: 0 <= i < |insts| && insts[i].host == host
  }

  /** Drops every instance whose host comes again later: those never own a key. */
  ghost function Effective(insts: seq<ServiceInstance>): (r: seq<ServiceInstance>) {
    if insts == [] then []
    else if HasHost(insts[1..], insts[0].host) then Effective(insts[1..])
    else [insts[0]] + Effective(insts[1..])
  }

  /** Every write of an instance whose host comes again is overwritten. */
  lemma HiddenWriteLoses(h: HashFunction, insts: seq<ServiceInstance>, p: nat, q: nat, from: Hash, w: nat)
    requires p < q < |insts| && insts[p].host == insts[q].host
    requires w < 10 * |insts| && w / 10 == p
    ensures !Owns(h, insts, from, 10 * |insts|, w)
  {
    var later := 10 * q + w % 10;
    assert later / 10 == q && later % 10 == w % 10;
    assert WriteHash(h, insts, later) == WriteHash(h, insts, w);
  }

  lemma HiddenInstanceOwnsNothing(h: HashFunction, insts: seq<ServiceInstance>, p: nat, q: nat, key: string)
    requires p < q < |insts| && insts[p].host == insts[q].host
    ensures Owner(h, insts, key) == Owner(h, insts[..p] + insts[p + 1..], key)
  {
    var shorter := insts[..p] + insts[p + 1..];
    assert Insert(shorter, p, insts[p]) == insts;
    var w := Winner(h, insts, h(key), 10 * |insts|);
    if w / 10 == p {
      HiddenWriteLoses(h, insts, p, q, h(key), w);
      assert false;
    } else {
      var v := if w < 10 * p then w else w - 10;
      assert Shifted(p, v) == w;
      SurvivingOwner(h, shorter, p, insts[p], key, v);
      OwnerIsUnique(h, shorter, key, v);
      ShiftedWrite(h, shorter, p, insts[p], v);
    }
  }

  lemma HiddenHeadOwnsNothing(h: HashFunction, pre: seq<ServiceInstance>, insts: seq<ServiceInstance>, key: string)
    requires insts != [] && HasHost(insts[1..], insts[0].host)
    ensures Owner(h, pre + insts, key) == Owner(h, pre + insts[1..], key)
  {
    var rest, all, p := insts[1..], pre + insts, |pre|;
    var q :| 0 <= q < |rest| && rest[q].host == insts[0].host;
    assert all[p].host == all[p + 1 + q].host by {
      assert all[p] == insts[0] && all[p + 1 + q] == insts[q + 1] == rest[q];
    }
    HiddenInstanceOwnsNothing(h, all, p, p + 1 + q, key);
    assert all[..p] + all[p + 1..] == pre + rest by {
      assert all[..p] == pre && all[p + 1..] == rest;
    }
  }

  /** A function of the list that a hidden head cannot change, whatever stands before it. */
  ghost predicate IgnoresHiddenHeads<T(!new)>(f: seq<ServiceInstance> -> T) {
    forall pre: seq<ServiceInstance>, x: ServiceInstance, rest: seq<ServiceInstance> | HasHost(rest, x.host) ::
      f(pre + ([x] + rest)) == f(pre + rest)
  }

  lemma {:induction false} EffectiveBehindPrefix<T(!new)>(f: seq<ServiceInstance> -> T, pre: seq<ServiceInstance>,
                                                          insts: seq<ServiceInstance>)
    requires IgnoresHiddenHeads(f)
    ensures f(pre + insts) == f(pre + Effective(insts))
    decreases |insts|
  {
    if insts != [] {
      var x, rest := insts[0], insts[1..];
      assert insts == [x] + rest;
      if HasHost(rest, x.host) {
        EffectiveBehindPrefix(f, pre, rest);
      } else {
        EffectiveBehindPrefix(f, pre + [x], rest);
        assert pre + ([x] + rest) == pre + [x] + rest;
        assert pre + ([x] + Effective(rest)) == pre + [x] + Effective(rest);
      }
    }
  }

  ghost function Answer(h: HashFunction, key: string): seq<ServiceInstance> -> Option<ServiceInstance> {
    (insts: seq<ServiceInstance>) => if insts == [] then None else Some(Owner(h, insts, key))
  }

  lemma HiddenInstancesDoNotMatter(h: HashFunction, insts: seq<ServiceInstance>, key: string)
    requires insts != []
    ensures Effective(insts) != []
    ensures Owner(h, insts, key) == Owner(h, Effective(insts), key)
  {
    var f := Answer(h, key);
    forall pre: seq<ServiceInstance>, x: ServiceInstance, rest: seq<ServiceInstance> | HasHost(rest, x.host)
      ensures f(pre + ([x] + rest)) == f(pre + rest)
    {
      HiddenHeadOwnsNothing(h, pre, [x] + rest, key);
      assert ([x] + rest)[1..] == rest;
    }
    EffectiveBehindPrefix(f, [], insts);
    assert [] + insts == insts;
    assert [] + Effective(insts) == Effective(insts);
  }

  ghost predicate DistinctHosts(insts: seq<ServiceInstance>) {
    forall i, j | 0 <= i < j < |insts| :: insts[i].host != insts[j].host
  }

  lemma {:induction false} EffectiveHostsAreDistinct(insts: seq<ServiceInstance>)
    ensures DistinctHosts(Effective(insts))
    ensures forall i | 0 <= i < |Effective(insts)| :: HasHost(insts, Effective(insts)[i].host)
  {
    if insts != [] {
      var rest := Effective(insts[1..]);
      EffectiveHostsAreDistinct(insts[1..]);
      forall i | 0 <= i < |rest|
        ensures HasHost(insts, rest[i].host)
      {
        var j :| 0 <= j < |insts[1..]| && insts[1..][j].host == rest[i].host;
        assert insts[j + 1].host == rest[i].host;
      }
    }
  }

  // ---------------------------------------------------------------- telling two lists apart

  /** A hash that sends the points of the chosen hosts to 0 and everything else to 1. */
  function Separating(hosts: set<string>): HashFunction {
    (s: string) => if |s| >= 2 && s[..|s| - 2] in hosts then 0 else 1
  }

  lemma SeparatingPoint(hosts: set<string>, insts: seq<ServiceInstance>, k: nat)
    requires k < 10 * |insts|
    ensures WriteHash(Separating(hosts), insts, k) == if insts[k / 10].host in hosts then 0 else 1
  {
    var host := insts[k / 10].host;
    var text := VirtualNode(host, k % 10);
    assert text[..|text| - 2] == host;
  }

  /** Under a separating hash, a key at 0 belongs to the last chosen instance, if there is one. */
  lemma LastChosenOwns(hosts: set<string>, insts: seq<ServiceInstance>, key: string, i: nat)
    requires Separating(hosts)(key) == 0
    requires i < |insts| && insts[i].host in hosts
    requires forall j | i < j < |insts| :: insts[j].host !in hosts
    ensures Owner(Separating(hosts), insts, key) == insts[i]
  {
    var w := 10 * i + 9;
    forall v: nat | v < 10 * |insts|
      ensures WriteHash(Separating(hosts), insts, v) == if insts[v / 10].host in hosts then 0 else 1
    {
      SeparatingPoint(hosts, insts, v);
    }
    assert w / 10 == i;
    assert Owns(Separating(hosts), insts, Separating(hosts)(key), 10 * |insts|, w);
    OwnerIsUnique(Separating(hosts), insts, key, w);
  }

  /** The owner is always one of the listed instances. */
  lemma OwnerIsListed(h: HashFunction, insts: seq<ServiceInstance>, key: string)
    requires insts != []
    ensures Owner(h, insts, key) in insts
  {
  }

  /** A key that the separating hash sends to 0. */
  lemma ChosenKey(hosts: set<string>, host: string)
    requires host in hosts
    ensures Separating(hosts)(VirtualNode(host, 0)) == 0
  {
    var text := VirtualNode(host, 0);
    assert text[..|text| - 2] == host;
  }

  /** Rings built from the two lists answer the key with different endpoints. */
  ghost predicate Disagree(h: HashFunction, a: seq<ServiceInstance>, b: seq<ServiceInstance>, key: string)
    requires a != [] && b != []
  {
    EndpointOf(Owner(h, a, key)) != EndpointOf(Owner(h, b, key))
  }

  /** An instance of b at i, whose host a does not have, tells the lists apart. */
  lemma MissingHostTellsApart(a: seq<ServiceInstance>, b: seq<ServiceInstance>, i: nat) returns (h: HashFunction, key: string)
    requires a != [] && i < |b| && DistinctHosts(b)
    requires !HasHost(a, b[i].host)
    ensures Disagree(h, a, b, key)
  {
    var hosts := {b[i].host};
    h, key := Separating(hosts), VirtualNode(b[i].host, 0);
    ChosenKey(hosts, b[i].host);
    LastChosenOwns(hosts, b, key, i);
    OwnerIsListed(h, a, key);
  }

  /** Two hosts that both lists have, in opposite orders after position i. */
  lemma SwappedHostsTellApart(a: seq<ServiceInstance>, b: seq<ServiceInstance>, i: nat, ja: nat, jb: nat)
    returns (h: HashFunction, key: string)
    requires i < ja < |a| && i < jb < |b| && DistinctHosts(a) && DistinctHosts(b)
    requires a[ja].host == b[i].host && b[jb].host == a[i].host && a[i].host != b[i].host
    ensures Disagree(h, a, b, key)
  {
    var hosts := {a[i].host, b[i].host};
    h, key := Separating(hosts), VirtualNode(a[i].host, 0);
    ChosenKey(hosts, a[i].host);
    LastChosenOwns(hosts, a, key, ja);
    LastChosenOwns(hosts, b, key, jb);
  }

  ghost predicate SameEndpoints(a: seq<ServiceInstance>, b: seq<ServiceInstance>) {
    |a| == |b| && forall i | 0 <= i < |a| :: EndpointOf(a[i]) == EndpointOf(b[i])
  }

  /** A host that b has at i, where a has another, comes later in a. */
  lemma FoundLater(a: seq<ServiceInstance>, b: seq<ServiceInstance>, i: nat, j: nat)
    requires i < |a| && i < |b| && j < |a| && DistinctHosts(b)
    requires SameEndpoints(a[..i], b[..i]) && a[j].host == b[i].host && a[i].host != b[i].host
    ensures j > i
  {
    forall k | 0 <= k < i
      ensures a[k].host == b[k].host
    {
      assert EndpointOf(a[..i][k]) == EndpointOf(b[..i][k]);
    }
  }

  /** Lists with distinct hosts that agree up to i and differ there. */
  lemma FirstDifferenceTellsApart(a: seq<ServiceInstance>, b: seq<ServiceInstance>, i: nat) returns (h: HashFunction, key: string)
    requires i < |a| && i < |b| && DistinctHosts(a) && DistinctHosts(b)
    requires SameEndpoints(a[..i], b[..i]) && EndpointOf(a[i]) != EndpointOf(b[i])
    ensures Disagree(h, a, b, key)
  {
    var x, y := a[i].host, b[i].host;
    if x == y {
      var hosts := {x};
      h, key := Separating(hosts), VirtualNode(x, 0);
      ChosenKey(hosts, x);
      LastChosenOwns(hosts, a, key, i);
      LastChosenOwns(hosts, b, key, i);
    } else if !HasHost(a, y) {
      h, key := MissingHostTellsApart(a, b, i);
    } else if !HasHost(b, x) {
      h, key := MissingHostTellsApart(b, a, i);
    } else {
      var ja :| 0 <= ja < |a| && a[ja].host == y;
      var jb :| 0 <= jb < |b| && b[jb].host == x;
      FoundLater(a, b, i, ja);
      FoundLater(b, a, i, jb);
      h, key := SwappedHostsTellApart(a, b, i, ja, jb);
    }
  }

  /** The shorter list lacks the host that comes next in the longer one. */
  lemma NextHostIsMissing(a: seq<ServiceInstance>, b: seq<ServiceInstance>)
    requires |a| < |b| && SameEndpoints(a, b[..|a|]) && DistinctHosts(b)
    ensures !HasHost(a, b[|a|].host)
  {
    forall i | 0 <= i < |a|
      ensures a[i].host != b[|a|].host
    {
      assert EndpointOf(a[i]) == EndpointOf(b[..|a|][i]);
    }
  }

  /** Where the lists first differ, or the first instance beyond the shorter one, tells them apart. */
  lemma DifferentListsCanBeToldApart(a: seq<ServiceInstance>, b: seq<ServiceInstance>) returns (h: HashFunction, key: string)
    requires a != [] && b != [] && DistinctHosts(a) && DistinctHosts(b) && !SameEndpoints(a, b)
    ensures Disagree(h, a, b, key)
  {
    var i := 0;
    while i < |a| && i < |b| && EndpointOf(a[i]) == EndpointOf(b[i])
      invariant i <= |a| && i <= |b| && SameEndpoints(a[..i], b[..i])
    {
      i := i + 1;
    }
    if i < |a| && i < |b| {
      h, key := FirstDifferenceTellsApart(a, b, i);
    } else if i < |b| {
      assert a == a[..i];
      NextHostIsMissing(a, b);
      h, key := MissingHostTellsApart(a, b, i);
    } else {
      assert a == a[..|a|] && b == b[..|b|];
      NextHostIsMissing(b, a);
      h, key := MissingHostTellsApart(b, a, i);
    }
  }

  /** Rings built from the two lists answer every key with the same endpoint. */
  ghost predicate AnswerAlike(h: HashFunction, a: seq<ServiceInstance>, b: seq<ServiceInstance>)
    requires a != [] && b != []
  {
    forall key: string :: EndpointOf(Owner(h, a, key)) == EndpointOf(Owner(h, b, key))
  }

  ghost predicate AlikeUnderEveryHash(a: seq<ServiceInstance>, b: seq<ServiceInstance>)
    requires a != [] && b != []
  {
    forall h: HashFunction :: AnswerAlike(h, a, b)
  }

  lemma SameEndpointsAnswerAlike(h: HashFunction, a: seq<ServiceInstance>, b: seq<ServiceInstance>, key: string)
    requires a != [] && SameEndpoints(a, b)
    ensures EndpointOf(Owner(h, a, key)) == EndpointOf(Owner(h, b, key))
  {
    var w := Winner(h, a, h(key), 10 * |a|);
    forall v: nat | v < 10 * |a|
      ensures WriteHash(h, a, v) == WriteHash(h, b, v)
    {
      assert EndpointOf(a[v / 10]) == EndpointOf(b[v / 10]);
    }
    assert Owns(h, b, h(key), 10 * |b|, w);
    OwnerIsUnique(h, b, key, w);
    assert EndpointOf(a[w / 10]) == EndpointOf(b[w / 10]);
  }

  /**
   * What can be told without the hash: under every hash function, a ring built from `built`
   * answers every key as one built from `current` would exactly when the two lists have the same
   * endpoints once hidden instances are dropped.
   */
  lemma AlikeUnderEveryHashIff(built: seq<ServiceInstance>, current: seq<ServiceInstance>)
    requires built != [] && current != []
    ensures AlikeUnderEveryHash(built, current) <==> SameEndpoints(Effective(built), Effective(current))
  {
    var h0 := Separating({});
    HiddenInstancesDoNotMatter(h0, built, "");
    HiddenInstancesDoNotMatter(h0, current, "");
    if SameEndpoints(Effective(built), Effective(current)) {
      forall h: HashFunction, key: string
        ensures EndpointOf(Owner(h, built, key)) == EndpointOf(Owner(h, current, key))
      {
        HiddenInstancesDoNotMatter(h, built, key);
        HiddenInstancesDoNotMatter(h, current, key);
        SameEndpointsAnswerAlike(h, Effective(built), Effective(current), key);
      }
    } else {
      EffectiveHostsAreDistinct(built);
      EffectiveHostsAreDistinct(current);
      var h, key := DifferentListsCanBeToldApart(Effective(built), Effective(current));
      HiddenInstancesDoNotMatter(h, built, key);
      HiddenInstancesDoNotMatter(h, current, key);
      assert !AnswerAlike(h, built, current);
    }
  }

  // ---------------------------------------------------------------- the hash in use

  /** The virtual-node labels of a list. */
  function Labels(insts: seq<ServiceInstance>): set<string> {
    set i, replica: nat | 0 <= i < |insts| && replica < 10 :: VirtualNode(insts[i].host, replica)
  }

  function LabelOf(insts: seq<ServiceInstance>, w: nat): (r: string)
    requires w < 10 * |insts|
    ensures r in Labels(insts)
  {
    VirtualNode(insts[w / 10].host, w % 10)
  }

  /** The write that owns a position also owns every position on the way to it. */
  lemma OwnsOnTheWay(h: HashFunction, insts: seq<ServiceInstance>, from: Hash, stop: Hash, n: nat, w: nat)
    requires n <= 10 * |insts| && Owns(h, insts, from, n, w)
    requires Clockwise(from, stop) <= Clockwise(from, WriteHash(h, insts, w))
    ensures Owns(h, insts, stop, n, w)
  {
    forall v: nat | v < n
      ensures Clockwise(stop, WriteHash(h, insts, w)) <= Clockwise(stop, WriteHash(h, insts, v))
      ensures WriteHash(h, insts, v) == WriteHash(h, insts, w) ==> v <= w
    {
      assert Clockwise(from, WriteHash(h, insts, w)) <= Clockwise(from, WriteHash(h, insts, v));
    }
  }

  /** A key and the label of the nearer of its two owners are answered alike, by both rings. */
  lemma LabelStandsFor(h: HashFunction, a: seq<ServiceInstance>, b: seq<ServiceInstance>, key: string, w: nat, v: nat)
    requires Owns(h, a, h(key), 10 * |a|, w) && Owns(h, b, h(key), 10 * |b|, v)
    requires Clockwise(h(key), WriteHash(h, a, w)) <= Clockwise(h(key), WriteHash(h, b, v))
    ensures a != [] && b != []
    ensures Owner(h, a, LabelOf(a, w)) == Owner(h, a, key) && Owner(h, b, LabelOf(a, w)) == Owner(h, b, key)
  {
    var point := WriteHash(h, a, w);
    OwnsOnTheWay(h, a, h(key), point, 10 * |a|, w);
    OwnsOnTheWay(h, b, h(key), point, 10 * |b|, v);
    OwnerIsUnique(h, a, key, w);
    OwnerIsUnique(h, b, key, v);
    OwnerIsUnique(h, a, LabelOf(a, w), w);
    OwnerIsUnique(h, b, LabelOf(a, w), v);
  }

  /** If both rings answer that label with the same endpoint, they do so for the key. */
  lemma LabelsDecide(h: HashFunction, a: seq<ServiceInstance>, b: seq<ServiceInstance>, key: string, w: nat, v: nat)
    requires Owns(h, a, h(key), 10 * |a|, w) && Owns(h, b, h(key), 10 * |b|, v)
    requires Clockwise(h(key), WriteHash(h, a, w)) <= Clockwise(h(key), WriteHash(h, b, v))
    requires a != [] && b != []
    requires EndpointOf(Owner(h, a, LabelOf(a, w))) == EndpointOf(Owner(h, b, LabelOf(a, w)))
    ensures EndpointOf(Owner(h, a, key)) == EndpointOf(Owner(h, b, key))
  {
    LabelStandsFor(h, a, b, key, w, v);
  }

  /**
   * The ring is cached by list length alone. With the hash in use, a ring built from `built`
   * answers every key as one built from `current` would exactly when the two answer alike the
   * virtual-node labels of both lists, taken as keys: ten look-ups for each instance.
   */
  lemma StaleRingIsFreshIff(h: HashFunction, built: seq<ServiceInstance>, current: seq<ServiceInstance>)
    requires built != [] && current != []
    ensures AnswerAlike(h, built, current)
       <==> forall text | text in Labels(built) + Labels(current) ::
              EndpointOf(Owner(h, built, text)) == EndpointOf(Owner(h, current, text))
  {
    if forall text | text in Labels(built) + Labels(current) :: EndpointOf(Owner(h, built, text)) == EndpointOf(Owner(h, current, text)) {
      forall key: string
        ensures EndpointOf(Owner(h, built, key)) == EndpointOf(Owner(h, current, key))
      {
        var w, v := Winner(h, built, h(key), 10 * |built|), Winner(h, current, h(key), 10 * |current|);
        if Clockwise(h(key), WriteHash(h, built, w)) <= Clockwise(h(key), WriteHash(h, current, v)) {
          LabelsDecide(h, built, current, key, w, v);
        } else {
          LabelsDecide(h, current, built, key, v, w);
        }
      }
    }
  }

  // ---------------------------------------------------------------- runs of Select calls

  /** The list the ring is built from after a run of `Select` calls. */
  function BuiltAfter(lists: seq<seq<ServiceInstance>>): seq<ServiceInstance> {
    if lists == [] then []
    else BuiltFromNext(BuiltAfter(lists[..|lists| - 1]), lists[|lists| - 1])
  }

  lemma BuiltAfterOneMore(lists: seq<seq<ServiceInstance>>, n: nat)
    requires n < |lists|
    ensures BuiltAfter(lists[..n + 1]) == BuiltFromNext(BuiltAfter(lists[..n]), lists[n])
  {
    assert lists[..n + 1][..n] == lists[..n];
  }

  /** Call j rebuilt the ring, and every later non-empty list had the same length. */
  ghost predicate StartsTheStretch(lists: seq<seq<ServiceInstance>>, j: nat) {
    && j < |lists|
    && lists[j] != []
    && |BuiltAfter(lists[..j])| != |lists[j]|
    && forall k | j <= k < |lists| && lists[k] != [] :: |lists[k]| == |lists[j]|
  }

  /**
   * Over any run, the ring is built from the first list of the current stretch of equally long
   * lists: the lists since then were answered from it without being looked at.
   */
  lemma {:induction false} RingComesFromTheStartOfTheStretch(lists: seq<seq<ServiceInstance>>, n: nat) returns (j: nat)
    requires n <= |lists| && exists i :: 0 <= i < n && lists[i] != []
    ensures StartsTheStretch(lists[..n], j) && BuiltAfter(lists[..n]) == lists[j]
  {
    var last := n - 1;
    BuiltAfterOneMore(lists, last);
    if lists[last] != [] && |BuiltAfter(lists[..last])| != |lists[last]| {
      j := last;
      assert lists[..n][..j] == lists[..j];
    } else {
      if forall i | 0 <= i < last :: lists[i] == [] {
        NothingBuiltFromEmptyLists(lists[..last]);
      }
      j := RingComesFromTheStartOfTheStretch(lists, last);
      assert lists[..n][..j] == lists[..last][..j];
      assert forall k | 0 <= k < last :: lists[..n][k] == lists[..last][k];
    }
  }

  lemma {:induction false} NothingBuiltFromEmptyLists(lists: seq<seq<ServiceInstance>>)
    requires forall i | 0 <= i < |lists| :: lists[i] == []
    ensures BuiltAfter(lists) == []
  {
    if lists != [] {
      NothingBuiltFromEmptyLists(lists[..|lists| - 1]);
    }
  }

  /** What call i answers: the stateless owner under the list the ring is built from by then. */
  function Answered(h: HashFunction, lists: seq<seq<ServiceInstance>>, key: string, i: nat): Result<ServiceInstance>
    requires i < |lists|
  {
    var built := BuiltAfter(lists[..i + 1]);
    if lists[i] == [] || built == [] then Err else Ok(Owner(h, built, key))
  }

  /** The balancer has served the first i lists of the run. */
  ghost predicate Served(balancer: ConsistentHashBalancer, lists: seq<seq<ServiceInstance>>, i: nat)
    requires i <= |lists|
    reads balancer, balancer.hashRing
  {
    balancer.Valid() && balancer.builtFrom == BuiltAfter(lists[..i])
  }

  method SelectNext(balancer: ConsistentHashBalancer, lists: seq<seq<ServiceInstance>>, key: string, i: nat)
    returns (r: Result<ServiceInstance>)
    requires i < |lists| && Served(balancer, lists, i)
    modifies balancer
    ensures Served(balancer, lists, i + 1) && r == Answered(balancer.hash, lists, key, i)
  {
    BuiltAfterOneMore(lists, i);
    r := balancer.Select(lists[i], key);
  }

  method SelectRun(h: HashFunction, lists: seq<seq<ServiceInstance>>, keys: seq<string>) returns (answers: seq<Result<ServiceInstance>>)
    requires |keys| == |lists|
    ensures |answers| == |lists|
    ensures forall i | 0 <= i < |lists| :: answers[i] == Answered(h, lists, keys[i], i)
  {
    var balancer := new ConsistentHashBalancer(h);
    answers := [];
    for i := 0 to |lists|
      invariant |answers| == i && balancer.hash == h && Served(balancer, lists, i)
      invariant forall j | 0 <= j < i :: answers[j] == Answered(h, lists, keys[j], j)
    {
      var r := SelectNext(balancer, lists, keys[i], i);
      answers := answers + [r];
    }
  }

  /**
   * One balancer serves every service: a service with one instance is answered with the
   * instance of whichever one-instance service was asked for first.
   */
  method SecondServiceGetsTheFirstOnesInstance(h: HashFunction, x: ServiceInstance, y: ServiceInstance, key: string)
    returns (r: Result<ServiceInstance>)
    ensures r == Ok(x)
    ensures x != y ==> r.value !in [y]
  {
    var balancer := new ConsistentHashBalancer(h);
    var first := balancer.Select([x], key);
    r := balancer.Select([y], key);
    OwnerIsListed(h, [x], key);
  }
}
