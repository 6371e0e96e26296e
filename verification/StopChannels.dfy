/**
 * The stop channels of the health checkers: a map from checker key to channel, changed under
 * one mutex by any number of goroutines. Closing a closed channel would panic.
 */
module StopChannels {
  /** A started health-check goroutine, with the address it dials. */
  datatype Checker = Checker(service: string, instanceID: string, host: string, port: string)

  /** The key has no port, and nothing marks where the service name ends. */
  function Key(service: string, instanceID: string): string {
    service + "-" + instanceID
  }

  function KeyOf(c: Checker): string {
    Key(c.service, c.instanceID)
  }

  /**
   * `checkers` records every checker ever started, by the channel that stops it; `ended` are those
   * whose context is done: they have returned, but their entries stay.
   */
  datatype Stops = Stops(
    stop: map<string, nat>,
    closed: set<nat>,
    next: nat,
    checkers: map<nat, Checker>,
    ended: set<nat>,
    panicked: bool)

  const EMPTY := Stops(map[], {}, 0, map[], {}, false)

  /** A channel is made before the map is looked at; a known key keeps its checker. */
  function Start(s: Stops, service: string, instanceID: string, host: string, port: string): Stops {
    var key := Key(service, instanceID);
    if key in s.stop then s.(next := s.next + 1)
    else s.(stop := s.stop[key := s.next],
            next := s.next + 1,
            checkers := s.checkers[s.next := Checker(service, instanceID, host, port)])
  }

  function End(s: Stops, c: nat): Stops {
    if c in s.checkers then s.(ended := s.ended + {c}) else s
  }

  /** Closes and forgets whatever channel the map holds for the key. */
  function CloseKey(s: Stops, key: string): Stops {
    if key in s.stop
    then s.(stop := s.stop - {key}, closed := s.closed + {s.stop[key]}, panicked := s.panicked || s.stop[key] in s.closed)
    else s
  }

  function Under(keys: set<string>, service: string): set<string> {
    set k | k in keys && service + "-" <= k
  }

  ghost predicate SharedChannel(s: Stops, keys: set<string>) {
    exists k, l :: k in keys && l in keys && k in s.stop && l in s.stop && k != l && s.stop[k] == s.stop[l]
  }

  /** Closes and forgets the channels of a set of keys. */
  ghost function CloseThese(s: Stops, keys: set<string>): Stops
    requires keys <= s.stop.Keys
  {
    var channels := set k | k in keys :: s.stop[k];
    s.(stop := s.stop - keys,
       closed := s.closed + channels,
       panicked := s.panicked || channels * s.closed != {} || SharedChannel(s, keys))
  }

  ghost function CloseAll(s: Stops, service: string): Stops {
    CloseThese(s, Under(s.stop.Keys, service))
  }

  datatype Op =
    | StartCheck(service: string, instanceID: string, host: string, port: string)
    | StopCheck(service: string, instanceID: string)
    | StopAllChecks(service: string)
    | Reap(checker: nat)
    | EndContext(checker: nat)

  ghost function ApplyOp(s: Stops, op: Op): Stops {
    match op
    case StartCheck(service, id, host, port) => Start(s, service, id, host, port)
    case StopCheck(service, id) => CloseKey(s, Key(service, id))
    case StopAllChecks(service) => CloseAll(s, service)
    case Reap(c) => if c in s.checkers then CloseKey(s, KeyOf(s.checkers[c])) else s
    case EndContext(c) => End(s, c)
  }

  ghost function RunOps(s: Stops, ops: seq<Op>): Stops
    decreases |ops|
  {
    if ops == [] then s else RunOps(ApplyOp(s, ops[0]), ops[1..])
  }

  // ---------------------------------------------------------------- the invariant

  /** The checker on channel c has not been told to stop. */
  predicate Open(s: Stops, c: nat) {
    c !in s.closed
  }

  ghost predicate OwnsEntry(s: Stops, c: nat)
    requires c in s.checkers
  {
    KeyOf(s.checkers[c]) in s.stop && s.stop[KeyOf(s.checkers[c])] == c
  }

  ghost predicate Valid(s: Stops) {
    && !s.panicked
    && (forall c | c in s.checkers :: c < s.next && (Open(s, c) <==> OwnsEntry(s, c)))
    && (forall k | k in s.stop :: s.stop[k] in s.checkers && KeyOf(s.checkers[s.stop[k]]) == k)
    && (forall c | c in s.closed :: c < s.next)
    && s.ended <= s.checkers.Keys
  }

  lemma EntriesAreOpenAndDistinct(s: Stops)
    requires Valid(s)
    ensures forall k | k in s.stop :: s.stop[k] !in s.closed && s.stop[k] < s.next
    ensures forall k, l | k in s.stop && l in s.stop && k != l :: s.stop[k] != s.stop[l]
  {
  }

  lemma StartKeepsValid(s: Stops, service: string, instanceID: string, host: string, port: string)
    requires Valid(s)
    ensures Valid(Start(s, service, instanceID, host, port))
    ensures Key(service, instanceID) in Start(s, service, instanceID, host, port).stop
  {
  }

  /** Removing entries together with closing their channels keeps the invariant. */
  lemma RemovalKeepsValid(s: Stops, t: Stops, keys: set<string>)
    requires Valid(s) && keys <= s.stop.Keys
    requires t == s.(stop := s.stop - keys, closed := s.closed + (set k | k in keys :: s.stop[k]))
    ensures Valid(t)
  {
  }

  lemma CloseKeyKeepsValid(s: Stops, key: string)
    requires Valid(s)
    ensures Valid(CloseKey(s, key)) && key !in CloseKey(s, key).stop
  {
  }

  lemma CloseTheseKeepsValid(s: Stops, keys: set<string>)
    requires Valid(s) && keys <= s.stop.Keys
    ensures Valid(CloseThese(s, keys))
  {
  }

  lemma EndKeepsValid(s: Stops, c: nat)
    requires Valid(s)
    ensures Valid(End(s, c))
  {
    forall i | i in s.checkers
      ensures Open(End(s, c), i) <==> OwnsEntry(End(s, c), i)
    {
      assert Open(s, i) <==> OwnsEntry(s, i);
    }
  }

  /** Closing keys one after the other comes to the same as closing them together. */
  lemma CloseOneMore(s: Stops, keys: set<string>, key: string)
    requires Valid(s) && keys <= s.stop.Keys && key in s.stop && key !in keys
    ensures CloseKey(CloseThese(s, keys), key) == CloseThese(s, keys + {key})
  {
  }

  ghost predicate NoneOpen(s: Stops, key: string) {
    forall c | c in s.checkers && Open(s, c) :: s.checkers[c].service + "-" + s.checkers[c].instanceID != key
  }

  /** After a start the key has an open checker: the one it had, or a new one with the address given. */
  lemma StartOpensOne(s: Stops, service: string, id: string, host: string, port: string, c: nat)
    requires Valid(s)
    ensures
      var t, lone := Start(s, service, id, host, port), NoneOpen(s, service + "-" + id);
      && (c in t.checkers && Open(t, c) <==> (c in s.checkers && Open(s, c)) || (lone && c == s.next))
      && t.next == s.next + 1 && t.closed == s.closed
      && t.checkers == if lone then s.checkers[s.next := Checker(service, id, host, port)] else s.checkers
  {
    if Key(service, id) in s.stop {
      assert Open(s, s.stop[Key(service, id)]) by {
        EntriesAreOpenAndDistinct(s);
      }
    }
    if d :| d in s.checkers && Open(s, d) && KeyOf(s.checkers[d]) == Key(service, id) {
      assert OwnsEntry(s, d);
    }
  }

  /** A stop closes the channel of the open checker with the key, and no other. */
  lemma StopClosesIt(s: Stops, key: string, c: nat)
    requires Valid(s) && c in s.checkers
    ensures Open(CloseKey(s, key), c) <==> Open(s, c) && s.checkers[c].service + "-" + s.checkers[c].instanceID != key
  {
    assert Open(s, c) <==> OwnsEntry(s, c);
    EntriesAreOpenAndDistinct(s);
  }

  /** Stopping a service stops all its checkers, and those of other services whose keys begin as its own do. */
  lemma StopAllStopsTheService(s: Stops, service: string, c: nat)
    requires Valid(s) && c in s.checkers
    ensures
      var key := s.checkers[c].service + "-" + s.checkers[c].instanceID;
      && (Open(CloseAll(s, service), c) <==> Open(s, c) && !(service + "-" <= key))
      && (s.checkers[c].service == service ==> !Open(CloseAll(s, service), c))
  {
    assert Open(s, c) <==> OwnsEntry(s, c);
    EntriesAreOpenAndDistinct(s);
    var keys := Under(s.stop.Keys, service);
    assert CloseAll(s, service).closed == s.closed + (set k | k in keys :: s.stop[k]);
    assert s.checkers[c].service + "-" <= KeyOf(s.checkers[c]);
  }

  /**
   * Under every interleaving of starts, stops, stop-alls and ticks that find their instance gone:
   * no channel is closed twice, and a checker's channel is open exactly while it is the map entry
   * for its key.
   */
  lemma {:induction false} ChannelsStayConsistent(s: Stops, ops: seq<Op>)
    requires Valid(s)
    ensures Valid(RunOps(s, ops))
    decreases |ops|
  {
    if ops != [] {
      match ops[0] {
        case StartCheck(service, id, host, port) => StartKeepsValid(s, service, id, host, port);
        case StopCheck(service, id) => CloseKeyKeepsValid(s, Key(service, id));
        case StopAllChecks(service) => CloseTheseKeepsValid(s, Under(s.stop.Keys, service));
        case Reap(c) =>
          if c in s.checkers {
            CloseKeyKeepsValid(s, KeyOf(s.checkers[c]));
          }
        case EndContext(c) => EndKeepsValid(s, c);
      }
      ChannelsStayConsistent(ApplyOp(s, ops[0]), ops[1..]);
    }
  }

  /** Hence a key never has two checkers that are still open. */
  lemma OneOpenCheckerPerKey(ops: seq<Op>, c: nat, d: nat)
    requires c in RunOps(EMPTY, ops).checkers && d in RunOps(EMPTY, ops).checkers
    requires KeyOf(RunOps(EMPTY, ops).checkers[c]) == KeyOf(RunOps(EMPTY, ops).checkers[d])
    requires Open(RunOps(EMPTY, ops), c) && Open(RunOps(EMPTY, ops), d)
    ensures c == d
  {
    ChannelsStayConsistent(EMPTY, ops);
    var s := RunOps(EMPTY, ops);
    assert OwnsEntry(s, c) && OwnsEntry(s, d);
  }

  // ---------------------------------------------------------------- closing everything

  /** The keys no other key is a service name of. */
  function Survivors(keys: set<string>): set<string> {
    set k | k in keys && forall l | l in keys :: !(l + "-" <= k)
  }

  lemma PrefixChain(a: string, b: string, c: string)
    requires a + "-" <= b && b + "-" <= c
    ensures a + "-" <= c
  {
  }

  /** A shortest key survives, so stopping everything never empties a map that was not empty. */
  lemma SomeKeySurvives(keys: set<string>)
    requires keys != {}
    ensures Survivors(keys) != {}
  {
    var k := ShortestKey(keys);
    forall l | l in keys
      ensures !(l + "-" <= k)
    {
      assert |l + "-"| > |k|;
    }
    assert k in Survivors(keys);
  }

  lemma ShortestKey(keys: set<string>) returns (k: string)
    requires keys != {}
    ensures k in keys && forall l | l in keys :: |k| <= |l|
    decreases |keys|
  {
    k :| k in keys;
    var rest := keys - {k};
    if rest != {} {
      assert |rest| < |keys|;
      var m := ShortestKey(rest);
      if |m| < |k| {
        k := m;
      }
      assert forall l | l in keys :: l in rest || l == k || |k| <= |l|;
    }
  }
}
