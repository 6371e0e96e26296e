/** When every cached instance is being checked at the address it has. */
module LiveCheckers {
  import opened Common
  import opened StopChannels
  import opened HealthCache
  import opened Discovery

  /** The port a checker dials: the second start for an instance finds the key already there. */
  function FirstPort(inst: ServiceInstance): string {
    if inst.httpPort != "" then inst.httpPort else inst.grpcPort
  }

  /** The checker an instance needs: its service, its ID, and the address it has now. */
  function CheckerOf(service: string, inst: ServiceInstance): Checker {
    Checker(service, inst.instanceID, inst.host, FirstPort(inst))
  }

  /** Such a checker is running: it was not told to stop, and its context is not done. */
  ghost predicate Checked(s: Stops, who: Checker) {
    exists c :: c in s.checkers && s.checkers[c] == who && Open(s, c) && c !in s.ended
  }

  ghost predicate AllChecked(s: State) {
    forall service, i | service in s.cache && 0 <= i < |s.cache[service]| ::
      Checked(s.stops, CheckerOf(service, s.cache[service][i]))
  }

  // ---------------------------------------------------------------- what may be delivered

  /** No two of the addresses have the same checker key. */
  ghost predicate Unambiguous(known: set<Checker>) {
    forall p, q | p in known && q in known && KeyOf(p) == KeyOf(q) :: p == q
  }

  predicate HavePorts(known: set<Checker>) {
    forall p | p in known :: p.port != ""
  }

  ghost predicate OneAddressEach(known: set<Checker>) {
    forall p, q | p in known && q in known && p.service == q.service && p.instanceID == q.instanceID :: p == q
  }

  /** With IDs of one length, keys are ambiguous only where an instance has two addresses. */
  lemma SameLengthIDsAreUnambiguousIff(known: set<Checker>, n: nat)
    requires forall p | p in known :: |p.instanceID| == n
    ensures Unambiguous(known) <==> OneAddressEach(known)
  {
    forall p, q | p in known && q in known
      ensures KeyOf(p) == KeyOf(q) <==> p.service == q.service && p.instanceID == q.instanceID
    {
      SameLengthKeys(p, q);
    }
  }

  lemma SameLengthKeys(p: Checker, q: Checker)
    requires |p.instanceID| == |q.instanceID|
    ensures KeyOf(p) == KeyOf(q) <==> p.service == q.service && p.instanceID == q.instanceID
  {
    assert p.service == KeyOf(p)[..|KeyOf(p)| - |p.instanceID| - 1];
    assert q.service == KeyOf(q)[..|KeyOf(q)| - |q.instanceID| - 1];
    assert p.instanceID == KeyOf(p)[|KeyOf(p)| - |p.instanceID|..];
    assert q.instanceID == KeyOf(q)[|KeyOf(q)| - |q.instanceID|..];
  }

  ghost predicate Known(known: set<Checker>, service: string, list: seq<ServiceInstance>) {
    forall i | 0 <= i < |list| :: CheckerOf(service, list[i]) in known
  }

  ghost predicate Names(known: set<Checker>, service: string, id: string) {
    exists p :: p in known && p.service == service && p.instanceID == id
  }

  /** Whatever is delivered, loaded, registered or deregistered is known, with its address. */
  ghost predicate Allowed(a: Action, known: set<Checker>) {
    match a
    case Watched(service, list, _) => Known(known, service, list)
    case Got(service, list, _) => Known(known, service, list)
    case Registered(service, id, host, port) => Checker(service, id, host, port) in known
    case Deregistered(service, id) => Names(known, service, id)
    case _ => true
  }

  ghost predicate AllAllowed(actions: seq<Action>, known: set<Checker>) {
    forall a | a in actions :: Allowed(a, known)
  }

  // ---------------------------------------------------------------- what does no harm

  /** No entry that the list would find belongs to a checker that has ended. */
  predicate NoneDead(s: Stops, service: string, list: seq<ServiceInstance>) {
    forall i | 0 <= i < |list| && Key(service, list[i].instanceID) in s.stop :: s.stop[Key(service, list[i].instanceID)] !in s.ended
  }

  /**
   * The action closes no channel and ends no checker of an instance that is cached, and delivers
   * no instance whose entry belongs to a checker that has ended.
   */
  predicate Harmless(s: State, a: Action) {
    match a
    case Watched(service, list, _) => NoneDead(s.stops, service, list)
    case Got(service, list, _) => NoneDead(s.stops, service, list)
    case CloseSection(i) => i in s.stops.checkers && i in s.pending ==> Gone(s, s.stops.checkers[i])
    case Deregistered(service, id) => Find(Cached(s.cache, service), id).None?
    case Ended(i) => i in s.stops.checkers && i !in s.pending && Open(s.stops, i) ==> Gone(s, s.stops.checkers[i])
    case _ => true
  }

  // ---------------------------------------------------------------- the invariant

  ghost predicate CheckersKnown(s: Stops, known: set<Checker>) {
    forall c | c in s.checkers :: s.checkers[c] in known
  }

  ghost predicate HasEntries(s: Stops, service: string, list: seq<ServiceInstance>) {
    forall i | 0 <= i < |list| :: Key(service, list[i].instanceID) in s.stop
  }

  ghost predicate Inv(s: State, known: set<Checker>) {
    && Valid(s.stops) && CheckersKnown(s.stops, known)
    && forall service | service in s.cache ::
         && Known(known, service, s.cache[service])
         && HasEntries(s.stops, service, s.cache[service])
         && NoneDead(s.stops, service, s.cache[service])
  }

  /** The entry of a key is an open checker with that key. */
  lemma EntryIsOpen(s: Stops, key: string)
    requires Valid(s) && key in s.stop
    ensures s.stop[key] in s.checkers && Open(s, s.stop[key]) && KeyOf(s.checkers[s.stop[key]]) == key
  {
    EntriesAreOpenAndDistinct(s);
  }

  lemma CachedIsChecked(s: State, known: set<Checker>, service: string, i: nat)
    requires Inv(s, known) && Unambiguous(known) && service in s.cache && i < |s.cache[service]|
    ensures Checked(s.stops, CheckerOf(service, s.cache[service][i]))
  {
    var key := Key(service, s.cache[service][i].instanceID);
    assert HasEntries(s.stops, service, s.cache[service]) && Known(known, service, s.cache[service]);
    assert NoneDead(s.stops, service, s.cache[service]);
    EntryIsOpen(s.stops, key);
    assert s.stops.checkers[s.stops.stop[key]] == CheckerOf(service, s.cache[service][i]);
  }

  lemma InvChecks(s: State, known: set<Checker>)
    requires Inv(s, known) && Unambiguous(known)
    ensures AllChecked(s)
  {
    forall service, i | service in s.cache && 0 <= i < |s.cache[service]|
      ensures Checked(s.stops, CheckerOf(service, s.cache[service][i]))
    {
      CachedIsChecked(s, known, service, i);
    }
  }

  /** Where the entry of its key has ended, or is missing, an instance is not checked. */
  lemma DeadEntryUnchecks(s: Stops, who: Checker)
    requires Valid(s) && (KeyOf(who) in s.stop ==> s.stop[KeyOf(who)] in s.ended)
    ensures !Checked(s, who)
  {
    forall c | c in s.checkers && s.checkers[c] == who && Open(s, c)
      ensures c in s.ended
    {
      assert OwnsEntry(s, c);
    }
  }

  // ---------------------------------------------------------------- starting checkers

  /** Checkers were only added: entries stay, new ones are running, and nothing is closed or ended. */
  ghost predicate Adds(s: Stops, t: Stops) {
    && t.closed == s.closed && t.ended == s.ended && s.next <= t.next
    && (forall k | k in s.stop :: k in t.stop && t.stop[k] == s.stop[k])
    && (forall k | k in t.stop && k !in s.stop :: t.stop[k] >= s.next)
    && (forall i | i in s.checkers :: i in t.checkers && t.checkers[i] == s.checkers[i])
  }

  lemma AddsOn(a: Stops, b: Stops, c: Stops)
    requires Adds(a, b) && Adds(b, c)
    ensures Adds(a, c)
  {
    forall k | k in c.stop && k !in a.stop
      ensures c.stop[k] >= a.next
    {
      if k in b.stop {
        assert c.stop[k] == b.stop[k];
      }
    }
  }

  ghost predicate Extends(s: Stops, t: Stops, known: set<Checker>) {
    Valid(t) && CheckersKnown(t, known) && Adds(s, t)
  }

  lemma StartExtends(s: Stops, service: string, id: string, host: string, port: string, known: set<Checker>)
    requires Valid(s) && CheckersKnown(s, known)
    requires Key(service, id) in s.stop || Checker(service, id, host, port) in known
    ensures Extends(s, Start(s, service, id, host, port), known) && Key(service, id) in Start(s, service, id, host, port).stop
  {
    StartKeepsValid(s, service, id, host, port);
  }

  lemma StartPortsExtends(s: Stops, service: string, inst: ServiceInstance, known: set<Checker>)
    requires Valid(s) && CheckersKnown(s, known) && CheckerOf(service, inst) in known
    ensures
      var t := StartPorts(s, service, inst);
      Extends(s, t, known) && (FirstPort(inst) != "" ==> Key(service, inst.instanceID) in t.stop)
  {
    if inst.httpPort != "" {
      var http := Start(s, service, inst.instanceID, inst.host, inst.httpPort);
      StartExtends(s, service, inst.instanceID, inst.host, inst.httpPort, known);
      if inst.grpcPort != "" {
        StartExtends(http, service, inst.instanceID, inst.host, inst.grpcPort, known);
        AddsOn(s, http, StartPorts(s, service, inst));
      }
    } else if inst.grpcPort != "" {
      StartExtends(s, service, inst.instanceID, inst.host, inst.grpcPort, known);
    }
  }

  lemma CachedHasEntry(s: Stops, cached: seq<ServiceInstance>, service: string, id: string)
    requires HasEntries(s, service, cached)
    ensures Find(cached, id).Some? ==> Key(service, id) in s.stop
  {
  }

  lemma OneMoreEntry(before: Stops, t: Stops, service: string, incoming: seq<ServiceInstance>)
    requires incoming != [] && before.stop.Keys <= t.stop.Keys
    requires HasEntries(before, service, incoming[..|incoming| - 1])
    requires Key(service, incoming[|incoming| - 1].instanceID) in t.stop
    ensures HasEntries(t, service, incoming)
  {
    forall i | 0 <= i < |incoming| - 1
      ensures Key(service, incoming[i].instanceID) in t.stop
    {
      assert incoming[..|incoming| - 1][i] == incoming[i];
    }
  }

  lemma {:induction false} StartMissingAddsEntries(s: Stops, cached: seq<ServiceInstance>, service: string,
                                                   incoming: seq<ServiceInstance>, known: set<Checker>)
    requires Valid(s) && CheckersKnown(s, known) && Known(known, service, incoming) && HavePorts(known)
    requires HasEntries(s, service, cached)
    ensures
      var t := StartMissing(s, cached, service, incoming);
      Extends(s, t, known) && HasEntries(t, service, incoming)
  {
    if incoming != [] {
      var n := |incoming| - 1;
      var before, t := StartMissing(s, cached, service, incoming[..n]), StartMissing(s, cached, service, incoming);
      StartMissingAddsEntries(s, cached, service, incoming[..n], known);
      CachedHasEntry(s, cached, service, incoming[n].instanceID);
      assert CheckerOf(service, incoming[n]) in known;
      if Find(cached, incoming[n].instanceID).None? {
        StartPortsExtends(before, service, incoming[n], known);
        AddsOn(s, before, t);
      }
      OneMoreEntry(before, t, service, incoming);
    }
  }

  /** What was not dead is not dead after starting checkers. */
  lemma NoneDeadAfter(s: Stops, t: Stops, service: string, list: seq<ServiceInstance>)
    requires Valid(s) && Adds(s, t) && NoneDead(s, service, list)
    ensures NoneDead(t, service, list)
  {
    forall i | 0 <= i < |list| && Key(service, list[i].instanceID) in t.stop
      ensures t.stop[Key(service, list[i].instanceID)] !in t.ended
    {
      var k := Key(service, list[i].instanceID);
      if k in s.stop {
        assert t.stop[k] == s.stop[k];
      }
    }
  }

  // ---------------------------------------------------------------- actions keep it

  ghost predicate SameCheckers(service: string, a: seq<ServiceInstance>, b: seq<ServiceInstance>) {
    |a| == |b| && forall i | 0 <= i < |a| :: CheckerOf(service, a[i]) == CheckerOf(service, b[i])
  }

  lemma ListKeepsInv(s: State, t: State, service: string, list: seq<ServiceInstance>, known: set<Checker>)
    requires Inv(s, known) && Known(known, service, list) && NoneDead(s.stops, service, list)
    requires service in t.cache && t.cache.Keys == s.cache.Keys + {service} && SameCheckers(service, t.cache[service], list)
    requires forall other | other in s.cache && other != service :: t.cache[other] == s.cache[other]
    requires Extends(s.stops, t.stops, known) && HasEntries(t.stops, service, list)
    ensures Inv(t, known)
  {
    forall other | other in t.cache
      ensures Known(known, other, t.cache[other]) && HasEntries(t.stops, other, t.cache[other]) && NoneDead(t.stops, other, t.cache[other])
    {
      if other == service {
        NoneDeadAfter(s.stops, t.stops, service, list);
        SameCheckersSameEntries(t.stops, known, service, list, t.cache[service]);
      } else {
        NoneDeadAfter(s.stops, t.stops, other, s.cache[other]);
      }
    }
  }

  lemma SameCheckersSameEntries(s: Stops, known: set<Checker>, service: string, list: seq<ServiceInstance>, same: seq<ServiceInstance>)
    requires SameCheckers(service, same, list) && Known(known, service, list) && HasEntries(s, service, list) && NoneDead(s, service, list)
    ensures Known(known, service, same) && HasEntries(s, service, same) && NoneDead(s, service, same)
  {
    forall i | 0 <= i < |same|
      ensures same[i].instanceID == list[i].instanceID
    {
      assert CheckerOf(service, same[i]) == CheckerOf(service, list[i]);
    }
  }

  lemma MergedIsWhereListed(service: string, cached: seq<ServiceInstance>, list: seq<ServiceInstance>, now: int)
    ensures SameCheckers(service, Merge(cached, list, now), list) && SameCheckers(service, HealthCache.Load(list, now), list)
  {
  }

  lemma DeliveryKeepsInv(s: State, service: string, list: seq<ServiceInstance>, now: int, max: int, known: set<Checker>)
    requires Inv(s, known) && Known(known, service, list) && HavePorts(known) && NoneDead(s.stops, service, list)
    ensures Inv(Apply(s, Watched(service, list, now), max), known)
  {
    var cached := Cached(s.cache, service);
    StartMissingAddsEntries(s.stops, cached, service, list, known);
    MergedIsWhereListed(service, cached, list, now);
    ListKeepsInv(s, Apply(s, Watched(service, list, now), max), service, list, known);
  }

  lemma LoadKeepsInv(s: State, service: string, list: seq<ServiceInstance>, now: int, max: int, known: set<Checker>)
    requires Inv(s, known) && Known(known, service, list) && HavePorts(known) && NoneDead(s.stops, service, list)
    ensures Inv(Apply(s, Got(service, list, now), max), known)
  {
    StartMissingAddsEntries(s.stops, [], service, list, known);
    MergedIsWhereListed(service, [], list, now);
    ListKeepsInv(s, Apply(s, Got(service, list, now), max), service, list, known);
  }

  lemma RegisterKeepsInv(s: State, service: string, id: string, host: string, port: string, max: int, known: set<Checker>)
    requires Inv(s, known) && Checker(service, id, host, port) in known
    ensures Inv(Apply(s, Registered(service, id, host, port), max), known)
  {
    StartExtends(s.stops, service, id, host, port, known);
    var t := Start(s.stops, service, id, host, port);
    forall other | other in s.cache
      ensures HasEntries(t, other, s.cache[other]) && NoneDead(t, other, s.cache[other])
    {
      assert HasEntries(s.stops, other, s.cache[other]);
      NoneDeadAfter(s.stops, t, other, s.cache[other]);
    }
  }

  /** No cached instance has the key of one that is not cached. */
  lemma OthersKeepTheirEntries(s: State, service: string, id: string, known: set<Checker>)
    requires Inv(s, known) && Unambiguous(known) && Names(known, service, id) && Find(Cached(s.cache, service), id).None?
    ensures
      forall other, i | other in s.cache && 0 <= i < |s.cache[other]| ::
        Key(other, s.cache[other][i].instanceID) != Key(service, id)
  {
    var p :| p in known && p.service == service && p.instanceID == id;
    forall other, i | other in s.cache && 0 <= i < |s.cache[other]|
      ensures Key(other, s.cache[other][i].instanceID) != Key(service, id)
    {
      assert Known(known, other, s.cache[other]);
      var q := CheckerOf(other, s.cache[other][i]);
      assert KeyOf(q) == KeyOf(p) ==> q == p;
    }
  }

  lemma ClosingKeepsInv(s: State, service: string, id: string, known: set<Checker>)
    requires Inv(s, known) && Unambiguous(known) && Names(known, service, id) && Find(Cached(s.cache, service), id).None?
    ensures Inv(s.(stops := CloseKey(s.stops, Key(service, id))), known)
  {
    var t := CloseKey(s.stops, Key(service, id));
    CloseKeyKeepsValid(s.stops, Key(service, id));
    OthersKeepTheirEntries(s, service, id, known);
    forall other | other in s.cache
      ensures HasEntries(t, other, s.cache[other]) && NoneDead(t, other, s.cache[other])
    {
      assert HasEntries(s.stops, other, s.cache[other]) && NoneDead(s.stops, other, s.cache[other]);
    }
  }

  lemma ProbingKeepsInv(s: State, c: Checker, ok: bool, now: int, max: int, known: set<Checker>)
    requires Inv(s, known)
    ensures Inv(Probing(s, c, ok, max, now), known)
  {
    var list := Cached(s.cache, c.service);
    var after := Probe(list, c.instanceID, ok, max, now);
    assert SameCheckers(c.service, after, list);
    if c.service in s.cache {
      SameCheckersSameEntries(s.stops, known, c.service, list, after);
    }
  }

  lemma TickKeepsInv(s: State, channel: nat, ok: bool, now: int, max: int, known: set<Checker>)
    requires Inv(s, known) && Unambiguous(known)
    ensures Inv(Apply(s, Tick(channel, ok, now), max), known)
    ensures Inv(Apply(s, ProbeSection(channel, ok, now), max), known)
  {
    if channel in s.stops.checkers {
      var c := s.stops.checkers[channel];
      assert Names(known, c.service, c.instanceID);
      if Gone(s, c) {
        ClosingKeepsInv(s, c.service, c.instanceID, known);
      } else {
        ProbingKeepsInv(s, c, ok, now, max, known);
      }
    }
  }

  /** The entry of a cached instance is not a checker whose instance is gone, nor a closed one. */
  lemma EndingKeepsInv(s: State, i: nat, known: set<Checker>)
    requires Inv(s, known) && Unambiguous(known)
    requires i in s.stops.checkers && Open(s.stops, i) ==> Gone(s, s.stops.checkers[i])
    ensures Inv(s.(stops := End(s.stops, i)), known)
  {
    EndKeepsValid(s.stops, i);
    var t := End(s.stops, i);
    forall other | other in s.cache
      ensures NoneDead(t, other, s.cache[other])
    {
      forall k | 0 <= k < |s.cache[other]| && Key(other, s.cache[other][k].instanceID) in t.stop
        ensures t.stop[Key(other, s.cache[other][k].instanceID)] !in t.ended
      {
        EntryIsAnother(s, i, known, other, k);
      }
    }
  }

  lemma EntryIsAnother(s: State, i: nat, known: set<Checker>, service: string, k: nat)
    requires Inv(s, known) && Unambiguous(known) && service in s.cache && k < |s.cache[service]|
    requires i in s.stops.checkers && Open(s.stops, i) ==> Gone(s, s.stops.checkers[i])
    ensures
      var key := Key(service, s.cache[service][k].instanceID);
      key in s.stops.stop && s.stops.stop[key] !in s.stops.ended && s.stops.stop[key] != i
  {
    var key := Key(service, s.cache[service][k].instanceID);
    assert HasEntries(s.stops, service, s.cache[service]) && NoneDead(s.stops, service, s.cache[service]);
    assert Known(known, service, s.cache[service]);
    EntryIsOpen(s.stops, key);
    assert s.stops.checkers[s.stops.stop[key]] == CheckerOf(service, s.cache[service][k]);
  }

  lemma ActionKeepsInv(s: State, a: Action, max: int, known: set<Checker>)
    requires Inv(s, known) && Unambiguous(known) && HavePorts(known) && Allowed(a, known) && Harmless(s, a)
    ensures Inv(Apply(s, a, max), known)
  {
    match a
    case Watched(service, list, now) => DeliveryKeepsInv(s, service, list, now, max, known);
    case Got(service, list, now) => LoadKeepsInv(s, service, list, now, max, known);
    case Tick(channel, ok, now) => TickKeepsInv(s, channel, ok, now, max, known);
    case ProbeSection(channel, ok, now) => TickKeepsInv(s, channel, ok, now, max, known);
    case CloseSection(channel) =>
      if channel in s.stops.checkers && channel in s.pending {
        var c := s.stops.checkers[channel];
        assert Names(known, c.service, c.instanceID);
        ClosingKeepsInv(s, c.service, c.instanceID, known);
      }
    case Registered(service, id, host, port) => RegisterKeepsInv(s, service, id, host, port, max, known);
    case Deregistered(service, id) => ClosingKeepsInv(s, service, id, known);
    case Ended(i) =>
      if i in s.stops.checkers && i !in s.pending {
        EndingKeepsInv(s, i, known);
      }
  }

  const NOTHING := State(map[], EMPTY, {})

  // ---------------------------------------------------------------- exactly when all are checked

  /** Closing the channel of a cached instance leaves it without a checker. */
  lemma ClosingUnchecks(s: State, t: State, service: string, id: string, known: set<Checker>)
    requires Inv(s, known) && Find(Cached(s.cache, service), id).Some?
    requires t.cache == s.cache && t.stops == CloseKey(s.stops, Key(service, id))
    ensures !AllChecked(t)
  {
    var i := Find(Cached(s.cache, service), id).value;
    CloseKeyKeepsValid(s.stops, Key(service, id));
    DeadEntryUnchecks(t.stops, CheckerOf(service, t.cache[service][i]));
    assert service in t.cache && !Checked(t.stops, CheckerOf(service, t.cache[service][i]));
  }

  /** Delivering an instance whose entry belongs to an ended checker leaves it unchecked. */
  lemma DeadDeliveryUnchecks(s: Stops, t: State, service: string, list: seq<ServiceInstance>)
    requires Valid(s) && Valid(t.stops) && Adds(s, t.stops) && !NoneDead(s, service, list)
    requires service in t.cache && SameCheckers(service, t.cache[service], list)
    ensures !AllChecked(t)
  {
    var i :| 0 <= i < |list| && Key(service, list[i].instanceID) in s.stop && s.stop[Key(service, list[i].instanceID)] in s.ended;
    var who := CheckerOf(service, t.cache[service][i]);
    assert who == CheckerOf(service, list[i]);
    DeadEntryUnchecks(t.stops, who);
    assert !Checked(t.stops, CheckerOf(service, t.cache[service][i]));
  }

  lemma EndingUnchecks(s: State, i: nat, known: set<Checker>)
    requires Inv(s, known) && i in s.stops.checkers && Open(s.stops, i) && !Gone(s, s.stops.checkers[i])
    ensures !AllChecked(s.(stops := End(s.stops, i)))
  {
    var c, t := s.stops.checkers[i], End(s.stops, i);
    var k := Find(Cached(s.cache, c.service), c.instanceID).value;
    EndKeepsValid(s.stops, i);
    assert OwnsEntry(s.stops, i);
    DeadEntryUnchecks(t, CheckerOf(c.service, s.cache[c.service][k]));
    assert !Checked(t, CheckerOf(c.service, s.cache[c.service][k]));
  }

  lemma HarmUnchecks(s: State, a: Action, max: int, known: set<Checker>)
    requires Inv(s, known) && HavePorts(known) && Allowed(a, known) && !Harmless(s, a)
    ensures !AllChecked(Apply(s, a, max))
  {
    var t := Apply(s, a, max);
    match a
    case Watched(service, list, now) =>
      var cached := Cached(s.cache, service);
      StartMissingAddsEntries(s.stops, cached, service, list, known);
      MergedIsWhereListed(service, cached, list, now);
      DeadDeliveryUnchecks(s.stops, t, service, list);
    case Got(service, list, now) =>
      StartMissingAddsEntries(s.stops, [], service, list, known);
      MergedIsWhereListed(service, [], list, now);
      DeadDeliveryUnchecks(s.stops, t, service, list);
    case CloseSection(i) =>
      ClosingUnchecks(s, t, s.stops.checkers[i].service, s.stops.checkers[i].instanceID, known);
    case Deregistered(service, id) => ClosingUnchecks(s, t, service, id, known);
    case Ended(i) => EndingUnchecks(s, i, known);
  }

  /** One action keeps every cached instance checked exactly when it is harmless. */
  lemma HarmlessIff(s: State, a: Action, max: int, known: set<Checker>)
    requires Inv(s, known) && Unambiguous(known) && HavePorts(known) && Allowed(a, known)
    ensures AllChecked(Apply(s, a, max)) <==> Harmless(s, a)
  {
    if Harmless(s, a) {
      ActionKeepsInv(s, a, max, known);
      InvChecks(Apply(s, a, max), known);
    } else {
      HarmUnchecks(s, a, max, known);
    }
  }

  /** Every cached instance is checked in every state of the run. */
  ghost predicate AlwaysChecked(s: State, actions: seq<Action>, max: int)
    decreases |actions|
  {
    AllChecked(s) && (actions == [] || AlwaysChecked(Apply(s, actions[0], max), actions[1..], max))
  }

  predicate HarmlessRun(s: State, actions: seq<Action>, max: int)
    decreases |actions|
  {
    actions == [] || (Harmless(s, actions[0]) && HarmlessRun(Apply(s, actions[0], max), actions[1..], max))
  }

  lemma {:induction false} AlwaysCheckedFrom(s: State, actions: seq<Action>, max: int, known: set<Checker>)
    requires Inv(s, known) && Unambiguous(known) && HavePorts(known) && AllAllowed(actions, known)
    ensures AlwaysChecked(s, actions, max) <==> HarmlessRun(s, actions, max)
    decreases |actions|
  {
    InvChecks(s, known);
    if actions != [] {
      HarmlessIff(s, actions[0], max, known);
      if Harmless(s, actions[0]) {
        ActionKeepsInv(s, actions[0], max, known);
        AlwaysCheckedFrom(Apply(s, actions[0], max), actions[1..], max, known);
      } else {
        NotFromNext(s, actions, max);
      }
    }
  }

  lemma NotFromNext(s: State, actions: seq<Action>, max: int)
    requires actions != [] && !AllChecked(Apply(s, actions[0], max))
    ensures !AlwaysChecked(s, actions, max)
  {
  }

  /**
   * With unambiguous checker keys, over any run of deliveries, loads, registrations,
   * deregistrations, contexts that end, and ticks, whole or torn: every cached instance is
   * checked at its address in every state exactly when each torn tick closes its channel while the
   * instance is still gone, no checker ends and nothing is deregistered while its instance is
   * cached, and nothing is delivered whose entry an ended checker has left behind.
   */
  lemma AlwaysCheckedIff(actions: seq<Action>, max: int, known: set<Checker>)
    requires Unambiguous(known) && HavePorts(known) && AllAllowed(actions, known)
    ensures AlwaysChecked(NOTHING, actions, max) <==> HarmlessRun(NOTHING, actions, max)
  {
    AlwaysCheckedFrom(NOTHING, actions, max, known);
  }

  // ---------------------------------------------------------------- whole ticks

  predicate ClosesNothing(a: Action) {
    !a.CloseSection? && !a.Deregistered? && !a.Ended?
  }

  ghost predicate Whole(actions: seq<Action>, known: set<Checker>) {
    forall a | a in actions :: Allowed(a, known) && ClosesNothing(a)
  }

  lemma {:induction false} RunKeepsInv(s: State, actions: seq<Action>, max: int, known: set<Checker>)
    requires Inv(s, known) && s.stops.ended == {} && Unambiguous(known) && HavePorts(known) && Whole(actions, known)
    ensures Inv(Run(s, actions, max), known)
    decreases |actions|
  {
    if actions != [] {
      ActionKeepsInv(s, actions[0], max, known);
      NoneEnds(s, actions[0], max);
      RunKeepsInv(Apply(s, actions[0], max), actions[1..], max, known);
    }
  }

  lemma NoneEnds(s: State, a: Action, max: int)
    requires ClosesNothing(a)
    ensures Apply(s, a, max).stops.ended == s.stops.ended
  {
    match a
    case Watched(service, list, _) => StartMissingEndsNone(s.stops, Cached(s.cache, service), service, list);
    case Got(service, list, _) => StartMissingEndsNone(s.stops, [], service, list);
    case _ =>
  }

  lemma {:induction false} StartMissingEndsNone(s: Stops, cached: seq<ServiceInstance>, service: string, incoming: seq<ServiceInstance>)
    ensures StartMissing(s, cached, service, incoming).ended == s.ended
  {
    if incoming != [] {
      StartMissingEndsNone(s, cached, service, incoming[..|incoming| - 1]);
    }
  }

  lemma OneInstanceStarts(s: Stops, cached: seq<ServiceInstance>, service: string, x: ServiceInstance)
    ensures StartMissing(s, cached, service, [x]) ==
            if Find(cached, x.instanceID).None? then StartPorts(s, service, x) else s
  {
  }

  lemma RunTwo(s: State, a: Action, b: Action, max: int)
    ensures Run(s, [a, b], max) == Apply(Apply(s, a, max), b, max)
  {
    assert [a, b][1..] == [b] && [b][1..] == [];
    var s1 := Apply(s, a, max);
    assert Run(s, [a, b], max) == Run(s1, [b], max);
    assert Run(s1, [b], max) == Run(Apply(s1, b, max), [], max);
  }

  /** A start for a key that is there already starts nothing. */
  lemma StartPortsTaken(s: Stops, service: string, inst: ServiceInstance)
    requires Key(service, inst.instanceID) in s.stop
    ensures StartPorts(s, service, inst).checkers == s.checkers
  {
  }

  /** With one checker, nobody is checked whose checker it is not. */
  lemma OnlyOneChecked(s: Stops, p: Checker, q: Checker)
    requires s.checkers == map[0 := p] && p != q
    ensures !Checked(s, q)
  {
  }

  lemma FirstChecker(service: string, x: ServiceInstance)
    requires FirstPort(x) != ""
    ensures
      var t := StartPorts(EMPTY, service, x);
      t.checkers == map[0 := CheckerOf(service, x)] && Key(service, x.instanceID) in t.stop
  {
  }

  /**
   * Two instances with one key, or one instance that comes back at another address: the one that
   * is delivered second gets no checker of its own.
   */
  lemma AmbiguousKeysLeaveOneUnchecked(first: string, second: string, x: ServiceInstance, y: ServiceInstance, max: int)
    requires Key(first, x.instanceID) == Key(second, y.instanceID) && CheckerOf(first, x) != CheckerOf(second, y)
    requires FirstPort(x) != ""
    ensures
      var s := Run(NOTHING, [Got(first, [x], 0), Watched(second, [y], 1)], max);
      second in s.cache && |s.cache[second]| == 1 && !Checked(s.stops, CheckerOf(second, s.cache[second][0]))
  {
    RunTwo(NOTHING, Got(first, [x], 0), Watched(second, [y], 1), max);
    var s1 := Apply(NOTHING, Got(first, [x], 0), max);
    OneInstanceStarts(EMPTY, [], first, x);
    FirstChecker(first, x);
    var cached := Cached(s1.cache, second);
    OneInstanceStarts(s1.stops, cached, second, y);
    StartPortsTaken(s1.stops, second, y);
    var s := Apply(s1, Watched(second, [y], 1), max);
    MergedIsWhereListed(second, cached, [y], 1);
    assert CheckerOf(second, s.cache[second][0]) == CheckerOf(second, y);
    OnlyOneChecked(s.stops, CheckerOf(first, x), CheckerOf(second, y));
  }

  function At(p: Checker): ServiceInstance {
    ServiceInstance(p.instanceID, p.host, p.port, "", map[], true, 0, 0)
  }

  /** A run in which two of the addresses, with one checker key, are delivered one after the other. */
  lemma AmbiguityShows(p: Checker, q: Checker, max: int, known: set<Checker>) returns (actions: seq<Action>)
    requires p in known && q in known && p != q && KeyOf(p) == KeyOf(q) && p.port != ""
    ensures Whole(actions, known) && !AllChecked(Run(NOTHING, actions, max))
  {
    var x, y := At(p), At(q);
    assert CheckerOf(p.service, x) == p && CheckerOf(q.service, y) == q;
    actions := [Got(p.service, [x], 0), Watched(q.service, [y], 1)];
    AmbiguousKeysLeaveOneUnchecked(p.service, q.service, x, y, max);
    var s := Run(NOTHING, actions, max);
    assert !Checked(s.stops, CheckerOf(q.service, s.cache[q.service][0]));
  }

  /** Without a port nothing is started. */
  lemma NoPortShows(p: Checker, max: int, known: set<Checker>) returns (actions: seq<Action>)
    requires p in known && p.port == ""
    ensures Whole(actions, known) && !AllChecked(Run(NOTHING, actions, max))
  {
    var x := At(p);
    assert CheckerOf(p.service, x) == p;
    actions := [Got(p.service, [x], 0)];
    var s := Apply(NOTHING, Got(p.service, [x], 0), max);
    assert actions[1..] == [] && Run(NOTHING, actions, max) == Run(s, [], max) == s;
    OneInstanceStarts(EMPTY, [], p.service, x);
    assert s.stops == EMPTY;
    assert !Checked(s.stops, CheckerOf(p.service, s.cache[p.service][0]));
  }

  /**
   * With every tick in one piece, and nothing ended or deregistered, all cached instances are
   * checked at their addresses in every run exactly when every address has a port and no two have
   * the same checker key: no instance moves, and none is registered or listed in two ways.
   */
  lemma CheckedIffUnambiguous(max: int, known: set<Checker>)
    ensures (forall actions: seq<Action> | Whole(actions, known) :: AllChecked(Run(NOTHING, actions, max)))
       <==> Unambiguous(known) && HavePorts(known)
  {
    if Unambiguous(known) && HavePorts(known) {
      forall actions: seq<Action> | Whole(actions, known)
        ensures AllChecked(Run(NOTHING, actions, max))
      {
        RunKeepsInv(NOTHING, actions, max, known);
        InvChecks(Run(NOTHING, actions, max), known);
      }
    } else if p :| p in known && p.port == "" {
      var actions := NoPortShows(p, max, known);
    } else {
      var p, q :| p in known && q in known && KeyOf(p) == KeyOf(q) && p != q;
      var actions := AmbiguityShows(p, q, max, known);
    }
  }

  // ---------------------------------------------------------------- one instance, two addresses

  /** An instance that restarts elsewhere under its ID is still probed at its old address alone. */
  lemma MovedInstanceIsUnchecked(service: string, x: ServiceInstance, host: string, max: int)
    requires FirstPort(x) != "" && host != x.host
    ensures !AllChecked(Run(NOTHING, [Got(service, [x], 0), Watched(service, [x.(host := host)], 1)], max))
  {
    AmbiguousKeysLeaveOneUnchecked(service, service, x, x.(host := host), max);
    var s := Run(NOTHING, [Got(service, [x], 0), Watched(service, [x.(host := host)], 1)], max);
    assert !Checked(s.stops, CheckerOf(service, s.cache[service][0]));
  }

  /** An instance that was registered with another port than it is listed with is probed there alone. */
  lemma OtherwiseRegisteredIsUnchecked(service: string, x: ServiceInstance, port: string, max: int)
    requires port != FirstPort(x)
    ensures !AllChecked(Run(NOTHING, [Registered(service, x.instanceID, x.host, port), Got(service, [x], 0)], max))
  {
    RunTwo(NOTHING, Registered(service, x.instanceID, x.host, port), Got(service, [x], 0), max);
    var s1 := Apply(NOTHING, Registered(service, x.instanceID, x.host, port), max);
    OneInstanceStarts(s1.stops, [], service, x);
    StartPortsTaken(s1.stops, service, x);
    var s := Apply(s1, Got(service, [x], 0), max);
    assert s.stops.checkers == map[0 := Checker(service, x.instanceID, x.host, port)];
    OnlyOneChecked(s.stops, s.stops.checkers[0], CheckerOf(service, s.cache[service][0]));
  }

  /** Of two entries with one ID in a list, the second is not probed. */
  lemma TwiceListedIsUnchecked(service: string, x: ServiceInstance, host: string, max: int)
    requires FirstPort(x) != "" && host != x.host
    ensures !AllChecked(Apply(NOTHING, Got(service, [x, x.(host := host)], 0), max))
  {
    var y := x.(host := host);
    var s := Apply(NOTHING, Got(service, [x, y], 0), max);
    assert [x, y][..1] == [x];
    OneInstanceStarts(EMPTY, [], service, x);
    FirstChecker(service, x);
    StartPortsTaken(StartPorts(EMPTY, service, x), service, y);
    assert s.stops.checkers == map[0 := CheckerOf(service, x)];
    assert CheckerOf(service, s.cache[service][1]) == CheckerOf(service, y);
    OnlyOneChecked(s.stops, CheckerOf(service, x), CheckerOf(service, y));
  }
}
