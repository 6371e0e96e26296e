/** What `SyncConfig` guarantees when each key is synchronised in one piece. */
module ConfigSyncProperties {
  import opened Common
  import opened ConfigModel
  import opened ConfigManager

  // ---------------------------------------------------------------- one completed sync

  ghost predicate Distinct(keys: seq<string>) {
    forall i, j | 0 <= i < j < |keys| :: keys[i] != keys[j]
  }

  /** The key was left alone: nothing is stored and the local callback asked to skip it. */
  predicate LeftAlone(local: Local, store: map<string, Document>, key: string)
    requires key in local.configs
  {
    Decide(local.configs[key], Lookup(store, key)) == Skip
  }

  /** The version both sides must end up with. */
  function Agreed(local: Local, store: map<string, Document>, key: string): int
    requires key in local.configs
  {
    var mine := local.configs[key].doc.version;
    if key in store then Max(mine, store[key].version) else Max(mine, 1)
  }

  lemma SyncKeyTouchesOneKey(local: Local, store: map<string, Document>, key: string, io: Io)
    requires key in local.configs
    ensures
      var o := SyncKey(local, store, key, io);
      && o.local.configs.Keys == local.configs.Keys
      && (forall k | k in local.configs && k != key :: o.local.configs[k] == local.configs[k])
      && (forall k | k != key :: Lookup(o.store, k) == Lookup(store, k))
  {
  }

  lemma {:induction false} SyncAllTouchesItsKeys(local: Local, store: map<string, Document>, keys: seq<string>, ios: seq<Io>)
    requires |ios| == |keys| && forall k | k in keys :: k in local.configs
    ensures
      var o := SyncAll(local, store, keys, ios);
      && o.local.configs.Keys == local.configs.Keys
      && (forall k | k in local.configs && k !in keys :: o.local.configs[k] == local.configs[k])
      && (forall k | k !in keys :: Lookup(o.store, k) == Lookup(store, k))
    decreases |keys|
  {
    if keys != [] {
      SyncKeyTouchesOneKey(local, store, keys[0], ios[0]);
      var o := SyncKey(local, store, keys[0], ios[0]);
      if o.status != Failed {
        SyncAllTouchesItsKeys(o.local, o.store, keys[1..], ios[1..]);
      }
    }
  }

  /** Both sides hold a version of the key, the same one, and it is v. */
  ghost predicate SettledAt(local: Local, store: map<string, Document>, key: string, v: int) {
    && key in local.configs && key in store
    && local.configs[key].doc.version == v == store[key].version
  }

  /** The two documents are the same in JSON, or neither has changed. */
  ghost predicate SameOrUntouched(before: Local, store: map<string, Document>, after: Local, store': map<string, Document>, key: string)
    requires key in before.configs && key in after.configs && key in store'
  {
    || after.configs[key].doc == store'[key]
    || Encode(after.configs[key].doc) == Some(store'[key])
    || (after.configs[key] == before.configs[key] && Lookup(store', key) == Lookup(store, key))
  }

  lemma SyncKeySettles(local: Local, store: map<string, Document>, key: string, io: Io)
    requires key in local.configs && SyncKey(local, store, key, io).status != Failed && !LeftAlone(local, store, key)
    ensures
      var o := SyncKey(local, store, key, io);
      SettledAt(o.local, o.store, key, Agreed(local, store, key)) && SameOrUntouched(local, store, o.local, o.store, key)
  {
  }

  /**
   * A sync that returns no error settles every key that was not left alone at the greater of
   * the two versions; a local version below 1 counts as 1 only where nothing was stored. Where
   * the versions differed, or nothing was stored, the two documents are the same in JSON as well.
   */
  lemma {:induction false} CompletedSyncSettles(local: Local, store: map<string, Document>, keys: seq<string>, ios: seq<Io>, key: string)
    requires |ios| == |keys| && Distinct(keys) && forall k | k in keys :: k in local.configs
    requires SyncAll(local, store, keys, ios).status != Failed
    requires key in keys && !LeftAlone(local, store, key)
    ensures
      var o := SyncAll(local, store, keys, ios);
      SettledAt(o.local, o.store, key, Agreed(local, store, key)) && SameOrUntouched(local, store, o.local, o.store, key)
    decreases |keys|
  {
    var o := SyncKey(local, store, keys[0], ios[0]);
    SyncKeyTouchesOneKey(local, store, keys[0], ios[0]);
    SyncAllTouchesItsKeys(o.local, o.store, keys[1..], ios[1..]);
    if key == keys[0] {
      SyncKeySettles(local, store, key, ios[0]);
      assert key !in keys[1..];
      assert Lookup(SyncAll(local, store, keys, ios).store, key) == Lookup(o.store, key);
    } else {
      assert Lookup(o.store, key) == Lookup(store, key);
      CompletedSyncSettles(o.local, o.store, keys[1..], ios[1..], key);
    }
  }

  // ---------------------------------------------------------------- syncing again

  /** Nothing is left to write for the key: it is left alone, rejected or already settled. */
  ghost predicate Quiet(local: Local, store: map<string, Document>, key: string) {
    && key in local.configs
    && var d := Decide(local.configs[key], Lookup(store, key));
       d == Skip || d == Keep || (d == Reject && key in store)
  }

  /** What is stored under the key, and read back without a callback, passes the default validation. */
  predicate Readable(store: map<string, Document>, key: string) {
    key in store ==> !IsOnlyEmpty(store[key].content)
  }

  lemma SettledIsQuiet(local: Local, store: map<string, Document>, key: string, v: int)
    requires SettledAt(local, store, key, v)
    ensures Quiet(local, store, key)
    ensures Decide(local.configs[key], Lookup(store, key)) == if Readable(store, key) then Keep else Reject
  {
  }

  lemma {:induction false} QuietKeysStayAsTheyAre(local: Local, store: map<string, Document>, keys: seq<string>, ios: seq<Io>)
    requires |ios| == |keys| && forall i | 0 <= i < |ios| :: ios[i].getOk
    requires forall k | k in keys :: k in local.configs && Quiet(local, store, k)
    ensures
      var o := SyncAll(local, store, keys, ios);
      && o.local == local && o.store == store
      && (o.status != Failed <==> forall k | k in keys :: Readable(store, k))
    decreases |keys|
  {
    if keys != [] {
      assert Quiet(local, store, keys[0]);
      var o := SyncKey(local, store, keys[0], ios[0]);
      if o.status != Failed {
        QuietKeysStayAsTheyAre(local, store, keys[1..], ios[1..]);
        assert forall k | k in keys :: k == keys[0] || k in keys[1..];
      } else {
        assert !Readable(store, keys[0]);
      }
    }
  }

  /**
   * Syncing again after a completed sync changes nothing on either side. It completes exactly
   * when everything stored is readable: a configuration accepted by its own callback with content
   * that reads back empty is uploaded once and rejected ever after, because the callback is not
   * stored. (The integer 0 is no such content: it reads back as a float, which is never empty.)
   */
  lemma ResyncWritesNothing(local: Local, store: map<string, Document>, keys: seq<string>, ios: seq<Io>, again: seq<Io>)
    requires |ios| == |keys| == |again| && Distinct(keys) && forall k | k in keys :: k in local.configs
    requires SyncAll(local, store, keys, ios).status != Failed
    requires forall i | 0 <= i < |again| :: again[i].getOk
    ensures
      var o := SyncAll(local, store, keys, ios);
      && (forall k | k in keys :: k in o.local.configs)
      && var o2 := SyncAll(o.local, o.store, keys, again);
         && o2.local == o.local && o2.store == o.store
         && (o2.status != Failed <==> forall k | k in keys :: Readable(o.store, k))
  {
    var o := SyncAll(local, store, keys, ios);
    SyncAllTouchesItsKeys(local, store, keys, ios);
    forall key | key in keys
      ensures key in o.local.configs && Quiet(o.local, o.store, key)
    {
      if LeftAlone(local, store, key) {
        LeftAloneStaysSo(local, store, keys, ios, key);
      } else {
        CompletedSyncSettles(local, store, keys, ios, key);
        SettledIsQuiet(o.local, o.store, key, Agreed(local, store, key));
      }
    }
    QuietKeysStayAsTheyAre(o.local, o.store, keys, again);
  }

  lemma {:induction false} LeftAloneStaysSo(local: Local, store: map<string, Document>, keys: seq<string>, ios: seq<Io>, key: string)
    requires |ios| == |keys| && Distinct(keys) && forall k | k in keys :: k in local.configs
    requires SyncAll(local, store, keys, ios).status != Failed
    requires key in keys && LeftAlone(local, store, key)
    ensures
      var o := SyncAll(local, store, keys, ios);
      && key in o.local.configs && LeftAlone(o.local, o.store, key)
    decreases |keys|
  {
    var o := SyncKey(local, store, keys[0], ios[0]);
    SyncKeyTouchesOneKey(local, store, keys[0], ios[0]);
    SyncAllTouchesItsKeys(o.local, o.store, keys[1..], ios[1..]);
    if key == keys[0] {
      assert key !in keys[1..];
      assert Lookup(SyncAll(local, store, keys, ios).store, key) == Lookup(o.store, key);
    } else {
      assert Lookup(o.store, key) == Lookup(store, key);
      LeftAloneStaysSo(o.local, o.store, keys[1..], ios[1..], key);
    }
  }

  // ---------------------------------------------------------------- runs of many managers

  /** Managers sharing one store, with each sync of a key and each watch delivery in one piece. */
  datatype Cluster = Cluster(managers: seq<Local>, store: map<string, Document>)

  datatype Event =
    | Sync(manager: nat, key: string, io: Io)
    | Deliver(manager: nat, key: string, doc: Document)

  function Apply(c: Cluster, e: Event): Cluster {
    if e.manager >= |c.managers| || e.key !in c.managers[e.manager].configs then c else
      match e
      case Sync(m, key, io) =>
        var o := SyncKey(c.managers[m], c.store, key, io);
        Cluster(c.managers[m := o.local], o.store)
      case Deliver(m, key, doc) =>
        c.(managers := c.managers[m := Watched(c.managers[m], key, doc)])
  }

  function Run(c: Cluster, events: seq<Event>): Cluster
    decreases |events|
  {
    if events == [] then c else Run(Apply(c, events[0]), events[1..])
  }

  ghost predicate NoOlder(a: Option<Document>, b: Option<Document>) {
    a.Some? ==> b.Some? && a.value.version <= b.value.version
  }

  ghost predicate LocalGrows(a: Local, b: Local) {
    && a.configs.Keys == b.configs.Keys
    && (forall k | k in a.configs :: a.configs[k].doc.version <= b.configs[k].doc.version)
    && a.notified <= b.notified
  }

  ghost predicate StoreGrows(a: map<string, Document>, b: map<string, Document>) {
    forall k | k in a :: NoOlder(Lookup(a, k), Lookup(b, k))
  }

  ghost predicate Grows(c: Cluster, d: Cluster) {
    && |c.managers| == |d.managers|
    && (forall m | 0 <= m < |c.managers| :: LocalGrows(c.managers[m], d.managers[m]))
    && StoreGrows(c.store, d.store)
  }

  /** Notifications of a key carry ever greater versions, never ahead of the configuration held. */
  ghost predicate Ordered(l: Local) {
    && (forall i | 0 <= i < |l.notified| ::
         l.notified[i].0 in l.configs && l.notified[i].1 <= l.configs[l.notified[i].0].doc.version)
    && (forall i, j | 0 <= i < j < |l.notified| && l.notified[i].0 == l.notified[j].0 ::
         l.notified[i].1 < l.notified[j].1)
  }

  lemma AdoptionKeepsOrder(l: Local, key: string, doc: Document)
    requires Ordered(l) && key in l.configs && doc.version > l.configs[key].doc.version
    ensures Ordered(Adopted(l, key, doc)) && LocalGrows(l, Adopted(l, key, doc))
  {
  }

  lemma UploadKeepsOrder(l: Local, key: string, doc: Document)
    requires Ordered(l) && key in l.configs && doc.version >= l.configs[key].doc.version
    ensures
      var kept := l.(configs := l.configs[key := l.configs[key].(doc := doc)]);
      Ordered(kept) && LocalGrows(l, kept)
  {
  }

  lemma NewerKeepsStoreGrowing(store: map<string, Document>, key: string, doc: Document)
    requires key in store ==> store[key].version <= doc.version
    ensures StoreGrows(store, store[key := doc])
  {
  }

  lemma SyncKeyGrows(l: Local, store: map<string, Document>, key: string, io: Io)
    requires Ordered(l) && key in l.configs
    ensures
      var o := SyncKey(l, store, key, io);
      LocalGrows(l, o.local) && Ordered(o.local) && StoreGrows(store, o.store)
  {
    var decision := Decide(l.configs[key], Lookup(store, key));
    match decision
    case Adopt(doc) => AdoptionKeepsOrder(l, key, doc);
    case Upload(doc) =>
      UploadKeepsOrder(l, key, doc);
      if Encode(doc).Some? {
        NewerKeepsStoreGrowing(store, key, Encode(doc).value);
      }
    case _ =>
  }

  lemma WatchedGrows(l: Local, key: string, doc: Document)
    requires Ordered(l) && key in l.configs
    ensures LocalGrows(l, Watched(l, key, doc)) && Ordered(Watched(l, key, doc))
  {
  }

  ghost predicate AllOrdered(c: Cluster) {
    forall m | 0 <= m < |c.managers| :: Ordered(c.managers[m])
  }

  lemma StepGrows(c: Cluster, e: Event)
    requires AllOrdered(c)
    ensures Grows(c, Apply(c, e)) && AllOrdered(Apply(c, e))
  {
    if e.manager < |c.managers| && e.key in c.managers[e.manager].configs {
      var l := c.managers[e.manager];
      match e
      case Sync(_, key, io) => SyncKeyGrows(l, c.store, key, io);
      case Deliver(_, key, doc) => WatchedGrows(l, key, doc);
    }
  }

  lemma GrowingOn(a: Cluster, b: Cluster, c: Cluster)
    requires Grows(a, b) && Grows(b, c)
    ensures Grows(a, c)
  {
    forall m | 0 <= m < |a.managers|
      ensures LocalGrows(a.managers[m], c.managers[m])
    {
      assert LocalGrows(a.managers[m], b.managers[m]) && LocalGrows(b.managers[m], c.managers[m]);
    }
    forall k | k in a.store
      ensures NoOlder(Lookup(a.store, k), Lookup(c.store, k))
    {
      assert NoOlder(Lookup(a.store, k), Lookup(b.store, k));
    }
  }

  /**
   * While every sync of a key is one step, no version is ever lost: over any run of syncs and
   * watch deliveries by any managers, with any faults, each stored and each local version only
   * grows, and each manager notifies strictly increasing versions of a key.
   */
  lemma {:induction false} AtomicRunsOnlyGrow(c: Cluster, events: seq<Event>)
    requires AllOrdered(c)
    ensures Grows(c, Run(c, events)) && AllOrdered(Run(c, events))
    decreases |events|
  {
    if events != [] {
      StepGrows(c, events[0]);
      AtomicRunsOnlyGrow(Apply(c, events[0]), events[1..]);
      GrowingOn(c, Apply(c, events[0]), Run(c, events));
    }
  }
}
