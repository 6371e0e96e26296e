/** What syncs and deliveries do to entries, stored documents and notifications, in versions and contents. */
module ConfigOutcomes {
  import opened Common
  import opened ConfigModel
  import opened ConfigManager
  import opened ConfigSyncProperties

  // ---------------------------------------------------------------- one key

  /** The configuration's own callback accepts it; without one, its content is not empty. */
  predicate Accepted(c: Config) {
    if c.validator.Some? then !c.validator.value(c.doc).failed else !IsOnlyEmpty(c.doc.content)
  }

  /** What is stored has content, and is newer than the local configuration. */
  predicate Replaces(local: Local, store: map<string, Document>, key: string, io: Io)
    requires key in local.configs
  {
    io.getOk && key in store && !IsOnlyEmpty(store[key].content) && store[key].version > local.configs[key].doc.version
  }

  /** The local configuration is accepted where nothing is stored, or newer than what is. */
  predicate Uploads(local: Local, store: map<string, Document>, key: string, io: Io)
    requires key in local.configs
  {
    io.getOk &&
    if key in store then !IsOnlyEmpty(store[key].content) && store[key].version < local.configs[key].doc.version
    else Accepted(local.configs[key])
  }

  /** The version the local configuration has afterwards, unless it is replaced. */
  function OwnVersion(local: Local, store: map<string, Document>, key: string, io: Io): int
    requires key in local.configs
  {
    var version := local.configs[key].doc.version;
    if Uploads(local, store, key, io) && key !in store && version < 1 then 1 else version
  }

  /** The entry: the stored document without a callback, or the same as before but for the version. */
  lemma SyncReplacesIff(local: Local, store: map<string, Document>, key: string, io: Io)
    requires key in local.configs
    ensures
      var before, after := local.configs[key], SyncKey(local, store, key, io).local.configs;
      && after.Keys == local.configs.Keys && (forall k | k in local.configs && k != key :: after[k] == local.configs[k])
      && after[key] == if Replaces(local, store, key, io) then Config(store[key], None)
                       else Config(Document(before.doc.name, OwnVersion(local, store, key, io), before.doc.content), before.validator)
  {
  }

  /** Exactly the replacements are notified, once each, with the key and the new version. */
  lemma SyncNotifiesIff(local: Local, store: map<string, Document>, key: string, io: Io)
    requires key in local.configs
    ensures SyncKey(local, store, key, io).local.notified ==
            local.notified + if Replaces(local, store, key, io) then [(key, store[key].version)] else []
  {
  }

  /** The stored side changes exactly when something is uploaded that JSON can hold and the put takes effect. */
  lemma SyncStoresIff(local: Local, store: map<string, Document>, key: string, io: Io)
    requires key in local.configs
    ensures
      var mine := local.configs[key].doc;
      SyncKey(local, store, key, io).store ==
      if Uploads(local, store, key, io) && ReadBack(mine.content).Some? && (io.putOk || io.written)
      then store[key := Document(mine.name, OwnVersion(local, store, key, io), ReadBack(mine.content).value)] else store
  {
  }

  lemma SyncFailsIff(local: Local, store: map<string, Document>, key: string, io: Io)
    requires key in local.configs
    ensures
      var mine := local.configs[key];
      SyncKey(local, store, key, io).status == Failed <==>
      || !io.getOk
      || (key in store && IsOnlyEmpty(store[key].content))
      || (key !in store && !Accepted(mine) && !AsksToSkip(mine))
      || (Uploads(local, store, key, io) && !(ReadBack(mine.doc.content).Some? && io.putOk))
  {
  }

  predicate AsksToSkip(c: Config) {
    c.validator.Some? && c.validator.value(c.doc).skip
  }

  lemma SyncSkipsIff(local: Local, store: map<string, Document>, key: string, io: Io)
    requires key in local.configs
    ensures SyncKey(local, store, key, io).status == Skipped <==>
            io.getOk && key !in store && !Accepted(local.configs[key]) && AsksToSkip(local.configs[key])
  {
  }

  // ---------------------------------------------------------------- all keys

  /** The notifications that the keys give rise to, in their order. */
  function News(local: Local, store: map<string, Document>, keys: seq<string>, ios: seq<Io>): seq<(string, int)>
    requires |ios| == |keys| && forall k | k in keys :: k in local.configs
    decreases |keys|
  {
    if keys == [] then [] else
      (if Replaces(local, store, keys[0], ios[0]) then [(keys[0], store[keys[0]].version)] else [])
      + News(local, store, keys[1..], ios[1..])
  }

  /** On these keys the two states are the same. */
  ghost predicate SameOn(a: Local, s: map<string, Document>, b: Local, t: map<string, Document>, keys: seq<string>) {
    forall k | k in keys :: k in a.configs && k in b.configs && a.configs[k] == b.configs[k] && Lookup(s, k) == Lookup(t, k)
  }

  lemma ReplacesOn(a: Local, s: map<string, Document>, b: Local, t: map<string, Document>, key: string, io: Io)
    requires key in a.configs && key in b.configs && a.configs[key] == b.configs[key] && Lookup(s, key) == Lookup(t, key)
    ensures Replaces(a, s, key, io) <==> Replaces(b, t, key, io)
    ensures Replaces(a, s, key, io) ==> s[key] == t[key]
  {
  }

  lemma {:induction false} NewsOn(a: Local, s: map<string, Document>, b: Local, t: map<string, Document>, keys: seq<string>, ios: seq<Io>)
    requires |ios| == |keys| && SameOn(a, s, b, t, keys)
    ensures News(a, s, keys, ios) == News(b, t, keys, ios)
    decreases |keys|
  {
    if keys != [] {
      ReplacesOn(a, s, b, t, keys[0], ios[0]);
      NewsOn(a, s, b, t, keys[1..], ios[1..]);
    }
  }

  lemma FirstLeavesTheRest(local: Local, store: map<string, Document>, keys: seq<string>, io: Io)
    requires keys != [] && Distinct(keys) && forall k | k in keys :: k in local.configs
    ensures
      var o := SyncKey(local, store, keys[0], io);
      SameOn(local, store, o.local, o.store, keys[1..])
  {
    SyncKeyTouchesOneKey(local, store, keys[0], io);
    forall k | k in keys[1..]
      ensures k in keys && k != keys[0]
    {
      var i :| 0 <= i < |keys| - 1 && keys[1..][i] == k;
      assert keys[i + 1] == k;
    }
  }

  /**
   * A sync notifies the replacements among the keys it gets through, once each and in the order of
   * the keys; it gets through all of them exactly when it does not fail.
   */
  lemma {:induction false} SyncAllNotifies(local: Local, store: map<string, Document>, keys: seq<string>, ios: seq<Io>) returns (n: nat)
    requires |ios| == |keys| && Distinct(keys) && forall k | k in keys :: k in local.configs
    ensures n <= |keys| && (n == |keys| <==> SyncAll(local, store, keys, ios).status != Failed)
    ensures SyncAll(local, store, keys, ios).local.notified == local.notified + News(local, store, keys[..n], ios[..n])
    decreases |keys|
  {
    if keys == [] {
      n := 0;
    } else {
      var o := SyncKey(local, store, keys[0], ios[0]);
      SyncNotifiesIff(local, store, keys[0], ios[0]);
      if o.status == Failed {
        SyncFailsIff(local, store, keys[0], ios[0]);
        n := 0;
      } else {
        FirstLeavesTheRest(local, store, keys, ios[0]);
        var m := SyncAllNotifies(o.local, o.store, keys[1..], ios[1..]);
        n := m + 1;
        NewsOfOneMore(local, store, keys, ios, o, m);
      }
    }
  }

  lemma NewsOfOneMore(local: Local, store: map<string, Document>, keys: seq<string>, ios: seq<Io>, o: Outcome, m: nat)
    requires |ios| == |keys| && m < |keys| && forall k | k in keys :: k in local.configs
    requires SameOn(local, store, o.local, o.store, keys[1..])
    requires o.local.notified == local.notified + News(local, store, [keys[0]], [ios[0]])
    ensures forall k | k in keys[1..][..m] :: k in o.local.configs
    ensures o.local.notified + News(o.local, o.store, keys[1..][..m], ios[1..][..m])
         == local.notified + News(local, store, keys[..m + 1], ios[..m + 1])
  {
    assert keys[..m + 1][1..] == keys[1..][..m] && ios[..m + 1][1..] == ios[1..][..m];
    NewsOn(local, store, o.local, o.store, keys[1..][..m], ios[1..][..m]);
  }

  /** Of the keys a sync gets through, exactly those that are notified have a new entry. */
  lemma {:induction false} SyncAllReplaces(local: Local, store: map<string, Document>, keys: seq<string>, ios: seq<Io>, i: nat)
    requires |ios| == |keys| && Distinct(keys) && forall k | k in keys :: k in local.configs
    requires SyncAll(local, store, keys, ios).status != Failed && i < |keys|
    ensures
      var key, before := keys[i], local.configs[keys[i]];
      var after := SyncAll(local, store, keys, ios).local.configs;
      && key in after
      && after[key] == if Replaces(local, store, key, ios[i]) then Config(store[key], None)
                       else Config(Document(before.doc.name, OwnVersion(local, store, key, ios[i]), before.doc.content), before.validator)
    decreases |keys|
  {
    var o := SyncKey(local, store, keys[0], ios[0]);
    SyncReplacesIff(local, store, keys[0], ios[0]);
    FirstLeavesTheRest(local, store, keys, ios[0]);
    SyncAllTouchesItsKeys(o.local, o.store, keys[1..], ios[1..]);
    if i == 0 {
      assert keys[0] !in keys[1..];
    } else {
      SyncAllReplaces(o.local, o.store, keys[1..], ios[1..], i - 1);
      assert keys[1..][i - 1] == keys[i] && keys[i] in keys[1..];
      ReplacesOn(local, store, o.local, o.store, keys[i], ios[i]);
    }
  }

  // ---------------------------------------------------------------- watch callbacks

  /** A delivery with content that is newer than the entry. */
  predicate Newer(local: Local, key: string, doc: Document)
    requires key in local.configs
  {
    !IsOnlyEmpty(doc.content) && doc.version > local.configs[key].doc.version
  }

  /** It replaces the entry, without a callback, and is notified once; any other changes nothing. */
  lemma WatchedReplacesIff(local: Local, key: string, doc: Document)
    requires key in local.configs
    ensures Watched(local, key, doc) ==
            if Newer(local, key, doc) then Local(local.configs[key := Config(doc, None)], local.notified + [(key, doc.version)])
            else local
  {
  }

  // ---------------------------------------------------------------- runs

  /** What an event makes manager m notify. */
  function Announced(c: Cluster, e: Event, m: nat): seq<(string, int)> {
    if e.manager != m || m >= |c.managers| || e.key !in c.managers[m].configs then [] else
      match e
      case Sync(_, key, io) => if Replaces(c.managers[m], c.store, key, io) then [(key, c.store[key].version)] else []
      case Deliver(_, key, doc) => if Newer(c.managers[m], key, doc) then [(key, doc.version)] else []
  }

  function AllAnnounced(c: Cluster, events: seq<Event>, m: nat): seq<(string, int)>
    decreases |events|
  {
    if events == [] then [] else Announced(c, events[0], m) + AllAnnounced(Apply(c, events[0]), events[1..], m)
  }

  /** What an event stores, if anything, and that it is its own manager's alone. */
  lemma EventStoresIff(c: Cluster, e: Event)
    requires e.manager < |c.managers| && e.key in c.managers[e.manager].configs
    ensures
      var local, d := c.managers[e.manager], Apply(c, e);
      var mine := local.configs[e.key].doc;
      && d.managers == c.managers[e.manager := d.managers[e.manager]]
      && d.store == if e.Sync? && Uploads(local, c.store, e.key, e.io) && ReadBack(mine.content).Some? && (e.io.putOk || e.io.written)
                    then c.store[e.key := Document(mine.name, OwnVersion(local, c.store, e.key, e.io), ReadBack(mine.content).value)]
                    else c.store
  {
    if e.Sync? {
      SyncStoresIff(c.managers[e.manager], c.store, e.key, e.io);
    }
  }

  lemma EventNotifies(c: Cluster, e: Event, m: nat)
    requires m < |c.managers|
    ensures |Apply(c, e).managers| == |c.managers|
    ensures Apply(c, e).managers[m].notified == c.managers[m].notified + Announced(c, e, m)
  {
    if e.manager == m && e.key in c.managers[m].configs && e.Sync? {
      SyncNotifiesIff(c.managers[m], c.store, e.key, e.io);
    }
  }

  /** Over any run, a manager notifies exactly the replacements of its entries, in their order. */
  lemma {:induction false} RunNotifies(c: Cluster, events: seq<Event>, m: nat)
    requires m < |c.managers|
    ensures |Run(c, events).managers| == |c.managers|
    ensures Run(c, events).managers[m].notified == c.managers[m].notified + AllAnnounced(c, events, m)
    decreases |events|
  {
    if events != [] {
      EventNotifies(c, events[0], m);
      RunNotifies(Apply(c, events[0]), events[1..], m);
    }
  }
}
