/** The configuration manager as an object, and the specification each of its operations meets. */
module ConfigManager {
  import opened Common
  import opened ConfigModel

  /** How the provider behaves for one key: a failed put may still have been written. */
  datatype Io = Io(getOk: bool, putOk: bool, written: bool)

  /** A manager's own state: its configurations and the (key, version) notifications it made. */
  datatype Local = Local(configs: map<string, Config>, notified: seq<(string, int)>)

  datatype Status = Synced | Skipped | Failed

  datatype Outcome = Outcome(local: Local, store: map<string, Document>, status: Status)

  function SyncKey(local: Local, store: map<string, Document>, key: string, io: Io): Outcome
    requires key in local.configs
  {
    if !io.getOk then Outcome(local, store, Failed) else
      match Decide(local.configs[key], Lookup(store, key))
      case Skip => Outcome(local, store, Skipped)
      case Reject => Outcome(local, store, Failed)
      case Keep => Outcome(local, store, Synced)
      case Adopt(doc) => Outcome(Adopted(local, key, doc), store, Synced)
      case Upload(doc) =>
        var kept := local.(configs := local.configs[key := local.configs[key].(doc := doc)]);
        match Encode(doc)
        case None => Outcome(kept, store, Failed)
        case Some(sent) =>
          Outcome(kept, if io.putOk || io.written then store[key := sent] else store, if io.putOk then Synced else Failed)
  }

  function Adopted(local: Local, key: string, doc: Document): Local {
    Local(local.configs[key := Decode(doc)], local.notified + [(key, doc.version)])
  }

  /** The loop of `SyncConfig`: it stops at the first key that fails. */
  function SyncAll(local: Local, store: map<string, Document>, keys: seq<string>, ios: seq<Io>): Outcome
    requires |ios| == |keys| && forall k | k in keys :: k in local.configs
    decreases |keys|
  {
    if keys == [] then Outcome(local, store, Synced) else
      var first := SyncKey(local, store, keys[0], ios[0]);
      if first.status == Failed then first
      else SyncAll(first.local, first.store, keys[1..], ios[1..])
  }

  /** The callback of `Watch`. */
  function Watched(local: Local, key: string, doc: Document): Local
    requires key in local.configs
  {
    if !CallValidate(Decode(doc)).failed && doc.version > local.configs[key].doc.version
    then Adopted(local, key, doc) else local
  }

  class ConfigProvider {
    var store: map<string, Document>

    constructor (store: map<string, Document>)
      ensures this.store == store
    {
      this.store := store;
    }

    method GetConfig(key: string, io: Io) returns (r: Result<Option<Document>>)
      ensures r == if io.getOk then Ok(Lookup(store, key)) else Err
    {
      r := if io.getOk then Ok(Lookup(store, key)) else Err;
    }

    method PutConfig(key: string, config: Config, io: Io) returns (r: Result<()>)
      modifies this
      ensures
        var sent := Encode(config.doc);
        && store == (if sent.Some? && (io.putOk || io.written) then old(store)[key := sent.value] else old(store))
        && r.Ok? == (sent.Some? && io.putOk)
    {
      var sent := Encode(config.doc);
      if sent.None? {
        return Err;
      }
      if io.putOk || io.written {
        store := store[key := sent.value];
      }
      r := if io.putOk then Ok(()) else Err;
    }
  }

  class ConfigManager {
    const provider: ConfigProvider
    const keys: seq<string>
    var configs: map<string, Config>
    var notified: seq<(string, int)>

    ghost predicate Valid()
      reads this
    {
      forall k | k in keys :: k in configs
    }

    ghost function State(): Local
      reads this
    {
      Local(configs, notified)
    }

    constructor (provider: ConfigProvider, keys: seq<string>, configs: map<string, Config>)
      requires forall k | k in keys :: k in configs
      ensures Valid() && State() == Local(configs, [])
      ensures this.provider == provider && this.keys == keys
    {
      this.provider := provider;
      this.keys := keys;
      this.configs := configs;
      this.notified := [];
    }

    method SyncConfig(ios: seq<Io>) returns (r: Result<()>)
      requires Valid() && |ios| == |keys|
      modifies this, provider
      ensures Valid()
      ensures
        var done := old(SyncAll(State(), provider.store, keys, ios));
        State() == done.local && provider.store == done.store && r.Ok? == (done.status != Failed)
    {
      ghost var all := SyncAll(State(), provider.store, keys, ios);
      assert keys[0..] == keys && ios[0..] == ios;
      var i := 0;
      while i < |keys|
        invariant 0 <= i <= |keys| && Valid()
        invariant SyncAll(State(), provider.store, keys[i..], ios[i..]) == all
      {
        assert keys[i..][0] == keys[i] && ios[i..][0] == ios[i];
        assert keys[i..][1..] == keys[i + 1..] && ios[i..][1..] == ios[i + 1..];
        var key := keys[i];
        var status := SyncOne(key, ios[i]);
        if status == Failed {
          return Err;
        }
        i := i + 1;
      }
      return Ok(());
    }

    /** One iteration of the loop of `SyncConfig`. */
    method SyncOne(key: string, io: Io) returns (status: Status)
      requires Valid() && key in configs
      modifies this, provider
      ensures Valid()
      ensures Outcome(State(), provider.store, status) == old(SyncKey(State(), provider.store, key, io))
    {
      var got := provider.GetConfig(key, io);
      if got.Err? {
        return Failed;
      }
      var remote := got.value;
      var local := configs[key];
      if remote.None? {
        var v := CallValidate(local);
        if v.failed {
          return if v.skip then Skipped else Failed;
        }
        if local.doc.version <= 0 {
          local := local.(doc := local.doc.(version := 1));
        }
        configs := configs[key := local];
        var put := provider.PutConfig(key, local, io);
        return if put.Err? then Failed else Synced;
      }
      var v := CallValidate(Decode(remote.value));
      if v.failed {
        return if v.skip then Skipped else Failed;
      }
      if remote.value.version > local.doc.version {
        configs := configs[key := Decode(remote.value)];
        NotifyCallbacks(key, remote.value);
      } else if remote.value.version < local.doc.version {
        assert configs[key := local] == configs;
        var put := provider.PutConfig(key, local, io);
        return if put.Err? then Failed else Synced;
      }
      return Synced;
    }

    method NotifyCallbacks(key: string, doc: Document)
      modifies this`notified
      ensures notified == old(notified) + [(key, doc.version)]
    {
      notified := notified + [(key, doc.version)];
    }

    /** The callback that `Watch` hands to the provider. */
    method OnChange(key: string, doc: Document)
      requires Valid() && key in configs
      modifies this
      ensures Valid() && State() == Watched(old(State()), key, doc)
      ensures
        if !IsOnlyEmpty(doc.content) && doc.version > old(configs)[key].doc.version
        then configs == old(configs)[key := Config(doc, None)] && notified == old(notified) + [(key, doc.version)]
        else configs == old(configs) && notified == old(notified)
    {
      if CallValidate(Decode(doc)).failed {
        return;
      }
      if doc.version > configs[key].doc.version {
        configs := configs[key := Decode(doc)];
        NotifyCallbacks(key, doc);
      }
    }

    /** Replaces a known configuration; `resync` tells that an asynchronous sync was started. */
    method RefreshConfig(key: string, config: Config) returns (resync: bool)
      requires Valid()
      modifies this`configs
      ensures Valid() && resync == (key in old(configs))
      ensures configs == if resync then old(configs)[key := config] else old(configs)
    {
      if key !in configs {
        return false;
      }
      configs := configs[key := config];
      return true;
    }
  }
}
