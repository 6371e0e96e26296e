/** One sync in separate steps whose requests fail, and one delivery: the same as in one piece. */
module ConfigFaults {
  import opened Common
  import opened ConfigModel
  import opened ConfigInterleaving
  import opened ConfigConvergence
  import opened ConfigPasses
  import ConfigManager

  /** The requests of the sync go this way; nothing is tried again. */
  function ReplyOf(io: ConfigManager.Io): Reply {
    Reply(io.getOk, io.putOk, io.written, false)
  }

  /** A thread that syncs one key from start to end while nothing else moves. */
  ghost function SoloWith(s: State, manager: nat, key: string, r: Reply): State {
    Repeat(Apply(s, Spawn(manager, [key])), Step(|s.threads|, r), 5)
  }

  /** The manager's own view of the key. */
  ghost function LocalOf(s: State, key: string, manager: nat): ConfigManager.Local
    requires HasEntry(s, key, manager)
  {
    ConfigManager.Local(map[key := Held(s, key, manager)], [])
  }

  /** The sync in one piece. */
  ghost function AtOnce(s: State, manager: nat, key: string, io: ConfigManager.Io): ConfigManager.Outcome
    requires HasEntry(s, key, manager)
  {
    ConfigManager.SyncKey(LocalOf(s, key, manager), s.remote, key, io)
  }

  /** From s, the sync has had that outcome: for the entry and for what is stored and published. */
  ghost predicate Had(s: State, s': State, manager: nat, key: string, o: ConfigManager.Outcome) {
    && OnlyTouches(s, s', manager) && HasEntry(s', key, manager)
    && key in o.local.configs && Held(s', key, manager) == o.local.configs[key] && s'.remote == o.store
    && s'.published == s.published + Put(s, key, o)
    && s'.threads == s.threads + [Thread(manager, [], Fetching)]
  }

  /** What was stored anew is published. */
  ghost function Put(s: State, key: string, o: ConfigManager.Outcome): seq<(string, Document)> {
    if o.store == s.remote || key !in o.store then [] else [(key, o.store[key])]
  }

  /** The next step of the thread makes no request. */
  ghost predicate Calm(s: State, t: nat) {
    t < |s.threads| && (s.threads[t].todo == [] || !(s.threads[t].phase.Fetching? || s.threads[t].phase.Writing?))
  }

  /** Only getting and writing depend on how requests go. */
  lemma OtherStepsAreFine(s: State, t: nat, r: Reply)
    requires Calm(s, t) || (r.getOk && t < |s.threads| && s.threads[t].phase.Fetching?)
    ensures Apply(s, Step(t, r)) == Apply(s, Step(t, FINE))
  {
  }

  lemma ReadsWith(s: State, manager: nat, key: string, r: Reply)
    requires HasEntry(s, key, manager) && r.getOk
    ensures SoloWith(s, manager, key, r) == Repeat(AtCompare(s, manager, key), Step(|s.threads|, r), 3)
  {
    var t, s0 := |s.threads|, Apply(s, Spawn(manager, [key]));
    var s1 := Apply(s0, Step(t, FINE));
    OtherStepsAreFine(s0, t, r);
    OtherStepsAreFine(s1, t, r);
    SoloReads(s, manager, key);
    RepeatOn(s0, Step(t, r), 2, 3);
    assert Repeat(s0, Step(t, r), 2) == Repeat(s1, Step(t, r), 1) == Apply(s1, Step(t, r));
  }

  lemma RepeatThree(s: State, a: Action)
    ensures Repeat(s, a, 3) == Apply(Apply(Apply(s, a), a), a)
  {
    assert Repeat(s, a, 3) == Repeat(Apply(s, a), a, 2) == Repeat(Apply(Apply(s, a), a), a, 1);
  }

  lemma AdoptsWith(s: State, manager: nat, key: string, r: Reply, doc: Document)
    requires HasEntry(s, key, manager) && r.getOk && Decide(Held(s, key, manager), Lookup(s.remote, key)) == Adopt(doc)
    ensures SoloWith(s, manager, key, r) ==
            s.(managers := s.managers[manager := Replace(s.managers[manager], key, Decode(doc))],
               threads := s.threads + [Thread(manager, [], Fetching)])
  {
    var t, s3 := |s.threads|, AtCompare(s, manager, key);
    ReadsWith(s, manager, key, r);
    AdoptionReplaces(s3, t, manager, key, Lookup(s.remote, key), s.managers[manager].cur[key], doc);
    var s4 := Apply(s3, Step(t, FINE));
    OtherStepsAreFine(s3, t, r);
    OtherStepsAreFine(s4, t, r);
    OverIsOver(Apply(s4, Step(t, r)), t, r, 1);
    RepeatThree(s3, Step(t, r));
    assert s3.threads[t := Thread(manager, [], Fetching)] == s.threads + [Thread(manager, [], Fetching)];
  }

  lemma StopsWith(s: State, manager: nat, key: string, r: Reply, doc: Document)
    requires HasEntry(s, key, manager) && r.getOk
    requires Decide(Held(s, key, manager), Lookup(s.remote, key)) == Upload(doc) && Encode(doc).None?
    ensures SoloWith(s, manager, key, r) ==
            s.(managers := s.managers[manager := Uploaded(s.managers[manager], s.managers[manager].cur[key], doc)],
               threads := s.threads + [Thread(manager, [], Fetching)])
  {
    var t, s3, ptr := |s.threads|, AtCompare(s, manager, key), s.managers[manager].cur[key];
    ReadsWith(s, manager, key, r);
    FailedUploadStops(s3, t, manager, key, Lookup(s.remote, key), ptr, doc);
    var s4 := Apply(s3, Step(t, FINE));
    OtherStepsAreFine(s3, t, r);
    OtherStepsAreFine(s4, t, r);
    OverIsOver(Apply(s4, Step(t, r)), t, r, 1);
    RepeatThree(s3, Step(t, r));
    assert s3.threads[t := Thread(manager, [], Fetching)] == s.threads + [Thread(manager, [], Fetching)];
  }

  lemma LeavesWith(s: State, manager: nat, key: string, r: Reply)
    requires HasEntry(s, key, manager) && r.getOk
    requires var d := Decide(Held(s, key, manager), Lookup(s.remote, key)); !d.Adopt? && !d.Upload?
    ensures SoloWith(s, manager, key, r) == s.(threads := s.threads + [Thread(manager, [], Fetching)])
  {
    var t, s3 := |s.threads|, AtCompare(s, manager, key);
    ReadsWith(s, manager, key, r);
    NothingToDo(s3, t, manager, key, Lookup(s.remote, key), s.managers[manager].cur[key]);
    OtherStepsAreFine(s3, t, r);
    var s4 := Apply(s3, Step(t, r));
    OverIsOver(s4, t, r, 2);
    assert Repeat(s3, Step(t, r), 3) == Repeat(s4, Step(t, r), 2);
    assert s3.threads[t := Thread(manager, [], Fetching)] == s.threads + [Thread(manager, [], Fetching)];
  }

  lemma NothingIsPut(s: State, manager: nat, key: string, io: ConfigManager.Io)
    requires HasEntry(s, key, manager) && io.getOk
    requires
      var d := Decide(Held(s, key, manager), Lookup(s.remote, key));
      d.Upload? ==> Encode(d.doc).None?
    ensures Had(s, SoloWith(s, manager, key, ReplyOf(io)), manager, key, AtOnce(s, manager, key, io))
  {
    match Decide(Held(s, key, manager), Lookup(s.remote, key))
    case Adopt(doc) => AdoptsWith(s, manager, key, ReplyOf(io), doc);
    case Upload(doc) => StopsWith(s, manager, key, ReplyOf(io), doc);
    case _ => LeavesWith(s, manager, key, ReplyOf(io));
  }

  /** What a write does to a thread that has nothing else to do. */
  lemma LastWrite(s: State, t: nat, manager: nat, key: string, doc: Document, r: Reply)
    requires t < |s.threads| && s.threads[t] == Thread(manager, [key], Writing(doc)) && !r.retry
    requires manager < |s.managers| && key in s.managers[manager].cur
    ensures
      var put := r.putOk || r.written;
      Apply(s, Step(t, r)) ==
      State(if put then s.remote[key := doc] else s.remote, if put then s.published + [(key, doc)] else s.published,
            s.managers, s.threads[t := Thread(manager, [], Fetching)])
  {
    assert s.managers[manager := s.managers[manager]] == s.managers;
    assert [key][1..] == [];
  }

  lemma PutsWith(s: State, manager: nat, key: string, r: Reply, doc: Document)
    requires HasEntry(s, key, manager) && r.getOk && !r.retry
    requires Decide(Held(s, key, manager), Lookup(s.remote, key)) == Upload(doc) && Encode(doc).Some?
    ensures
      var sent, put := Encode(doc).value, r.putOk || r.written;
      SoloWith(s, manager, key, r) ==
      State(if put then s.remote[key := sent] else s.remote, if put then s.published + [(key, sent)] else s.published,
            s.managers[manager := Uploaded(s.managers[manager], s.managers[manager].cur[key], doc)],
            s.threads + [Thread(manager, [], Fetching)])
  {
    var t, s3, ptr := |s.threads|, AtCompare(s, manager, key), s.managers[manager].cur[key];
    ReadsWith(s, manager, key, r);
    UploadIsMarshalled(s3, t, manager, key, Lookup(s.remote, key), ptr, doc);
    var s4 := Apply(s3, Step(t, FINE));
    var s5 := Apply(s4, Step(t, FINE));
    assert s4.threads[t].phase == Marshalling(ptr);
    OtherStepsAreFine(s3, t, r);
    OtherStepsAreFine(s4, t, r);
    LastWrite(s5, t, manager, key, Encode(doc).value, r);
    RepeatThree(s3, Step(t, r));
    assert s3.threads[t := Thread(manager, [], Fetching)] == s.threads + [Thread(manager, [], Fetching)];
  }

  lemma SomethingIsPut(s: State, manager: nat, key: string, io: ConfigManager.Io, doc: Document)
    requires HasEntry(s, key, manager) && io.getOk
    requires Decide(Held(s, key, manager), Lookup(s.remote, key)) == Upload(doc) && Encode(doc).Some?
    ensures Had(s, SoloWith(s, manager, key, ReplyOf(io)), manager, key, AtOnce(s, manager, key, io))
  {
    PutsWith(s, manager, key, ReplyOf(io), doc);
    var sent := Encode(doc).value;
    assert s.remote[key := sent] != s.remote by {
      assert Lookup(s.remote[key := sent], key) != Lookup(s.remote, key);
    }
  }

  lemma NothingIsRead(s: State, manager: nat, key: string, r: Reply)
    requires HasEntry(s, key, manager) && !r.getOk
    ensures SoloWith(s, manager, key, r) == s.(threads := s.threads + [Thread(manager, [], Fetching)])
  {
    var t, s0 := |s.threads|, Apply(s, Spawn(manager, [key]));
    var s1 := Apply(s0, Step(t, r));
    assert s1.managers == s.managers && s1.threads == s.threads + [Thread(manager, [], Fetching)];
    OverIsOver(s1, t, r, 4);
    assert Repeat(s0, Step(t, r), 5) == Repeat(s1, Step(t, r), 4);
  }

  /**
   * Run without interruption, the separate steps do what the atomic sync of the key does, whatever
   * fails: to the entry, to what is stored, and to what watches are told.
   */
  lemma SoloIsTheAtomicSync(s: State, manager: nat, key: string, io: ConfigManager.Io)
    requires HasEntry(s, key, manager)
    ensures Had(s, SoloWith(s, manager, key, ReplyOf(io)), manager, key, AtOnce(s, manager, key, io))
  {
    var d := Decide(Held(s, key, manager), Lookup(s.remote, key));
    if !io.getOk {
      NothingIsRead(s, manager, key, ReplyOf(io));
    } else if d.Upload? && Encode(d.doc).Some? {
      SomethingIsPut(s, manager, key, io, d.doc);
    } else {
      NothingIsPut(s, manager, key, io);
    }
  }

  /** A failure ends the whole sync, unless it is a put that is tried again; a success leads to the next key. */
  lemma FailuresEndTheSync(s: State, t: nat, r: Reply)
    requires t < |s.threads| && WellFormed(s, s.threads[t])
    ensures
      var before, after := s.threads[t], Apply(s, Step(t, r)).threads[t];
      && (before.phase.Fetching? && !r.getOk ==> after.todo == [])
      && (before.phase.Writing? && r.putOk ==> after == Thread(before.manager, before.todo[1..], Fetching))
      && (before.phase.Writing? && !r.putOk ==> if r.retry then after == before else after.todo == [])
  {
  }

  /** A delivery does to the entry what the watch callback does, and nothing else. */
  lemma DeliveryIsTheCallback(s: State, manager: nat, n: nat, key: string)
    requires HasEntry(s, key, manager) && n < |s.published| && s.published[n].0 == key
    ensures
      var s' := Apply(s, Deliver(manager, n));
      && HasEntry(s', key, manager)
      && Held(s', key, manager) == ConfigManager.Watched(LocalOf(s, key, manager), key, s.published[n].1).configs[key]
      && OnlyTouches(s, s', manager) && s'.remote == s.remote && s'.published == s.published && s'.threads == s.threads
  {
  }

  /** Other keys keep their entries. */
  lemma DeliverySparesOthers(s: State, manager: nat, n: nat, key: string)
    requires HasEntry(s, key, manager) && n < |s.published| && s.published[n].0 != key
    ensures
      var s' := Apply(s, Deliver(manager, n));
      HasEntry(s', key, manager) && Held(s', key, manager) == Held(s, key, manager)
  {
  }

  /** A refresh replaces the entry of a known key by the given configuration, whatever its version. */
  lemma RefreshReplaces(s: State, manager: nat, key: string, c: Config, other: string)
    requires HasEntry(s, key, manager) && HasEntry(s, other, manager)
    ensures
      var s' := Apply(s, Refresh(manager, key, c));
      && HasEntry(s', other, manager) && Held(s', other, manager) == (if other == key then c else Held(s, other, manager))
      && OnlyTouches(s, s', manager) && s'.remote == s.remote && s'.published == s.published && s'.threads == s.threads
  {
  }
}
