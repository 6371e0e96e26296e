/** What survives every interleaving, and how the managers converge. */
module ConfigConvergence {
  import opened Common
  import opened ConfigModel
  import opened ConfigInterleaving
  import ConfigManager

  // ---------------------------------------------------------------- the greatest version

  ghost function AtMost(v: int): Rules {
    Everywhere((d: Document) => d.version <= v)
  }

  lemma AtMostIsConsistent(v: int)
    requires v >= 1
    ensures Consistent(AtMost(v))
  {
    EverywhereIsConsistent((d: Document) => d.version <= v);
  }

  /** The manager's entry for the key is c, and none of its threads is about to replace it. */
  ghost predicate Holds(s: State, key: string, manager: nat, c: Config) {
    && manager < |s.managers|
    && var m := s.managers[manager];
       && key in m.cur && m.cur[key] < |m.heap| && m.heap[m.cur[key]] == c
       && forall t | 0 <= t < |s.threads| :: Harmless(s.threads[t], key, manager, m.cur[key])
  }

  ghost predicate Harmless(th: Thread, key: string, manager: nat, ptr: nat) {
    th.manager == manager && th.todo != [] && th.todo[0] == key ==>
      !th.phase.Replacing? && (th.phase.Loaded? ==> th.phase.ptr == ptr)
  }

  lemma StepKeepsHolder(s: State, t: nat, reply: Reply, key: string, manager: nat, c: Config)
    requires Follows(s, key, AtMost(c.doc.version)) && c.doc.version >= 1
    requires Holds(s, key, manager, c)
    requires t < |s.threads| && WellFormed(s, s.threads[t])
    ensures
      var th := s.threads[t];
      var (th', m', put) := StepThread(s, th, reply);
      && Harmless(th', key, manager, s.managers[manager].cur[key])
      && (th.manager == manager ==> m'.cur.Keys >= {key} && m'.cur[key] == s.managers[manager].cur[key]
                                    && m'.cur[key] < |m'.heap| && m'.heap[m'.cur[key]] == c)
  {
    var th := s.threads[t];
    assert ThreadFollows(AtMost(c.doc.version), th, s.managers, key);
    assert Harmless(th, key, manager, s.managers[manager].cur[key]);
    if th.manager == manager {
      StepGrowsHeap(s, th, reply);
      StepKeepsEntry(s, th, reply, key);
    }
  }

  lemma ActionKeepsHolder(s: State, a: Action, key: string, manager: nat, c: Config)
    requires Follows(s, key, AtMost(c.doc.version)) && c.doc.version >= 1
    requires Holds(s, key, manager, c)
    requires !(a.Refresh? && a.manager == manager && a.key == key)
    ensures Holds(Apply(s, a), key, manager, c)
  {
    match a
    case Spawn(_, _) =>
    case Step(t, reply) =>
      if t < |s.threads| && WellFormed(s, s.threads[t]) {
        StepKeepsHolder(s, t, reply, key, manager, c);
      }
    case Deliver(_, _) =>
    case Refresh(_, _, _) =>
  }

  /** Refreshes of the key stay within v, and leave one manager's entry alone. */
  ghost predicate RefreshesWithin(actions: seq<Action>, key: string, v: int, manager: nat) {
    forall n | 0 <= n < |actions| && actions[n].Refresh? && actions[n].key == key ::
      actions[n].config.doc.version <= v && actions[n].manager != manager
  }

  /**
   * Under every interleaving of any number of threads, retries, faults, watch deliveries and
   * refreshes elsewhere, a manager that holds the greatest version of a key keeps exactly that
   * configuration, and no version above it ever appears.
   */
  lemma {:induction false} GreatestVersionIsNeverLost(s: State, actions: seq<Action>, key: string, manager: nat, c: Config)
    requires Follows(s, key, AtMost(c.doc.version)) && c.doc.version >= 1
    requires Holds(s, key, manager, c)
    requires RefreshesWithin(actions, key, c.doc.version, manager)
    ensures Holds(Run(s, actions), key, manager, c)
    ensures Follows(Run(s, actions), key, AtMost(c.doc.version))
    decreases |actions|
  {
    if actions != [] {
      AtMostIsConsistent(c.doc.version);
      ActionFollows(s, actions[0], key, AtMost(c.doc.version));
      ActionKeepsHolder(s, actions[0], key, manager, c);
      GreatestVersionIsNeverLost(Apply(s, actions[0]), actions[1..], key, manager, c);
    }
  }

  // ---------------------------------------------------------------- one sync by itself

  const FINE := Reply(true, true, true, false)

  ghost predicate HasEntry(s: State, key: string, manager: nat) {
    && manager < |s.managers|
    && var m := s.managers[manager];
       key in m.cur && m.cur[key] < |m.heap|
  }

  ghost function Held(s: State, key: string, manager: nat): Config
    requires HasEntry(s, key, manager)
  {
    s.managers[manager].heap[s.managers[manager].cur[key]]
  }

  /** Everyone has the key, and every value stored or held for it satisfies P. */
  ghost predicate AllHold(s: State, key: string, P: Document -> bool) {
    && (key in s.remote ==> IsJson(s.remote[key].content) && P(s.remote[key]))
    && forall m | 0 <= m < |s.managers| :: HasEntry(s, key, m) && P(Held(s, key, m).doc)
  }

  /** No thread works on the key or still has to. */
  ghost predicate Idle(s: State, key: string) {
    forall t | 0 <= t < |s.threads| :: key !in s.threads[t].todo
  }

  /** A thread that syncs one key from start to end while nothing else moves. */
  ghost function Solo(s: State, manager: nat, key: string): State {
    var t := |s.threads|;
    Run(s, [Spawn(manager, [key]), Step(t, FINE), Step(t, FINE), Step(t, FINE), Step(t, FINE), Step(t, FINE)])
  }

  lemma RunOne(s: State, a: Action, rest: seq<Action>)
    ensures Run(s, [a] + rest) == Run(Apply(s, a), rest)
  {
  }

  lemma RunFive(s: State, a: Action)
    ensures Run(s, [a, a, a, a, a]) == Apply(Apply(Apply(Apply(Apply(s, a), a), a), a), a)
  {
    assert [a, a, a, a, a] == [a] + ([a] + ([a] + ([a] + ([a] + []))));
    RunOne(s, a, [a] + ([a] + ([a] + ([a] + []))));
    RunOne(Apply(s, a), a, [a] + ([a] + ([a] + [])));
    RunOne(Apply(Apply(s, a), a), a, [a] + ([a] + []));
    RunOne(Apply(Apply(Apply(s, a), a), a), a, [a] + []);
    RunOne(Apply(Apply(Apply(Apply(s, a), a), a), a), a, []);
  }

  ghost predicate OnlyTouches(s: State, s': State, manager: nat) {
    && |s'.managers| == |s.managers|
    && forall m | 0 <= m < |s.managers| && m != manager :: s'.managers[m] == s.managers[m]
  }

  ghost function SettledConfig(local: Config, remote: Option<Document>): Config {
    match Decide(local, remote)
    case Adopt(doc) => Decode(doc)
    case Upload(doc) => local.(doc := doc)
    case _ => local
  }

  ghost function SettledRemote(local: Config, remote: Option<Document>): Option<Document> {
    match Decide(local, remote)
    case Upload(doc) => if Encode(doc).Some? then Encode(doc) else remote
    case _ => remote
  }

  /** The thread has read both sides. */
  ghost function AtCompare(s: State, manager: nat, key: string): State
    requires HasEntry(s, key, manager)
  {
    s.(threads := s.threads + [Thread(manager, [key], Loaded(Lookup(s.remote, key), s.managers[manager].cur[key]))])
  }

  lemma SoloReads(s: State, manager: nat, key: string)
    requires HasEntry(s, key, manager)
    ensures
      var t := |s.threads|;
      Apply(Apply(Apply(s, Spawn(manager, [key])), Step(t, FINE)), Step(t, FINE)) == AtCompare(s, manager, key)
  {
  }

  /** What a manager becomes when it uploads: its object carries the uploaded version. */
  ghost function Uploaded(m: Manager, ptr: nat, doc: Document): Manager
    requires ptr < |m.heap|
  {
    m.(heap := m.heap[ptr := m.heap[ptr].(doc := doc)])
  }

  ghost predicate Comparing(s: State, t: nat, manager: nat, key: string, remote: Option<Document>, ptr: nat) {
    && t < |s.threads| && s.threads[t] == Thread(manager, [key], Loaded(remote, ptr))
    && manager < |s.managers| && key in s.managers[manager].cur && ptr < |s.managers[manager].heap|
  }

  /** Comparing and marshalling, where the manager has something to upload. */
  lemma UploadIsMarshalled(s: State, t: nat, manager: nat, key: string, remote: Option<Document>, ptr: nat, doc: Document)
    requires Comparing(s, t, manager, key, remote, ptr)
    requires Decide(s.managers[manager].heap[ptr], remote) == Upload(doc) && Encode(doc).Some?
    ensures
      Apply(Apply(s, Step(t, FINE)), Step(t, FINE)) ==
      s.(managers := s.managers[manager := Uploaded(s.managers[manager], ptr, doc)],
         threads := s.threads[t := Thread(manager, [key], Writing(Encode(doc).value))])
  {
    var m' := Uploaded(s.managers[manager], ptr, doc);
    var s1 := Apply(s, Step(t, FINE));
    assert s1 == s.(managers := s.managers[manager := m'], threads := s.threads[t := Thread(manager, [key], Marshalling(ptr))]);
    var s2 := Apply(s1, Step(t, FINE));
    assert s1.managers[manager := m'] == s1.managers;
    assert s2.threads == s.threads[t := Thread(manager, [key], Writing(Encode(doc).value))];
  }

  /** One attempt to write that takes effect. */
  lemma WriteTakesEffect(s: State, t: nat, manager: nat, key: string, doc: Document, reply: Reply)
    requires t < |s.threads| && s.threads[t] == Thread(manager, [key], Writing(doc))
    requires manager < |s.managers| && key in s.managers[manager].cur
    requires reply.putOk || (reply.written && reply.retry)
    ensures
      Apply(s, Step(t, reply)) ==
      State(s.remote[key := doc], s.published + [(key, doc)], s.managers,
            if reply.putOk then s.threads[t := Thread(manager, [], Fetching)] else s.threads)
  {
    assert s.managers[manager := s.managers[manager]] == s.managers;
    assert [key][1..] == [];
  }

  lemma UploadCompletes(s: State, t: nat, manager: nat, key: string, remote: Option<Document>, ptr: nat, doc: Document)
    requires Comparing(s, t, manager, key, remote, ptr)
    requires Decide(s.managers[manager].heap[ptr], remote) == Upload(doc) && Encode(doc).Some?
    ensures
      var a, sent := Step(t, FINE), Encode(doc).value;
      Apply(Apply(Apply(s, a), a), a) ==
      State(s.remote[key := sent], s.published + [(key, sent)],
            s.managers[manager := Uploaded(s.managers[manager], ptr, doc)],
            s.threads[t := Thread(manager, [], Fetching)])
  {
    UploadIsMarshalled(s, t, manager, key, remote, ptr, doc);
    var s2 := Apply(Apply(s, Step(t, FINE)), Step(t, FINE));
    WriteTakesEffect(s2, t, manager, key, Encode(doc).value, FINE);
    assert s2.threads[t := Thread(manager, [], Fetching)] == s.threads[t := Thread(manager, [], Fetching)];
  }

  lemma FailedUploadStops(s: State, t: nat, manager: nat, key: string, remote: Option<Document>, ptr: nat, doc: Document)
    requires Comparing(s, t, manager, key, remote, ptr)
    requires Decide(s.managers[manager].heap[ptr], remote) == Upload(doc) && Encode(doc).None?
    ensures
      var a := Step(t, FINE);
      && Apply(s, a) ==
         s.(managers := s.managers[manager := Uploaded(s.managers[manager], ptr, doc)],
            threads := s.threads[t := Thread(manager, [key], Marshalling(ptr))])
      && Apply(Apply(s, a), a) ==
         s.(managers := s.managers[manager := Uploaded(s.managers[manager], ptr, doc)],
            threads := s.threads[t := Thread(manager, [], Fetching)])
      && Apply(Apply(Apply(s, a), a), a) == Apply(Apply(s, a), a)
  {
    var m' := Uploaded(s.managers[manager], ptr, doc);
    var s1 := Apply(s, Step(t, FINE));
    assert s1 == s.(managers := s.managers[manager := m'], threads := s.threads[t := Thread(manager, [key], Marshalling(ptr))]);
    var s2 := Apply(s1, Step(t, FINE));
    assert s1.managers[manager := m'] == s1.managers;
    assert s2.threads == s.threads[t := Thread(manager, [], Fetching)];
  }

  lemma AdoptionReplaces(s: State, t: nat, manager: nat, key: string, remote: Option<Document>, ptr: nat, doc: Document)
    requires Comparing(s, t, manager, key, remote, ptr)
    requires Decide(s.managers[manager].heap[ptr], remote) == Adopt(doc)
    ensures Apply(s, Step(t, FINE)) == s.(threads := s.threads[t := Thread(manager, [key], Replacing(doc))])
    ensures
      var a := Step(t, FINE);
      && Apply(Apply(s, a), a) ==
         s.(managers := s.managers[manager := Replace(s.managers[manager], key, Decode(doc))],
            threads := s.threads[t := Thread(manager, [], Fetching)])
      && Apply(Apply(Apply(s, a), a), a) == Apply(Apply(s, a), a)
  {
    var s1 := Apply(s, Step(t, FINE));
    assert s.managers[manager := s.managers[manager]] == s.managers;
    assert [key][1..] == [];
    var s2 := Apply(s1, Step(t, FINE));
    assert s2.threads == s.threads[t := Thread(manager, [], Fetching)];
  }

  lemma NothingToDo(s: State, t: nat, manager: nat, key: string, remote: Option<Document>, ptr: nat)
    requires Comparing(s, t, manager, key, remote, ptr)
    requires var d := Decide(s.managers[manager].heap[ptr], remote); !d.Adopt? && !d.Upload?
    ensures
      var a := Step(t, FINE);
      && Apply(s, a) == s.(threads := s.threads[t := Thread(manager, [], Fetching)])
      && Apply(Apply(Apply(s, a), a), a) == Apply(s, a)
  {
    assert s.managers[manager := s.managers[manager]] == s.managers;
    assert [key][1..] == [];
    assert Apply(s, Step(t, FINE)) == s.(threads := s.threads[t := Thread(manager, [], Fetching)]);
  }

  lemma SoloActs(s: State, manager: nat, key: string)
    requires HasEntry(s, key, manager)
    ensures
      var a := Step(|s.threads|, FINE);
      var s' := Apply(Apply(Apply(AtCompare(s, manager, key), a), a), a);
      && OnlyTouches(s, s', manager)
      && HasEntry(s', key, manager)
      && Held(s', key, manager) == SettledConfig(Held(s, key, manager), Lookup(s.remote, key))
      && Lookup(s'.remote, key) == SettledRemote(Held(s, key, manager), Lookup(s.remote, key))
      && s'.threads == s.threads + [Thread(manager, [], Fetching)]
  {
    var t, s3 := |s.threads|, AtCompare(s, manager, key);
    var remote, ptr := Lookup(s.remote, key), s.managers[manager].cur[key];
    match Decide(Held(s, key, manager), remote)
    case Adopt(doc) => AdoptionReplaces(s3, t, manager, key, remote, ptr, doc);
    case Upload(doc) =>
      if Encode(doc).Some? {
        UploadCompletes(s3, t, manager, key, remote, ptr, doc);
      } else {
        FailedUploadStops(s3, t, manager, key, remote, ptr, doc);
      }
    case _ => NothingToDo(s3, t, manager, key, remote, ptr);
  }

  /** Run without interruption, the separate steps do what the atomic sync of the key does. */
  lemma SoloSettles(s: State, manager: nat, key: string)
    requires HasEntry(s, key, manager)
    ensures
      var s' := Solo(s, manager, key);
      && OnlyTouches(s, s', manager)
      && HasEntry(s', key, manager)
      && Held(s', key, manager) == SettledConfig(Held(s, key, manager), Lookup(s.remote, key))
      && Lookup(s'.remote, key) == SettledRemote(Held(s, key, manager), Lookup(s.remote, key))
      && s'.threads == s.threads + [Thread(manager, [], Fetching)]
  {
    var t := |s.threads|;
    var a := Step(t, FINE);
    assert [Spawn(manager, [key]), a, a, a, a, a] == [Spawn(manager, [key])] + [a, a, a, a, a];
    RunOne(s, Spawn(manager, [key]), [a, a, a, a, a]);
    RunFive(Apply(s, Spawn(manager, [key])), a);
    SoloReads(s, manager, key);
    SoloActs(s, manager, key);
  }

  lemma SettlingIsTheAtomicSync(local: ConfigManager.Local, store: map<string, Document>, key: string, io: ConfigManager.Io)
    requires key in local.configs && io.getOk && io.putOk
    ensures
      var o := ConfigManager.SyncKey(local, store, key, io);
      && o.local.configs[key] == SettledConfig(local.configs[key], Lookup(store, key))
      && Lookup(o.store, key) == SettledRemote(local.configs[key], Lookup(store, key))
  {
  }

  // ---------------------------------------------------------------- syncs of other keys

  /** Nothing has happened to the key, except that valid objects it shares may have been lifted. */
  ghost predicate Undisturbed(s: State, s': State, key: string) {
    && |s'.managers| == |s.managers| && Lookup(s'.remote, key) == Lookup(s.remote, key)
    && forall m | 0 <= m < |s.managers| && HasEntry(s, key, m) :: HasEntry(s', key, m) && SameOrLifted(Held(s, key, m), Held(s', key, m))
  }

  ghost predicate SameOrLifted(a: Config, b: Config) {
    b == a || (!CallValidate(a).failed && b == a.(doc := Lifted(a.doc)))
  }

  lemma UndisturbedOn(a: State, b: State, c: State, key: string)
    requires Undisturbed(a, b, key) && Undisturbed(b, c, key)
    ensures Undisturbed(a, c, key)
  {
    forall m | 0 <= m < |a.managers| && HasEntry(a, key, m)
      ensures HasEntry(c, key, m) && SameOrLifted(Held(a, key, m), Held(c, key, m))
    {
      assert HasEntry(b, key, m) && SameOrLifted(Held(a, key, m), Held(b, key, m));
      assert SameOrLifted(Held(b, key, m), Held(c, key, m));
    }
  }

  /** The thread works on another key, or on nothing. */
  ghost predicate Elsewhere(s: State, t: nat, at: string) {
    t < |s.threads| && (s.threads[t].todo == [] || s.threads[t].todo == [at])
  }

  ghost predicate Steps(s: State, s': State, t: nat, at: string, key: string) {
    && Undisturbed(s, s', key) && Elsewhere(s', t, at) && |s'.threads| == |s.threads|
    && forall n | 0 <= n < |s.threads| && n != t :: s'.threads[n] == s.threads[n]
  }

  lemma StepElsewhere(s: State, t: nat, at: string, key: string)
    requires at != key && Elsewhere(s, t, at)
    ensures Steps(s, Apply(s, Step(t, FINE)), t, at, key)
  {
    var th, s' := s.threads[t], Apply(s, Step(t, FINE));
    if WellFormed(s, th) {
      assert [at][1..] == [];
      StepGrowsHeap(s, th, FINE);
      forall m | 0 <= m < |s.managers| && HasEntry(s, key, m)
        ensures HasEntry(s', key, m) && SameOrLifted(Held(s, key, m), Held(s', key, m))
      {
        if m == th.manager {
          StepKeepsEntry(s, th, FINE, key);
        }
      }
    }
  }

  lemma StepsOn(a: State, b: State, t: nat, at: string, key: string)
    requires at != key && Steps(a, b, t, at, key)
    ensures Steps(a, Apply(b, Step(t, FINE)), t, at, key)
  {
    StepElsewhere(b, t, at, key);
    UndisturbedOn(a, b, Apply(b, Step(t, FINE)), key);
  }

  lemma FiveElsewhere(s: State, t: nat, at: string, key: string)
    requires at != key && Elsewhere(s, t, at)
    ensures
      var a := Step(t, FINE);
      Steps(s, Apply(Apply(Apply(Apply(Apply(s, a), a), a), a), a), t, at, key)
  {
    var a := Step(t, FINE);
    StepElsewhere(s, t, at, key);
    StepsOn(s, Apply(s, a), t, at, key);
    StepsOn(s, Apply(Apply(s, a), a), t, at, key);
    StepsOn(s, Apply(Apply(Apply(s, a), a), a), t, at, key);
    StepsOn(s, Apply(Apply(Apply(Apply(s, a), a), a), a), t, at, key);
  }

  lemma SoloElsewhere(s: State, manager: nat, at: string, key: string)
    requires at != key
    ensures Undisturbed(s, Solo(s, manager, at), key)
    ensures Idle(s, key) ==> Idle(Solo(s, manager, at), key)
  {
    var t, s0 := |s.threads|, Apply(s, Spawn(manager, [at]));
    var a := Step(t, FINE);
    assert [Spawn(manager, [at]), a, a, a, a, a] == [Spawn(manager, [at])] + [a, a, a, a, a];
    RunOne(s, Spawn(manager, [at]), [a, a, a, a, a]);
    RunFive(s0, a);
    FiveElsewhere(s0, t, at, key);
    UndisturbedOn(s, s0, Solo(s, manager, at), key);
  }

  // ---------------------------------------------------------------- convergence

  /**
   * Syncs one after the other, each of one manager and one key: a `SyncConfig` that runs by
   * itself is the syncs of its keys, up to the first that fails.
   */
  ghost function Pass(s: State, order: seq<(nat, string)>): State
    decreases |order|
  {
    if order == [] then s else Pass(Solo(s, order[0].0, order[0].1), order[1..])
  }

  /** The content can be stored, and what is read back is not empty. */
  predicate Legible(c: Content) {
    ReadBack(c).Some? && !IsOnlyEmpty(ReadBack(c).value)
  }

  /** Versions stay within v, and what is stored can be read back. */
  ghost function Sound(v: int): Document -> bool {
    (d: Document) => d.version <= v && Legible(d.content)
  }

  lemma SoundSurvives(v: int)
    requires v >= 1
    ensures Survives(Sound(v))
  {
    forall d: Document | Sound(v)(d)
      ensures Sound(v)(Lifted(d)) && (Encode(d).Some? ==> Sound(v)(Encode(d).value))
    {
      assert IsJson(Encode(d).value.content);
    }
  }

  ghost predicate TopAt(s: State, key: string, v: int, d: Document) {
    key in s.remote && s.remote[key] == d && d.version == v
  }

  ghost predicate InOrder(s: State, order: seq<(nat, string)>) {
    forall n | 0 <= n < |order| :: order[n].0 < |s.managers|
  }

  lemma SoloAllHold(s: State, manager: nat, key: string, P: Document -> bool)
    requires AllHold(s, key, P) && manager < |s.managers|
    requires Survives(P) || (key in s.remote && forall d: Document | P(d) && Encode(d).Some? :: P(Encode(d).value))
    ensures AllHold(Solo(s, manager, key), key, P)
    ensures key in s.remote ==> key in Solo(s, manager, key).remote
    ensures OnlyTouches(s, Solo(s, manager, key), manager)
  {
    SoloSettles(s, manager, key);
    var s' := Solo(s, manager, key);
    assert HasEntry(s, key, manager);
    assert key in s'.remote ==> Lookup(s'.remote, key) == Some(s'.remote[key]);
    forall m | 0 <= m < |s'.managers|
      ensures HasEntry(s', key, m) && P(Held(s', key, m).doc)
    {
      assert HasEntry(s, key, m) && P(Held(s, key, m).doc);
    }
  }

  /** Every manager that holds version v keeps its configuration. */
  ghost predicate KeepsTop(s: State, s': State, key: string, v: int) {
    && |s'.managers| == |s.managers|
    && (forall m | 0 <= m < |s.managers| && HasEntry(s, key, m) && Held(s, key, m).doc.version == v ::
         HasEntry(s', key, m) && Held(s', key, m) == Held(s, key, m))
    && (forall d | TopAt(s, key, v, d) :: TopAt(s', key, v, d))
  }

  lemma SoloKeepsTop(s: State, manager: nat, key: string, v: int)
    requires v >= 1 && AllHold(s, key, Sound(v)) && manager < |s.managers|
    ensures KeepsTop(s, Solo(s, manager, key), key, v)
    ensures forall d | TopAt(s, key, v, d) ::
              HasEntry(Solo(s, manager, key), key, manager) && Held(Solo(s, manager, key), key, manager).doc.version == v
  {
    SoundSurvives(v);
    SoloAllHold(s, manager, key, Sound(v));
    SoloSettles(s, manager, key);
    assert HasEntry(s, key, manager);
  }

  lemma SoloOfHolderReachesTop(s: State, manager: nat, key: string, v: int)
    requires v >= 1 && AllHold(s, key, Sound(v)) && manager < |s.managers|
    requires Held(s, key, manager).doc.version == v && !CallValidate(Held(s, key, manager)).failed
    ensures exists d :: TopAt(Solo(s, manager, key), key, v, d)
  {
    SoloSettles(s, manager, key);
    var s' := Solo(s, manager, key);
    assert HasEntry(s, key, manager) && Sound(v)(Held(s, key, manager).doc);
    assert Lookup(s'.remote, key).Some? && Lookup(s'.remote, key).value.version == v;
    assert TopAt(s', key, v, s'.remote[key]);
  }

  lemma UndisturbedAllHold(s: State, s': State, key: string, v: int)
    requires v >= 1 && AllHold(s, key, Sound(v)) && Undisturbed(s, s', key)
    ensures AllHold(s', key, Sound(v)) && KeepsTop(s, s', key, v)
  {
    assert key in s'.remote ==> Lookup(s'.remote, key) == Some(s'.remote[key]);
    forall m | 0 <= m < |s'.managers|
      ensures HasEntry(s', key, m) && Sound(v)(Held(s', key, m).doc)
    {
      assert HasEntry(s, key, m) && Sound(v)(Held(s, key, m).doc);
    }
  }

  /** One sync of a pass, whichever key it is of. */
  lemma SyncKeepsTop(s: State, manager: nat, at: string, key: string, v: int)
    requires v >= 1 && AllHold(s, key, Sound(v)) && manager < |s.managers|
    ensures AllHold(Solo(s, manager, at), key, Sound(v))
    ensures KeepsTop(s, Solo(s, manager, at), key, v)
  {
    if at == key {
      SoundSurvives(v);
      SoloAllHold(s, manager, key, Sound(v));
      SoloKeepsTop(s, manager, key, v);
    } else {
      SoloElsewhere(s, manager, at, key);
      UndisturbedAllHold(s, Solo(s, manager, at), key, v);
    }
  }

  lemma {:induction false} PassKeepsTop(s: State, order: seq<(nat, string)>, key: string, v: int)
    requires v >= 1 && AllHold(s, key, Sound(v)) && InOrder(s, order)
    ensures AllHold(Pass(s, order), key, Sound(v))
    ensures KeepsTop(s, Pass(s, order), key, v)
    decreases |order|
  {
    if order != [] {
      SyncKeepsTop(s, order[0].0, order[0].1, key, v);
      PassKeepsTop(Solo(s, order[0].0, order[0].1), order[1..], key, v);
    }
  }

  lemma {:induction false} PassOfHolderReachesTop(s: State, order: seq<(nat, string)>, key: string, v: int, holder: nat)
    requires v >= 1 && AllHold(s, key, Sound(v)) && InOrder(s, order)
    requires (holder, key) in order && Held(s, key, holder).doc.version == v && !CallValidate(Held(s, key, holder)).failed
    ensures exists d :: TopAt(Pass(s, order), key, v, d)
    decreases |order|
  {
    SyncKeepsTop(s, order[0].0, order[0].1, key, v);
    var s' := Solo(s, order[0].0, order[0].1);
    assert HasEntry(s, key, holder);
    assert Pass(s, order) == Pass(s', order[1..]);
    if order[0] == (holder, key) {
      SoloOfHolderReachesTop(s, holder, key, v);
      PassKeepsTop(s', order[1..], key, v);
      var d :| TopAt(s', key, v, d);
      assert TopAt(Pass(s, order), key, v, d);
    } else {
      PassOfHolderReachesTop(s', order[1..], key, v, holder);
    }
  }

  lemma {:induction false} PassFromTopLiftsEveryone(s: State, order: seq<(nat, string)>, key: string, v: int, d: Document, manager: nat)
    requires v >= 1 && AllHold(s, key, Sound(v)) && InOrder(s, order)
    requires TopAt(s, key, v, d) && (manager, key) in order
    ensures HasEntry(Pass(s, order), key, manager) && Held(Pass(s, order), key, manager).doc.version == v
    decreases |order|
  {
    SyncKeepsTop(s, order[0].0, order[0].1, key, v);
    var s' := Solo(s, order[0].0, order[0].1);
    if order[0] == (manager, key) {
      SoloKeepsTop(s, manager, key, v);
      PassKeepsTop(s', order[1..], key, v);
      assert HasEntry(s', key, manager);
    } else {
      PassFromTopLiftsEveryone(s', order[1..], key, v, d, manager);
    }
  }

  ghost predicate EveryoneAt(s: State, key: string, v: int) {
    && key in s.remote && s.remote[key].version == v
    && forall m | 0 <= m < |s.managers| :: HasEntry(s, key, m) && Held(s, key, m).doc.version == v
  }

  ghost predicate Covers(s: State, order: seq<(nat, string)>, key: string) {
    InOrder(s, order) && forall m: nat | m < |s.managers| :: (m, key) in order
  }

  /**
   * Two passes of syncs, of any managers and keys in any order and any number of times, bring
   * every manager and the remote side to the greatest version of a key that they sync: the first
   * pass carries it up, the second down.
   */
  lemma TwoPassesConverge(s: State, first: seq<(nat, string)>, second: seq<(nat, string)>, key: string, v: int, holder: nat)
    requires v >= 1 && AllHold(s, key, Sound(v))
    requires InOrder(s, first) && (holder, key) in first && Covers(s, second, key)
    requires Held(s, key, holder).doc.version == v && !CallValidate(Held(s, key, holder)).failed
    ensures EveryoneAt(Pass(Pass(s, first), second), key, v)
    ensures KeepsTop(s, Pass(Pass(s, first), second), key, v)
  {
    PassKeepsTop(s, first, key, v);
    PassOfHolderReachesTop(s, first, key, v, holder);
    var mid := Pass(s, first);
    var d :| TopAt(mid, key, v, d);
    PassKeepsTop(mid, second, key, v);
    forall m: nat | m < |mid.managers|
      ensures HasEntry(Pass(mid, second), key, m) && Held(Pass(mid, second), key, m).doc.version == v
    {
      PassFromTopLiftsEveryone(mid, second, key, v, d, m);
    }
  }

  /**
   * After any interleaved run from a state in which the manager `holder` has the greatest
   * version, two passes bring everyone to it: nothing that happened in between can prevent it.
   * If no sync of the key is still under way by then, everyone stays there for good.
   */
  lemma AnyRunThenTwoPasses(s: State, actions: seq<Action>, first: seq<(nat, string)>, second: seq<(nat, string)>,
                            key: string, holder: nat, c: Config)
    requires c.doc.version >= 1 && Follows(s, key, Everywhere(Sound(c.doc.version))) && Holds(s, key, holder, c)
    requires forall m | 0 <= m < |s.managers| :: key in s.managers[m].cur
    requires RefreshesFollow(actions, key, Everywhere(Sound(c.doc.version)))
    requires RefreshesWithin(actions, key, c.doc.version, holder)
    requires !CallValidate(c).failed
    requires InOrder(Run(s, actions), first) && (holder, key) in first && Covers(Run(s, actions), second, key)
    ensures EveryoneAt(Pass(Pass(Run(s, actions), first), second), key, c.doc.version)
    ensures Idle(Run(s, actions), key) ==>
              forall more: seq<Action> | NoRefresh(more, key) ::
                EveryoneAt(Run(Pass(Pass(Run(s, actions), first), second), more), key, c.doc.version)
  {
    SoundSurvives(c.doc.version);
    DocumentsKeepTheirOrigin(s, actions, key, Sound(c.doc.version));
    SoundIsAtMost(s, key, c.doc.version);
    GreatestVersionIsNeverLost(s, actions, key, holder, c);
    EntriesRemain(s, actions, key);
    FollowsIsAllHold(Run(s, actions), key, Sound(c.doc.version));
    TwoPassesConverge(Run(s, actions), first, second, key, c.doc.version, holder);
    forall more: seq<Action> | Idle(Run(s, actions), key) && NoRefresh(more, key)
      ensures EveryoneAt(Run(Pass(Pass(Run(s, actions), first), second), more), key, c.doc.version)
    {
      DrainedThenTwoPassesSettle(Run(s, actions), first, second, more, key, c.doc.version, holder);
    }
  }

  lemma SoundIsAtMost(s: State, key: string, v: int)
    requires Follows(s, key, Everywhere(Sound(v)))
    ensures Follows(s, key, AtMost(v))
  {
    forall m | 0 <= m < |s.managers|
      ensures ManagerFollows(AtMost(v), m, s.managers[m], key)
    {
      assert ManagerFollows(Everywhere(Sound(v)), m, s.managers[m], key);
    }
    forall t | 0 <= t < |s.threads|
      ensures ThreadFollows(AtMost(v), s.threads[t], s.managers, key)
    {
      assert ThreadFollows(Everywhere(Sound(v)), s.threads[t], s.managers, key);
    }
  }

  lemma FollowsIsAllHold(s: State, key: string, P: Document -> bool)
    requires Follows(s, key, Everywhere(P)) && forall m | 0 <= m < |s.managers| :: key in s.managers[m].cur
    ensures AllHold(s, key, P)
  {
    forall m | 0 <= m < |s.managers|
      ensures HasEntry(s, key, m) && P(Held(s, key, m).doc)
    {
      assert ManagerFollows(Everywhere(P), m, s.managers[m], key);
    }
  }

  lemma {:induction false} EntriesRemain(s: State, actions: seq<Action>, key: string)
    requires forall m | 0 <= m < |s.managers| :: key in s.managers[m].cur
    ensures |Run(s, actions).managers| == |s.managers|
    ensures forall m | 0 <= m < |s.managers| :: key in Run(s, actions).managers[m].cur
    decreases |actions|
  {
    if actions != [] {
      EntriesRemain(Apply(s, actions[0]), actions[1..], key);
    }
  }

  // ---------------------------------------------------------------- for good

  ghost predicate NoRefresh(actions: seq<Action>, key: string) {
    forall n | 0 <= n < |actions| :: !(actions[n].Refresh? && actions[n].key == key)
  }

  /** Everything held and stored is at v, and nothing newer was ever published. */
  ghost function At(v: int): Rules {
    Rules((i, c: Config) => c.doc.version == v, (d: Document) => d.version == v, (d: Document) => d.version <= v,
          (i, d: Document) => d.version == v, (d: Document) => d.version == v, false)
  }

  lemma AtIsConsistent(v: int)
    requires v >= 1
    ensures Consistent(At(v))
  {
  }

  lemma EveryoneAtFollows(s: State, key: string, v: int)
    requires EveryoneAt(s, key, v) && Idle(s, key) && Follows(s, key, AtMost(v))
    ensures Follows(s, key, At(v))
  {
    forall m | 0 <= m < |s.managers|
      ensures ManagerFollows(At(v), m, s.managers[m], key)
    {
      assert HasEntry(s, key, m);
    }
  }

  /**
   * Once everyone is at v, and no sync of the key is under way, no run without a refresh of the
   * key ever leaves that state, whatever is delivered and whoever syncs.
   */
  lemma EveryoneStays(s: State, more: seq<Action>, key: string, v: int)
    requires v >= 1 && EveryoneAt(s, key, v) && Idle(s, key) && Follows(s, key, AtMost(v)) && NoRefresh(more, key)
    ensures EveryoneAt(Run(s, more), key, v)
  {
    EveryoneAtFollows(s, key, v);
    AtIsConsistent(v);
    RunFollows(s, more, key, At(v));
    forall m | 0 <= m < |s.managers|
      ensures key in s.managers[m].cur
    {
      assert HasEntry(s, key, m);
    }
    EntriesRemain(s, more, key);
    var s' := Run(s, more);
    forall m | 0 <= m < |s'.managers|
      ensures HasEntry(s', key, m) && Held(s', key, m).doc.version == v
    {
      assert ManagerFollows(At(v), m, s'.managers[m], key);
    }
  }

  lemma SoloFollows(s: State, manager: nat, at: string, key: string, r: Rules)
    requires Consistent(r) && Follows(s, key, r)
    ensures Follows(Solo(s, manager, at), key, r)
  {
    var a := Step(|s.threads|, FINE);
    RunFollows(s, [Spawn(manager, [at]), a, a, a, a, a], key, r);
  }

  lemma SoloLeavesIdle(s: State, manager: nat, at: string, key: string)
    requires manager < |s.managers| && HasEntry(s, key, manager) && Idle(s, key)
    ensures Idle(Solo(s, manager, at), key)
  {
    if at == key {
      SoloSettles(s, manager, key);
    } else {
      SoloElsewhere(s, manager, at, key);
    }
  }

  lemma {:induction false} PassLeavesIdle(s: State, order: seq<(nat, string)>, key: string, v: int)
    requires v >= 1 && AllHold(s, key, Sound(v)) && InOrder(s, order) && Idle(s, key) && Follows(s, key, AtMost(v))
    ensures Idle(Pass(s, order), key) && Follows(Pass(s, order), key, AtMost(v))
    decreases |order|
  {
    if order != [] {
      assert HasEntry(s, key, order[0].0);
      SoloLeavesIdle(s, order[0].0, order[0].1, key);
      AtMostIsConsistent(v);
      SoloFollows(s, order[0].0, order[0].1, key, AtMost(v));
      SyncKeepsTop(s, order[0].0, order[0].1, key, v);
      PassLeavesIdle(Solo(s, order[0].0, order[0].1), order[1..], key, v);
    }
  }

  /**
   * When the syncs under way have drained, two passes settle the key for good: from then on
   * everyone is at the greatest version until somebody refreshes the key.
   */
  lemma DrainedThenTwoPassesSettle(s: State, first: seq<(nat, string)>, second: seq<(nat, string)>, more: seq<Action>,
                                   key: string, v: int, holder: nat)
    requires v >= 1 && AllHold(s, key, Sound(v)) && Follows(s, key, AtMost(v)) && Idle(s, key)
    requires InOrder(s, first) && (holder, key) in first && Covers(s, second, key)
    requires Held(s, key, holder).doc.version == v && !CallValidate(Held(s, key, holder)).failed
    requires NoRefresh(more, key)
    ensures EveryoneAt(Run(Pass(Pass(s, first), second), more), key, v)
  {
    TwoPassesConverge(s, first, second, key, v, holder);
    PassLeavesIdle(s, first, key, v);
    PassKeepsTop(s, first, key, v);
    PassLeavesIdle(Pass(s, first), second, key, v);
    EveryoneStays(Pass(Pass(s, first), second), more, key, v);
  }

  // ---------------------------------------------------------------- agreement on documents

  /** A document of version v, as it is stored or as an entry for the key would be stored. */
  ghost predicate IsTop(s: State, key: string, v: int, d: Document) {
    && d.version == v
    && (TopAt(s, key, v, d) || exists m :: 0 <= m < |s.managers| && HasEntry(s, key, m) && Encode(Held(s, key, m).doc) == Some(d))
  }

  ghost predicate OneTop(s: State, key: string, v: int) {
    forall d, e | IsTop(s, key, v, d) && IsTop(s, key, v, e) :: d == e
  }

  /** Every manager would store just what is stored. */
  ghost predicate Agree(s: State, key: string) {
    && key in s.remote
    && forall m | 0 <= m < |s.managers| :: HasEntry(s, key, m) && Encode(Held(s, key, m).doc) == Some(s.remote[key])
  }

  ghost function SoundAndOnly(v: int, top: Document): Document -> bool {
    (d: Document) => Sound(v)(d) && (d.version == v ==> Encode(d) == Some(top))
  }

  lemma SoundAndOnlySurvivesEncoding(v: int, top: Document)
    ensures forall d: Document | SoundAndOnly(v, top)(d) && Encode(d).Some? :: SoundAndOnly(v, top)(Encode(d).value)
  {
    forall d: Document | SoundAndOnly(v, top)(d) && Encode(d).Some?
      ensures SoundAndOnly(v, top)(Encode(d).value)
    {
      var e := Encode(d).value;
      assert Sound(v)(d) && IsJson(e.content);
      assert Encode(e) == Some(e) && Sound(v)(e);
    }
  }

  ghost predicate OnlyOf(order: seq<(nat, string)>, key: string) {
    forall n | 0 <= n < |order| :: order[n].1 == key
  }

  lemma {:induction false} PassAllHold(s: State, order: seq<(nat, string)>, key: string, P: Document -> bool)
    requires AllHold(s, key, P) && key in s.remote && InOrder(s, order) && OnlyOf(order, key)
    requires forall d: Document | P(d) && Encode(d).Some? :: P(Encode(d).value)
    ensures AllHold(Pass(s, order), key, P) && key in Pass(s, order).remote
    ensures |Pass(s, order).managers| == |s.managers|
    decreases |order|
  {
    if order != [] {
      SoloAllHold(s, order[0].0, key, P);
      PassAllHold(Solo(s, order[0].0, key), order[1..], key, P);
    }
  }

  /** A document of version v is still there after a pass. */
  lemma TopSurvives(s: State, s': State, key: string, v: int, d: Document)
    requires KeepsTop(s, s', key, v) && IsTop(s, key, v, d)
    ensures IsTop(s', key, v, d)
  {
    if !TopAt(s, key, v, d) {
      var m :| 0 <= m < |s.managers| && HasEntry(s, key, m) && Encode(Held(s, key, m).doc) == Some(d);
      assert HasEntry(s', key, m) && Held(s', key, m) == Held(s, key, m);
    }
  }

  lemma AgreeOnceStored(s: State, first: seq<(nat, string)>, second: seq<(nat, string)>, key: string, v: int, holder: nat)
    requires v >= 1 && AllHold(s, key, Sound(v)) && key in s.remote
    requires InOrder(s, first) && InOrder(s, second) && OnlyOf(first, key) && OnlyOf(second, key)
    requires HasEntry(s, key, holder) && Held(s, key, holder).doc.version == v
    requires EveryoneAt(Pass(Pass(s, first), second), key, v)
    ensures Agree(Pass(Pass(s, first), second), key) <==> OneTop(s, key, v)
  {
    var mid := Pass(s, first);
    var done := Pass(mid, second);
    PassKeepsTop(s, first, key, v);
    PassKeepsTop(mid, second, key, v);
    if OneTop(s, key, v) {
      var top := Encode(Held(s, key, holder).doc).value;
      OnlyTopIsSound(s, key, v, holder, top);
      SoundAndOnlySurvivesEncoding(v, top);
      PassAllHold(s, first, key, SoundAndOnly(v, top));
      PassAllHold(mid, second, key, SoundAndOnly(v, top));
      OnlyTopIsAgreed(done, key, v, top);
    } else {
      var d, e :| IsTop(s, key, v, d) && IsTop(s, key, v, e) && d != e;
      TopSurvives(s, mid, key, v, d);
      TopSurvives(s, mid, key, v, e);
      TopSurvives(mid, done, key, v, d);
      TopSurvives(mid, done, key, v, e);
      assert !Agree(done, key);
    }
  }

  lemma OnlyTopIsAgreed(s: State, key: string, v: int, top: Document)
    requires EveryoneAt(s, key, v) && AllHold(s, key, SoundAndOnly(v, top))
    ensures Agree(s, key)
  {
    assert Encode(s.remote[key]) == Some(top) && IsJson(s.remote[key].content);
    forall m | 0 <= m < |s.managers|
      ensures HasEntry(s, key, m) && Encode(Held(s, key, m).doc) == Some(s.remote[key])
    {
      assert HasEntry(s, key, m) && SoundAndOnly(v, top)(Held(s, key, m).doc);
    }
  }

  lemma OnlyTopIsSound(s: State, key: string, v: int, holder: nat, top: Document)
    requires AllHold(s, key, Sound(v)) && OneTop(s, key, v)
    requires HasEntry(s, key, holder) && Held(s, key, holder).doc.version == v && Encode(Held(s, key, holder).doc) == Some(top)
    ensures AllHold(s, key, SoundAndOnly(v, top))
  {
    assert IsTop(s, key, v, top);
    forall m | 0 <= m < |s.managers|
      ensures HasEntry(s, key, m) && SoundAndOnly(v, top)(Held(s, key, m).doc)
    {
      assert HasEntry(s, key, m) && Sound(v)(Held(s, key, m).doc);
      var e := Encode(Held(s, key, m).doc).value;
      assert e.version == v ==> IsTop(s, key, v, e);
    }
    if key in s.remote && s.remote[key].version == v {
      assert TopAt(s, key, v, s.remote[key]);
      assert IsTop(s, key, v, s.remote[key]);
    }
  }

  ghost predicate EveryoneHas(s: State, key: string) {
    forall m | 0 <= m < |s.managers| :: HasEntry(s, key, m)
  }

  /** What a pass uploads first where nothing is stored: the first valid configuration, lifted. */
  ghost function FirstUpload(s: State, order: seq<(nat, string)>, key: string): Option<Document>
    requires InOrder(s, order) && EveryoneHas(s, key)
    decreases |order|
  {
    if key in s.remote || order == [] then None
    else
      var c := Held(s, key, order[0].0);
      if CallValidate(c).failed then FirstUpload(s, order[1..], key) else Encode(Lifted(c.doc))
  }

  /** A document of version v that is stored, held, or about to be uploaded first. */
  ghost predicate Contends(s: State, first: seq<(nat, string)>, key: string, v: int, d: Document)
    requires InOrder(s, first) && EveryoneHas(s, key)
  {
    IsTop(s, key, v, d) || (d.version == v && FirstUpload(s, first, key) == Some(d))
  }

  ghost predicate OneContender(s: State, first: seq<(nat, string)>, key: string, v: int)
    requires InOrder(s, first) && EveryoneHas(s, key)
  {
    forall d, e | Contends(s, first, key, v, d) && Contends(s, first, key, v, e) :: d == e
  }

  /** Nothing is stored under the key, and every manager has the same entry, in both states. */
  ghost predicate SameEntries(s: State, s': State, key: string) {
    && key !in s.remote && key !in s'.remote && |s'.managers| == |s.managers|
    && forall m | 0 <= m < |s.managers| :: HasEntry(s, key, m) && HasEntry(s', key, m) && Held(s', key, m) == Held(s, key, m)
  }

  lemma {:induction false} SameFirstUpload(s: State, s': State, order: seq<(nat, string)>, key: string)
    requires InOrder(s, order) && SameEntries(s, s', key)
    ensures FirstUpload(s', order, key) == FirstUpload(s, order, key)
    decreases |order|
  {
    if order != [] && CallValidate(Held(s, key, order[0].0)).failed {
      SameFirstUpload(s, s', order[1..], key);
    }
  }

  /** A manager whose configuration is invalid changes nothing where nothing is stored. */
  lemma InvalidLeavesEntries(s: State, order: seq<(nat, string)>, key: string, v: int)
    requires order != [] && InOrder(s, order) && EveryoneHas(s, key) && key !in s.remote
    requires CallValidate(Held(s, key, order[0].0)).failed
    ensures
      var s' := Solo(s, order[0].0, key);
      && SameEntries(s, s', key)
      && (OneContender(s', order[1..], key, v) <==> OneContender(s, order, key, v))
  {
    SoloSettles(s, order[0].0, key);
    var s' := Solo(s, order[0].0, key);
    assert Lookup(s'.remote, key) == None;
    assert HasEntry(s, key, order[0].0);
    forall m | 0 <= m < |s.managers|
      ensures HasEntry(s, key, m) && HasEntry(s', key, m) && Held(s', key, m) == Held(s, key, m)
    {
      assert HasEntry(s, key, m);
    }
    SameFirstUpload(s, s', order[1..], key);
    forall d
      ensures Contends(s', order[1..], key, v, d) <==> Contends(s, order, key, v, d)
    {
    }
  }

  /** The first valid one uploads: from then on the contenders are the documents there are. */
  lemma UploadTurnsContendersIntoTops(s: State, order: seq<(nat, string)>, key: string, v: int)
    requires v >= 1 && order != [] && InOrder(s, order) && EveryoneHas(s, key) && key !in s.remote
    requires !CallValidate(Held(s, key, order[0].0)).failed && Encode(Held(s, key, order[0].0).doc).Some?
    ensures
      var s' := Solo(s, order[0].0, key);
      && key in s'.remote
      && (OneTop(s', key, v) <==> OneContender(s, order, key, v))
  {
    SoloSettles(s, order[0].0, key);
    var s' := Solo(s, order[0].0, key);
    var up := Encode(Lifted(Held(s, key, order[0].0).doc));
    assert Lookup(s'.remote, key) == up;
    forall d
      ensures IsTop(s', key, v, d) <==> Contends(s, order, key, v, d)
    {
      TopsAfterUpload(s, s', order[0].0, key, v, d);
    }
  }

  lemma TopsAfterUpload(s: State, s': State, manager: nat, key: string, v: int, d: Document)
    requires v >= 1 && manager < |s.managers| && EveryoneHas(s, key) && key !in s.remote
    requires OnlyTouches(s, s', manager) && HasEntry(s', key, manager)
    requires Held(s', key, manager).doc == Lifted(Held(s, key, manager).doc)
    requires key in s'.remote && Some(s'.remote[key]) == Encode(Lifted(Held(s, key, manager).doc))
    ensures IsTop(s', key, v, d)
       <==> IsTop(s, key, v, d) || (d.version == v && Some(d) == Encode(Lifted(Held(s, key, manager).doc)))
  {
    if IsTop(s, key, v, d) {
      var m :| 0 <= m < |s.managers| && HasEntry(s, key, m) && Encode(Held(s, key, m).doc) == Some(d);
      assert HasEntry(s', key, m) && Encode(Held(s', key, m).doc) == Some(d);
    }
    if IsTop(s', key, v, d) && !TopAt(s', key, v, d) {
      var m :| 0 <= m < |s'.managers| && HasEntry(s', key, m) && Encode(Held(s', key, m).doc) == Some(d);
      assert HasEntry(s, key, m);
    }
  }

  /**
   * Converged versions do not mean converged documents: equal versions are never reconciled.
   * Two passes leave everyone with the same document exactly when, before them, all documents
   * of the greatest version were already the same one; where nothing is stored yet, what the
   * first pass will upload first counts as one of them.
   */
  lemma {:induction false} TwoPassesAgreeIff(s: State, first: seq<(nat, string)>, second: seq<(nat, string)>,
                                             key: string, v: int, holder: nat)
    requires v >= 1 && AllHold(s, key, Sound(v)) && OnlyOf(first, key) && OnlyOf(second, key)
    requires InOrder(s, first) && (holder, key) in first && Covers(s, second, key)
    requires Held(s, key, holder).doc.version == v && !CallValidate(Held(s, key, holder)).failed
    ensures Agree(Pass(Pass(s, first), second), key) <==> OneContender(s, first, key, v)
    decreases |first|
  {
    TwoPassesConverge(s, first, second, key, v, holder);
    if key in s.remote {
      AgreeOnceStored(s, first, second, key, v, holder);
      assert forall d :: Contends(s, first, key, v, d) <==> IsTop(s, key, v, d);
    } else {
      AgreeWhereNothingIsStored(s, first, second, key, v, holder);
    }
  }

  lemma {:induction false} AgreeWhereNothingIsStored(s: State, first: seq<(nat, string)>, second: seq<(nat, string)>,
                                                     key: string, v: int, holder: nat)
    requires v >= 1 && AllHold(s, key, Sound(v)) && OnlyOf(first, key) && OnlyOf(second, key)
    requires InOrder(s, first) && (holder, key) in first && Covers(s, second, key)
    requires Held(s, key, holder).doc.version == v && !CallValidate(Held(s, key, holder)).failed
    requires key !in s.remote && EveryoneAt(Pass(Pass(s, first), second), key, v)
    ensures Agree(Pass(Pass(s, first), second), key) <==> OneContender(s, first, key, v)
    decreases |first|, 0
  {
    var m := first[0].0;
    var s' := Solo(s, m, key);
    assert HasEntry(s, key, m) && Sound(v)(Held(s, key, m).doc);
    SyncKeepsTop(s, m, key, key, v);
    if CallValidate(Held(s, key, m)).failed {
      InvalidLeavesEntries(s, first, key, v);
      TwoPassesAgreeIff(s', first[1..], second, key, v, holder);
    } else {
      UploadTurnsContendersIntoTops(s, first, key, v);
      AgreeOnceStored(s', first[1..], second, key, v, holder);
    }
  }
}
