/**
 * The same synchronisation with its locks where the code takes them: getting the remote value,
 * reading the local pointer, comparing, replacing the local entry, marshalling and writing are
 * separate steps of any number of threads of any number of managers.
 *
 * Configurations are shared by pointer: a manager's heap holds every configuration object it
 * ever held, and a thread keeps the index it read even when the entry is replaced meanwhile.
 */
module ConfigInterleaving {
  import opened Common
  import opened ConfigModel

  datatype Manager = Manager(heap: seq<Config>, cur: map<string, nat>)

  datatype Phase =
    | Fetching
    | Fetched(remote: Option<Document>)
    | Loaded(remote: Option<Document>, ptr: nat)
    | Replacing(doc: Document)
    | Marshalling(ptr: nat)
    | Writing(doc: Document)

  /** A run of `SyncConfig`: it works on the first key still to do, and is over when none is left. */
  datatype Thread = Thread(manager: nat, todo: seq<string>, phase: Phase)

  /** `published` lists every value ever written, for watches to deliver in any order. */
  datatype State = State(
    remote: map<string, Document>,
    published: seq<(string, Document)>,
    managers: seq<Manager>,
    threads: seq<Thread>)

  /** A put may fail, may be retried, and may have been written although it failed. */
  datatype Reply = Reply(getOk: bool, putOk: bool, written: bool, retry: bool)

  datatype Action =
    | Spawn(manager: nat, keys: seq<string>)
    | Step(thread: nat, reply: Reply)
    | Deliver(manager: nat, index: nat)
    | Refresh(manager: nat, key: string, config: Config)

  // ---------------------------------------------------------------- steps

  /** Assigns a new configuration object to an entry of the manager's map. */
  function Replace(m: Manager, key: string, c: Config): Manager {
    Manager(m.heap + [c], m.cur[key := |m.heap|])
  }

  function NextKey(th: Thread): Thread
    requires th.todo != []
  {
    Thread(th.manager, th.todo[1..], Fetching)
  }

  function Stopped(th: Thread): Thread {
    Thread(th.manager, [], Fetching)
  }

  ghost predicate WellFormed(s: State, th: Thread) {
    && th.todo != []
    && th.manager < |s.managers|
    && var m := s.managers[th.manager];
       && th.todo[0] in m.cur
       && (th.phase.Loaded? || th.phase.Marshalling? ==> th.phase.ptr < |m.heap|)
  }

  /** What a step of a thread does to the thread, to its manager and to the remote side. */
  ghost function StepThread(s: State, th: Thread, r: Reply): (Thread, Manager, Option<Document>)
    requires WellFormed(s, th)
  {
    var m := s.managers[th.manager];
    var key := th.todo[0];
    match th.phase
    case Fetching =>
      (if r.getOk then th.(phase := Fetched(Lookup(s.remote, key))) else Stopped(th), m, None)
    case Fetched(remote) =>
      (th.(phase := Loaded(remote, m.cur[key])), m, None)
    case Loaded(remote, ptr) =>
      (match Decide(m.heap[ptr], remote)
       case Skip => (NextKey(th), m, None)
       case Keep => (NextKey(th), m, None)
       case Reject => (Stopped(th), m, None)
       case Adopt(doc) => (th.(phase := Replacing(doc)), m, None)
       case Upload(doc) =>
         (th.(phase := Marshalling(ptr)), m.(heap := m.heap[ptr := m.heap[ptr].(doc := doc)]), None))
    case Replacing(doc) =>
      (NextKey(th), Replace(m, key, Decode(doc)), None)
    case Marshalling(ptr) =>
      (match Encode(m.heap[ptr].doc)
       case None => (Stopped(th), m, None)
       case Some(sent) => (th.(phase := Writing(sent)), m, None))
    case Writing(doc) =>
      (if r.putOk then NextKey(th) else if r.retry then th else Stopped(th), m,
       if r.putOk || r.written then Some(doc) else None)
  }

  ghost function Apply(s: State, a: Action): State {
    match a
    case Spawn(manager, keys) =>
      s.(threads := s.threads + [Thread(manager, keys, Fetching)])
    case Step(t, r) =>
      if t >= |s.threads| || !WellFormed(s, s.threads[t]) then s else
        var th := s.threads[t];
        var (th', m', put) := StepThread(s, th, r);
        State(
          if put.Some? then s.remote[th.todo[0] := put.value] else s.remote,
          if put.Some? then s.published + [(th.todo[0], put.value)] else s.published,
          s.managers[th.manager := m'],
          s.threads[t := th'])
    case Deliver(manager, index) =>
      if manager >= |s.managers| || index >= |s.published| then s else
        var m, (key, doc) := s.managers[manager], s.published[index];
        if key in m.cur && m.cur[key] < |m.heap| && !CallValidate(Decode(doc)).failed
           && doc.version > m.heap[m.cur[key]].doc.version
        then s.(managers := s.managers[manager := Replace(m, key, Decode(doc))])
        else s
    case Refresh(manager, key, config) =>
      if manager < |s.managers| && key in s.managers[manager].cur
      then s.(managers := s.managers[manager := Replace(s.managers[manager], key, config)])
      else s
  }

  ghost function Run(s: State, actions: seq<Action>): State
    decreases |actions|
  {
    if actions == [] then s else Run(Apply(s, actions[0]), actions[1..])
  }

  // ---------------------------------------------------------------- rules that every step keeps

  /**
   * What may be said of one key: of the configurations a manager holds, of the documents that are
   * stored and published, of those a manager is about to adopt, and of those on their way to the
   * remote side. `absent` tells that nothing may be stored.
   */
  datatype Rules = Rules(
    local: (nat, Config) -> bool,
    stored: Document -> bool,
    published: Document -> bool,
    adopt: (nat, Document) -> bool,
    write: Document -> bool,
    absent: bool)

  /** What a sync decides stays within the rules. */
  predicate DecisionFollows(r: Rules, i: nat, decision: Decision) {
    match decision
    case Adopt(doc) => r.adopt(i, doc)
    case Upload(doc) => Encode(doc).Some? ==> r.write(doc)
    case _ => true
  }

  ghost predicate DecisionsFollow(r: Rules) {
    && (forall i: nat, c: Config, d: Document | r.local(i, c) && r.stored(d) && IsJson(d.content) ::
         DecisionFollows(r, i, Decide(c, Some(d))))
    && (r.absent ==> forall i: nat, c: Config | r.local(i, c) :: DecisionFollows(r, i, Decide(c, None)))
  }

  ghost predicate ReplacementsFollow(r: Rules) {
    && (forall i: nat, d: Document | r.adopt(i, d) && IsJson(d.content) :: r.local(i, Decode(d)))
    && (forall i: nat, c: Config, d: Document | r.local(i, c) && r.published(d) && Delivers(c, d) :: r.local(i, Decode(d)))
    && (forall i: nat, c: Config | r.local(i, c) && !CallValidate(c).failed :: r.local(i, c.(doc := Lifted(c.doc))))
  }

  ghost predicate WritesFollow(r: Rules) {
    && (forall d: Document | r.write(d) :: r.write(Lifted(d)))
    && (forall d: Document | r.write(d) && Encode(d).Some? :: r.write(Encode(d).value))
    && (forall d: Document | r.write(d) && IsJson(d.content) :: r.stored(d) && r.published(d))
  }

  /** A watch hands the document on to a manager that holds c. */
  predicate Delivers(c: Config, d: Document) {
    IsJson(d.content) && !CallValidate(Decode(d)).failed && d.version > c.doc.version
  }

  /** All that is said apart from decisions. */
  ghost predicate Sturdy(r: Rules) {
    ReplacementsFollow(r) && WritesFollow(r)
  }

  ghost predicate Consistent(r: Rules) {
    DecisionsFollow(r) && Sturdy(r)
  }

  // ---------------------------------------------------------------- states within the rules

  predicate RemoteFollows(r: Rules, remote: Option<Document>) {
    match remote
    case None => r.absent
    case Some(d) => IsJson(d.content) && r.stored(d)
  }

  ghost predicate PhaseFollows(r: Rules, i: nat, phase: Phase, heap: seq<Config>) {
    match phase
    case Fetching => true
    case Fetched(remote) => RemoteFollows(r, remote)
    case Loaded(remote, ptr) => RemoteFollows(r, remote) && ptr < |heap| && r.local(i, heap[ptr])
    case Replacing(doc) => IsJson(doc.content) && r.adopt(i, doc)
    case Marshalling(ptr) => ptr < |heap| && (Encode(heap[ptr].doc).Some? ==> r.write(heap[ptr].doc))
    case Writing(doc) => IsJson(doc.content) && r.write(doc)
  }

  ghost predicate ThreadFollows(r: Rules, th: Thread, managers: seq<Manager>, key: string) {
    th.todo != [] && th.todo[0] == key && th.manager < |managers| ==>
      PhaseFollows(r, th.manager, th.phase, managers[th.manager].heap)
  }

  ghost predicate ManagerFollows(r: Rules, i: nat, m: Manager, key: string) {
    key in m.cur ==> m.cur[key] < |m.heap| && r.local(i, m.heap[m.cur[key]])
  }

  ghost predicate PublishedFollow(r: Rules, published: seq<(string, Document)>, key: string) {
    forall n | 0 <= n < |published| && published[n].0 == key :: IsJson(published[n].1.content) && r.published(published[n].1)
  }

  ghost predicate ManagersFollow(r: Rules, managers: seq<Manager>, key: string) {
    forall i | 0 <= i < |managers| :: ManagerFollows(r, i, managers[i], key)
  }

  ghost predicate ThreadsFollow(r: Rules, s: State, key: string) {
    forall t | 0 <= t < |s.threads| :: ThreadFollows(r, s.threads[t], s.managers, key)
  }

  /** Everything that can still play a part for the key is within the rules. */
  ghost predicate Follows(s: State, key: string, r: Rules) {
    && RemoteFollows(r, Lookup(s.remote, key))
    && PublishedFollow(r, s.published, key)
    && ManagersFollow(r, s.managers, key)
    && ThreadsFollow(r, s, key)
  }

  // ---------------------------------------------------------------- one step

  /** Objects stay where they are, and change only by being lifted while they are valid. */
  ghost predicate HeapGrows(a: seq<Config>, b: seq<Config>) {
    && |a| <= |b|
    && forall p | 0 <= p < |a| ::
         b[p] == a[p] || (!CallValidate(a[p]).failed && b[p] == a[p].(doc := Lifted(a[p].doc)))
  }

  lemma PhaseSurvivesGrowth(r: Rules, i: nat, phase: Phase, a: seq<Config>, b: seq<Config>)
    requires Sturdy(r) && PhaseFollows(r, i, phase, a) && HeapGrows(a, b)
    ensures PhaseFollows(r, i, phase, b)
  {
  }

  lemma ThreadsSurviveGrowth(r: Rules, s: State, manager: nat, m': Manager, key: string)
    requires Sturdy(r) && ThreadsFollow(r, s, key)
    requires manager < |s.managers| && HeapGrows(s.managers[manager].heap, m'.heap)
    ensures ThreadsFollow(r, s.(managers := s.managers[manager := m']), key)
  {
    forall t | 0 <= t < |s.threads|
      ensures ThreadFollows(r, s.threads[t], s.managers[manager := m'], key)
    {
      var th := s.threads[t];
      assert ThreadFollows(r, th, s.managers, key);
      if th.todo != [] && th.todo[0] == key && th.manager == manager {
        PhaseSurvivesGrowth(r, manager, th.phase, s.managers[manager].heap, m'.heap);
      }
    }
  }

  /** A step of a thread changes only its manager's heap, and that only by growth. */
  lemma StepGrowsHeap(s: State, th: Thread, reply: Reply)
    requires WellFormed(s, th)
    ensures HeapGrows(s.managers[th.manager].heap, StepThread(s, th, reply).1.heap)
  {
    if th.phase.Loaded? {
      var c := s.managers[th.manager].heap[th.phase.ptr];
      match Decide(c, th.phase.remote)
      case Upload(doc) => assert doc == c.doc || (!CallValidate(c).failed && doc == Lifted(c.doc));
      case _ =>
    }
  }

  /** The entry of the key after a step: the same object, perhaps lifted, or the one the thread adopts. */
  lemma StepKeepsEntry(s: State, th: Thread, reply: Reply, key: string)
    requires WellFormed(s, th) && key in s.managers[th.manager].cur
    ensures
      var m, m' := s.managers[th.manager], StepThread(s, th, reply).1;
      && key in m'.cur
      && (m'.cur[key] == m.cur[key] ||
          (th.todo[0] == key && th.phase.Replacing? && m'.cur[key] == |m.heap| && m'.heap == m.heap + [Decode(th.phase.doc)]))
  {
  }

  lemma ManagerSurvivesStep(r: Rules, s: State, th: Thread, reply: Reply, key: string)
    requires Sturdy(r) && WellFormed(s, th)
    requires ManagerFollows(r, th.manager, s.managers[th.manager], key)
    requires ThreadFollows(r, th, s.managers, key)
    ensures ManagerFollows(r, th.manager, StepThread(s, th, reply).1, key)
  {
    if key in s.managers[th.manager].cur {
      StepGrowsHeap(s, th, reply);
      StepKeepsEntry(s, th, reply, key);
    }
  }

  /** What the thread is about to decide is within the rules. */
  ghost predicate Decides(r: Rules, s: State, th: Thread)
    requires WellFormed(s, th)
  {
    th.phase.Loaded? ==> DecisionFollows(r, th.manager, Decide(s.managers[th.manager].heap[th.phase.ptr], th.phase.remote))
  }

  lemma LoadedStepFollows(r: Rules, s: State, th: Thread, reply: Reply)
    requires Sturdy(r) && WellFormed(s, th) && th.phase.Loaded? && Decides(r, s, th)
    requires PhaseFollows(r, th.manager, th.phase, s.managers[th.manager].heap)
    ensures
      var (th', m', put) := StepThread(s, th, reply);
      put == None && PhaseFollows(r, th.manager, th'.phase, m'.heap)
  {
  }

  /** Where a step leaves the thread, if it still works on the key, and what it puts. */
  lemma PhaseSurvivesStep(r: Rules, s: State, th: Thread, reply: Reply)
    requires Sturdy(r) && WellFormed(s, th) && Decides(r, s, th)
    requires RemoteFollows(r, Lookup(s.remote, th.todo[0]))
    requires ManagerFollows(r, th.manager, s.managers[th.manager], th.todo[0])
    requires PhaseFollows(r, th.manager, th.phase, s.managers[th.manager].heap)
    ensures
      var (th', m', put) := StepThread(s, th, reply);
      && PhaseFollows(r, th.manager, th'.phase, m'.heap)
      && (put.Some? ==> IsJson(put.value.content) && r.write(put.value))
  {
    match th.phase
    case Loaded(_, _) => LoadedStepFollows(r, s, th, reply);
    case Marshalling(ptr) => MarshallingStepFollows(r, s, th, reply);
    case _ =>
  }

  lemma MarshallingStepFollows(r: Rules, s: State, th: Thread, reply: Reply)
    requires Sturdy(r) && WellFormed(s, th) && th.phase.Marshalling?
    requires PhaseFollows(r, th.manager, th.phase, s.managers[th.manager].heap)
    ensures
      var (th', m', put) := StepThread(s, th, reply);
      put == None && PhaseFollows(r, th.manager, th'.phase, m'.heap)
  {
  }

  lemma StepThreadFollows(r: Rules, s: State, th: Thread, reply: Reply, key: string)
    requires Sturdy(r) && WellFormed(s, th) && (th.todo[0] == key ==> Decides(r, s, th))
    requires RemoteFollows(r, Lookup(s.remote, key))
    requires ManagerFollows(r, th.manager, s.managers[th.manager], key)
    requires ThreadFollows(r, th, s.managers, key)
    ensures
      var (th', m', put) := StepThread(s, th, reply);
      && th'.manager == th.manager
      && ThreadFollows(r, th', s.managers[th.manager := m'], key)
      && (put.Some? && th.todo[0] == key ==> IsJson(put.value.content) && r.write(put.value))
  {
    var (th', m', put) := StepThread(s, th, reply);
    if th.todo[0] == key {
      PhaseSurvivesStep(r, s, th, reply);
    } else {
      OtherThreadMovesOn(s, th, reply, key);
    }
  }

  /** A thread that turns to the key begins by fetching. */
  lemma OtherThreadMovesOn(s: State, th: Thread, reply: Reply, key: string)
    requires WellFormed(s, th) && th.todo[0] != key
    ensures
      var th' := StepThread(s, th, reply).0;
      th'.manager == th.manager && (th'.todo != [] && th'.todo[0] == key ==> th'.phase == Fetching)
  {
  }

  lemma StepFollows(s: State, t: nat, reply: Reply, key: string, r: Rules)
    requires Sturdy(r) && Follows(s, key, r) && t < |s.threads| && WellFormed(s, s.threads[t])
    requires s.threads[t].todo[0] == key ==> Decides(r, s, s.threads[t])
    ensures Follows(Apply(s, Step(t, reply)), key, r)
  {
    var th := s.threads[t];
    var (th', m', put) := StepThread(s, th, reply);
    assert ThreadFollows(r, th, s.managers, key) && ManagerFollows(r, th.manager, s.managers[th.manager], key);
    StepThreadFollows(r, s, th, reply, key);
    ManagerSurvivesStep(r, s, th, reply, key);
    StepGrowsHeap(s, th, reply);
    ThreadsSurviveGrowth(r, s, th.manager, m', key);
    var s' := Apply(s, Step(t, reply));
    assert ManagersFollow(r, s'.managers, key);
    PutFollows(r, s, th.todo[0], put, key);
    ThreadsWithOneMoved(r, s.(managers := s'.managers), s', t, th', key);
  }

  lemma ThreadsWithOneMoved(r: Rules, s: State, s': State, t: nat, th': Thread, key: string)
    requires ThreadsFollow(r, s, key) && t < |s.threads| && ThreadFollows(r, th', s.managers, key)
    requires s'.managers == s.managers && s'.threads == s.threads[t := th']
    ensures ThreadsFollow(r, s', key)
  {
  }

  lemma PutFollows(r: Rules, s: State, at: string, put: Option<Document>, key: string)
    requires Sturdy(r) && RemoteFollows(r, Lookup(s.remote, key)) && PublishedFollow(r, s.published, key)
    requires put.Some? && at == key ==> IsJson(put.value.content) && r.write(put.value)
    ensures RemoteFollows(r, Lookup(if put.Some? then s.remote[at := put.value] else s.remote, key))
    ensures PublishedFollow(r, if put.Some? then s.published + [(at, put.value)] else s.published, key)
  {
  }

  lemma ReplaceFollows(s: State, manager: nat, at: string, c: Config, key: string, r: Rules)
    requires Sturdy(r) && Follows(s, key, r) && manager < |s.managers|
    requires at == key ==> r.local(manager, c)
    ensures Follows(s.(managers := s.managers[manager := Replace(s.managers[manager], at, c)]), key, r)
  {
    assert ManagerFollows(r, manager, s.managers[manager], key);
    ThreadsSurviveGrowth(r, s, manager, Replace(s.managers[manager], at, c), key);
  }

  lemma DeliverFollows(s: State, manager: nat, index: nat, key: string, r: Rules)
    requires Sturdy(r) && Follows(s, key, r)
    ensures Follows(Apply(s, Deliver(manager, index)), key, r)
  {
    if manager < |s.managers| && index < |s.published| && Apply(s, Deliver(manager, index)) != s {
      var (at, doc) := s.published[index];
      assert ManagerFollows(r, manager, s.managers[manager], key);
      if at == key {
        var c := s.managers[manager].heap[s.managers[manager].cur[key]];
        assert r.local(manager, c) && r.published(doc) && Delivers(c, doc);
      }
      ReplaceFollows(s, manager, at, Decode(doc), key, r);
    }
  }

  /** Consistent rules have every decision within them. */
  lemma ConsistentDecides(r: Rules, s: State, th: Thread)
    requires Consistent(r) && WellFormed(s, th) && PhaseFollows(r, th.manager, th.phase, s.managers[th.manager].heap)
    ensures Decides(r, s, th)
  {
    if th.phase.Loaded? {
      var c := s.managers[th.manager].heap[th.phase.ptr];
      assert r.local(th.manager, c);
    }
  }

  lemma ActionFollows(s: State, a: Action, key: string, r: Rules)
    requires Consistent(r) && Follows(s, key, r)
    requires a.Refresh? && a.key == key ==> r.local(a.manager, a.config)
    ensures Follows(Apply(s, a), key, r)
  {
    if a.Step? && a.thread < |s.threads| && WellFormed(s, s.threads[a.thread]) && s.threads[a.thread].todo[0] == key {
      assert ThreadFollows(r, s.threads[a.thread], s.managers, key);
      ConsistentDecides(r, s, s.threads[a.thread]);
    }
    DecidedActionFollows(s, a, key, r);
  }

  /** The thread that makes the step, if it works on the key, decides within the rules. */
  ghost predicate ActionDecides(r: Rules, s: State, a: Action, key: string) {
    a.Step? && a.thread < |s.threads| && WellFormed(s, s.threads[a.thread]) && s.threads[a.thread].todo[0] == key ==>
      Decides(r, s, s.threads[a.thread])
  }

  lemma DecidedActionFollows(s: State, a: Action, key: string, r: Rules)
    requires Sturdy(r) && Follows(s, key, r) && ActionDecides(r, s, a, key)
    requires a.Refresh? && a.key == key ==> r.local(a.manager, a.config)
    ensures Follows(Apply(s, a), key, r)
  {
    match a
    case Spawn(_, _) =>
    case Step(t, reply) =>
      if t < |s.threads| && WellFormed(s, s.threads[t]) {
        StepFollows(s, t, reply, key, r);
      }
    case Deliver(manager, index) => DeliverFollows(s, manager, index, key, r);
    case Refresh(manager, at, config) =>
      if manager < |s.managers| && at in s.managers[manager].cur {
        ReplaceFollows(s, manager, at, config, key, r);
      }
  }

  // ---------------------------------------------------------------- runs

  ghost predicate RefreshesFollow(actions: seq<Action>, key: string, r: Rules) {
    forall n | 0 <= n < |actions| && actions[n].Refresh? && actions[n].key == key :: r.local(actions[n].manager, actions[n].config)
  }

  lemma {:induction false} RunFollows(s: State, actions: seq<Action>, key: string, r: Rules)
    requires Consistent(r) && Follows(s, key, r) && RefreshesFollow(actions, key, r)
    ensures Follows(Run(s, actions), key, r)
    decreases |actions|
  {
    if actions != [] {
      ActionFollows(s, actions[0], key, r);
      RunFollows(Apply(s, actions[0]), actions[1..], key, r);
    }
  }

  /** The same said of every document, wherever it is. */
  ghost function Everywhere(P: Document -> bool): Rules {
    Rules((i, c: Config) => P(c.doc), P, P, (i, d) => P(d), P, true)
  }

  /** P survives what the code does to a document: lifting its version, and writing it as JSON. */
  ghost predicate Survives(P: Document -> bool) {
    forall d: Document | P(d) :: P(Lifted(d)) && (Encode(d).Some? ==> P(Encode(d).value))
  }

  lemma EverywhereIsConsistent(P: Document -> bool)
    requires Survives(P)
    ensures Consistent(Everywhere(P))
  {
  }

  /**
   * Nothing is invented: whatever holds of the documents known for a key, and survives lifting
   * and marshalling, holds of every document stored, held, delivered or in flight for that key
   * after any run.
   */
  lemma DocumentsKeepTheirOrigin(s: State, actions: seq<Action>, key: string, P: Document -> bool)
    requires Follows(s, key, Everywhere(P)) && Survives(P) && RefreshesFollow(actions, key, Everywhere(P))
    ensures Follows(Run(s, actions), key, Everywhere(P))
  {
    EverywhereIsConsistent(P);
    RunFollows(s, actions, key, Everywhere(P));
  }
}
