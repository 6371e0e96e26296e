/** When the version a manager holds can go down, from states in which nothing is stored yet. */
module ConfigAbsent {
  import opened Common
  import opened ConfigModel
  import opened ConfigInterleaving
  import opened ConfigConvergence
  import opened ConfigRegress

  /** The manager uploads its configuration where nothing is stored, with version t, and it can be read back. */
  ghost predicate StartsAt(s: State, key: string, u: nat, t: int) {
    && HasEntry(s, key, u) && !CallValidate(Held(s, key, u)).failed && Legible(Held(s, key, u).doc.content)
    && Lifted(Held(s, key, u).doc).version == t
  }

  /** x can upload version w, over nothing or over a smaller version, to be adopted by others. */
  ghost predicate CanUpload(s: State, key: string, x: nat, w: int) {
    && HasEntry(s, key, x) && Legible(Held(s, key, x).doc.content)
    && (StartsAt(s, key, x, w) || (Held(s, key, x).doc.version == w && exists u: nat, t :: StartsAt(s, key, u, t) && t < w))
  }

  /** Some other manager can. */
  ghost predicate CanReach(s: State, key: string, m: nat, w: int) {
    exists x: nat :: x != m && CanUpload(s, key, x, w)
  }

  /** At most one version ahead of the manager's own can reach it. */
  ghost predicate CalmWhenAbsent(s: State, key: string, m: nat)
    requires HasEntry(s, key, m)
  {
    var mine := Held(s, key, m).doc.version;
    forall v, w | CanReach(s, key, m, v) && CanReach(s, key, m, w) && v > mine && w > mine :: v == w
  }

  // ---------------------------------------------------------------- two versions ahead

  lemma SoloUploads(s: State, x: nat, key: string, doc: Document) returns (s': State)
    requires HasEntry(s, key, x) && Decide(Held(s, key, x), Lookup(s.remote, key)) == Upload(doc) && Legible(doc.content)
    ensures Reaches(s, s', key) && OnlyTouches(s, s', x)
    ensures HasEntry(s', key, x) && Held(s', key, x).doc == doc
    ensures key in s'.remote && s'.remote[key].version == doc.version && !IsOnlyEmpty(s'.remote[key].content)
  {
    s' := Solo(s, x, key);
    SoloSettles(s, x, key);
    var a := Step(|s.threads|, FINE);
    assert NoRefresh([Spawn(x, [key]), a, a, a, a, a], key);
    assert Lookup(s'.remote, key) == Encode(doc);
  }

  /** Version v is stored, while m still holds a smaller one and y is untouched. */
  lemma VersionIsStored(s: State, key: string, m: nat, x: nat, v: int, y: nat) returns (s': State)
    requires key !in s.remote && HasEntry(s, key, m) && HasEntry(s, key, y) && x != m && CanUpload(s, key, x, v)
    requires Held(s, key, m).doc.version < v < Held(s, key, y).doc.version
    ensures Reaches(s, s', key) && HasEntry(s', key, m) && HasEntry(s', key, y) && Held(s', key, y) == Held(s, key, y)
    ensures key in s'.remote && s'.remote[key].version == v && !IsOnlyEmpty(s'.remote[key].content)
    ensures Held(s', key, m).doc.version < v
  {
    if StartsAt(s, key, x, v) {
      s' := SoloUploads(s, x, key, Lifted(Held(s, key, x).doc));
    } else {
      s' := VersionIsStoredSecond(s, key, m, x, v, y);
    }
  }

  /** Somebody stores a smaller version first. */
  lemma VersionIsStoredSecond(s: State, key: string, m: nat, x: nat, v: int, y: nat) returns (s': State)
    requires key !in s.remote && HasEntry(s, key, m) && HasEntry(s, key, y) && x != m && CanUpload(s, key, x, v)
    requires Held(s, key, m).doc.version < v < Held(s, key, y).doc.version && !StartsAt(s, key, x, v)
    ensures Reaches(s, s', key) && HasEntry(s', key, m) && HasEntry(s', key, y) && Held(s', key, y) == Held(s, key, y)
    ensures key in s'.remote && s'.remote[key].version == v && !IsOnlyEmpty(s'.remote[key].content)
    ensures Held(s', key, m).doc.version < v
  {
    var u: nat, t :| StartsAt(s, key, u, t) && t < v;
    var s1 := SoloUploads(s, u, key, Lifted(Held(s, key, u).doc));
    assert HasEntry(s1, key, x) && Held(s1, key, x) == Held(s, key, x);
    assert HasEntry(s1, key, m) && HasEntry(s1, key, y);
    s' := SoloUploads(s1, x, key, Held(s, key, x).doc);
    ReachesOn(s, s1, s', key);
  }

  lemma HasThatVersion(s: State, key: string, y: nat, w: int, v: int)
    requires CanUpload(s, key, y, w) && v < w && exists x: nat :: CanUpload(s, key, x, v)
    ensures Held(s, key, y).doc.version == w
  {
  }

  lemma TwoReachableFall(s: State, key: string, m: nat)
    requires AtRest(s, key) && key !in s.remote && HasEntry(s, key, m) && !CalmWhenAbsent(s, key, m)
    ensures !HeldNeverFalls(s, key, m)
  {
    var mine := Held(s, key, m).doc.version;
    var v, w :| CanReach(s, key, m, v) && CanReach(s, key, m, w) && mine < v < w;
    var x: nat :| x != m && CanUpload(s, key, x, v);
    var y: nat :| y != m && CanUpload(s, key, y, w);
    HasThatVersion(s, key, y, w, v);
    var s' := VersionIsStored(s, key, m, x, v, y);
    StaleAdoptionFalls(s, s', key, m, y);
  }

  // ---------------------------------------------------------------- at most one version ahead

  /** A document that can be read back is no older than the first one stored, and `ahead` if it is ahead at all. */
  predicate Fits(d: Document, start: Option<int>, mine: int, ahead: int) {
    Legible(d.content) ==> start.Some? && d.version >= start.value && (d.version <= mine || d.version == ahead)
  }

  predicate FitsLocal(c: Config, start: Option<int>, mine: int, ahead: int) {
    && (!CallValidate(c).failed ==> Fits(Lifted(c.doc), start, mine, ahead))
    && (start.Some? && c.doc.version > start.value ==> Fits(c.doc, start, mine, ahead))
  }

  /** Manager m holds a version from `mine` to `ahead`, and adopts nothing but `ahead`. */
  ghost function FirstAhead(start: Option<int>, m: nat, mine: int, ahead: int): Rules {
    var write := (d: Document) => d.version >= 1 && Fits(d, start, mine, ahead);
    Rules((i: nat, c: Config) => FitsLocal(c, start, mine, ahead) && (i == m ==> mine <= c.doc.version <= ahead),
          write, write,
          (i: nat, d: Document) => d.version >= 1 && Legible(d.content) && Fits(d, start, mine, ahead) && (i == m ==> d.version == ahead),
          write, true)
  }

  lemma FirstAheadDecides(start: Option<int>, m: nat, mine: int, ahead: int, i: nat, c: Config, remote: Option<Document>)
    requires ahead > mine && ahead >= 1 && FirstAhead(start, m, mine, ahead).local(i, c)
    requires RemoteFollows(FirstAhead(start, m, mine, ahead), remote)
    ensures DecisionFollows(FirstAhead(start, m, mine, ahead), i, Decide(c, remote))
  {
    assert FitsLocal(c, start, mine, ahead);
    if remote.Some? {
      assert Fits(remote.value, start, mine, ahead);
      assert !IsOnlyEmpty(remote.value.content) ==> Legible(remote.value.content);
    }
  }

  lemma FirstAheadReplaces(start: Option<int>, m: nat, mine: int, ahead: int)
    requires ahead > mine && ahead >= 1
    ensures ReplacementsFollow(FirstAhead(start, m, mine, ahead))
  {
    var r := FirstAhead(start, m, mine, ahead);
    forall i: nat, d: Document | r.adopt(i, d) && IsJson(d.content)
      ensures r.local(i, Decode(d))
    {
      assert Fits(d, start, mine, ahead) && FitsLocal(Decode(d), start, mine, ahead);
    }
    forall i: nat, c: Config, d: Document | r.local(i, c) && r.published(d) && Delivers(c, d)
      ensures r.local(i, Decode(d))
    {
      assert Fits(d, start, mine, ahead) && Legible(d.content) && FitsLocal(Decode(d), start, mine, ahead);
    }
    forall i: nat, c: Config | r.local(i, c) && !CallValidate(c).failed
      ensures r.local(i, c.(doc := Lifted(c.doc)))
    {
      assert FitsLocal(c, start, mine, ahead) && FitsLocal(c.(doc := Lifted(c.doc)), start, mine, ahead);
    }
  }

  lemma FirstAheadWrites(start: Option<int>, m: nat, mine: int, ahead: int)
    ensures WritesFollow(FirstAhead(start, m, mine, ahead))
  {
    var r := FirstAhead(start, m, mine, ahead);
    forall d: Document | r.write(d) && Encode(d).Some?
      ensures r.write(Encode(d).value)
    {
      assert Fits(d, start, mine, ahead) && IsJson(Encode(d).value.content);
      assert Fits(Encode(d).value, start, mine, ahead);
    }
  }

  lemma FirstAheadIsConsistent(start: Option<int>, m: nat, mine: int, ahead: int)
    requires ahead > mine && ahead >= 1
    ensures Consistent(FirstAhead(start, m, mine, ahead))
  {
    var r := FirstAhead(start, m, mine, ahead);
    forall i: nat, c: Config, d: Document | r.local(i, c) && r.stored(d) && IsJson(d.content)
      ensures DecisionFollows(r, i, Decide(c, Some(d)))
    {
      FirstAheadDecides(start, m, mine, ahead, i, c, Some(d));
    }
    forall i: nat, c: Config | r.local(i, c)
      ensures DecisionFollows(r, i, Decide(c, None))
    {
      FirstAheadDecides(start, m, mine, ahead, i, c, None);
    }
    FirstAheadReplaces(start, m, mine, ahead);
    FirstAheadWrites(start, m, mine, ahead);
  }

  /** The least version that can be stored first, if any can be read back. */
  ghost predicate IsStart(s: State, key: string, start: Option<int>) {
    match start
    case None => forall u: nat, t :: !StartsAt(s, key, u, t)
    case Some(least) => (exists u: nat :: StartsAt(s, key, u, least)) && forall u: nat, t | StartsAt(s, key, u, t) :: least <= t
  }

  ghost predicate IsStartOf(s: State, key: string, start: Option<int>, n: nat) {
    match start
    case None => forall u: nat, t | u < n :: !StartsAt(s, key, u, t)
    case Some(least) => (exists u: nat :: StartsAt(s, key, u, least)) && forall u: nat, t | u < n && StartsAt(s, key, u, t) :: least <= t
  }

  lemma {:induction false} SomeStart(s: State, key: string, n: nat) returns (start: Option<int>)
    ensures IsStartOf(s, key, start, n)
  {
    if n == 0 {
      start := None;
    } else {
      start := SomeStart(s, key, n - 1);
      var u: nat := n - 1;
      if HasEntry(s, key, u) && StartsAt(s, key, u, Lifted(Held(s, key, u).doc).version) {
        var t := Lifted(Held(s, key, u).doc).version;
        start := if start.Some? && start.value <= t then start else Some(t);
      }
    }
  }

  lemma TheStart(s: State, key: string) returns (start: Option<int>)
    ensures IsStart(s, key, start)
  {
    start := SomeStart(s, key, |s.managers|);
    assert forall u: nat, t | StartsAt(s, key, u, t) :: u < |s.managers|;
  }

  /** Nothing that can reach m is ahead of it, but `ahead`. */
  ghost predicate OnlyReach(s: State, key: string, m: nat, ahead: int)
    requires HasEntry(s, key, m)
  {
    && ahead > Held(s, key, m).doc.version && ahead >= 1
    && forall w | CanReach(s, key, m, w) && w > Held(s, key, m).doc.version :: w == ahead
  }

  lemma OtherEntryFits(s: State, key: string, m: nat, x: nat, start: Option<int>, ahead: int)
    requires HasEntry(s, key, m) && HasEntry(s, key, x) && x != m && OnlyReach(s, key, m, ahead) && IsStart(s, key, start)
    ensures FitsLocal(Held(s, key, x), start, Held(s, key, m).doc.version, ahead)
  {
    var c, mine := Held(s, key, x), Held(s, key, m).doc.version;
    if !CallValidate(c).failed && Legible(c.doc.content) {
      assert StartsAt(s, key, x, Lifted(c.doc).version);
      assert CanUpload(s, key, x, Lifted(c.doc).version) && CanReach(s, key, m, Lifted(c.doc).version);
    }
    if start.Some? && c.doc.version > start.value && Legible(c.doc.content) {
      var u: nat :| StartsAt(s, key, u, start.value);
      assert CanUpload(s, key, x, c.doc.version) && CanReach(s, key, m, c.doc.version);
    }
  }

  /** What m would upload first is not ahead of what it holds, or it is `ahead`. */
  ghost predicate OwnIsHarmless(s: State, key: string, m: nat, ahead: int)
    requires HasEntry(s, key, m)
  {
    forall t | StartsAt(s, key, m, t) :: t <= Held(s, key, m).doc.version || t == ahead
  }

  lemma OwnEntryFits(s: State, key: string, m: nat, start: Option<int>, ahead: int)
    requires HasEntry(s, key, m) && IsStart(s, key, start) && OwnIsHarmless(s, key, m, ahead)
    ensures FitsLocal(Held(s, key, m), start, Held(s, key, m).doc.version, ahead)
  {
    var c := Held(s, key, m);
    if !CallValidate(c).failed && Legible(c.doc.content) {
      assert StartsAt(s, key, m, Lifted(c.doc).version);
    }
  }

  lemma HarmlessKeepsHeld(s: State, key: string, m: nat, ahead: int)
    requires AtRest(s, key) && key !in s.remote && HasEntry(s, key, m)
    requires OnlyReach(s, key, m, ahead) && OwnIsHarmless(s, key, m, ahead)
    ensures HeldNeverFalls(s, key, m)
  {
    var mine := Held(s, key, m).doc.version;
    var start := TheStart(s, key);
    var r := FirstAhead(start, m, mine, ahead);
    FirstAheadIsConsistent(start, m, mine, ahead);
    forall x | 0 <= x < |s.managers|
      ensures ManagerFollows(r, x, s.managers[x], key)
    {
      if key in s.managers[x].cur {
        if x == m {
          OwnEntryFits(s, key, m, start, ahead);
        } else {
          OtherEntryFits(s, key, m, x, start, ahead);
        }
      }
    }
    RulesKeepHeld(s, key, m, r, ahead);
  }

  // ---------------------------------------------------------------- a version that was never set

  /**
   * m has a version of 0 or less, and nobody else can upload a 1. Until m's own object is lifted,
   * only `ahead` is stored; from then on, everything of m's is at least 1.
   */
  ghost function Unlifted(m: nat, mine: int, ahead: int): Rules {
    var write := (d: Document) => d.version >= 1 && (Legible(d.content) ==> d.version == ahead);
    Rules((i: nat, c: Config) => if i == m then mine <= c.doc.version <= ahead else OtherLocal(c, ahead),
          write, write, (i, d: Document) => Legible(d.content) && d.version == ahead, write, true)
  }

  predicate OtherLocal(c: Config, ahead: int) {
    && (!CallValidate(c).failed && Legible(c.doc.content) ==> Lifted(c.doc).version == ahead)
    && (c.doc.version > 1 && Legible(c.doc.content) ==> c.doc.version == ahead)
  }

  lemma UnliftedIsSturdy(m: nat, mine: int, ahead: int)
    requires mine <= 0 && ahead >= 2
    ensures Sturdy(Unlifted(m, mine, ahead))
  {
    var r := Unlifted(m, mine, ahead);
    forall d: Document | r.write(d) && Encode(d).Some?
      ensures r.write(Encode(d).value)
    {
      assert IsJson(Encode(d).value.content);
    }
    forall i: nat, c: Config | r.local(i, c) && !CallValidate(c).failed
      ensures r.local(i, c.(doc := Lifted(c.doc)))
    {
      assert i != m ==> OtherLocal(c, ahead) && OtherLocal(c.(doc := Lifted(c.doc)), ahead);
    }
    forall i: nat, d: Document | r.adopt(i, d) && IsJson(d.content)
      ensures r.local(i, Decode(d))
    {
      assert OtherLocal(Decode(d), ahead);
    }
    forall i: nat, c: Config, d: Document | r.local(i, c) && r.published(d) && Delivers(c, d)
      ensures r.local(i, Decode(d))
    {
      assert Legible(d.content) && OtherLocal(Decode(d), ahead);
    }
  }

  /** The objects of m that play a part for the key: the one it began with, and such as have the version `ahead`. */
  ghost predicate ObjectIs(m: Manager, p: nat, first: nat, ahead: int) {
    p == first || (p < |m.heap| && m.heap[p].doc.version == ahead)
  }

  ghost predicate Objects(s: State, key: string, m: nat, first: nat, ahead: int) {
    && HasEntry(s, key, m) && first < |s.managers[m].heap| && ObjectIs(s.managers[m], s.managers[m].cur[key], first, ahead)
    && forall t | 0 <= t < |s.threads| :: ObjectOf(s.threads[t], s.managers[m], key, m, first, ahead)
  }

  ghost predicate ObjectOf(th: Thread, m: Manager, key: string, i: nat, first: nat, ahead: int) {
    th.manager == i && th.todo != [] && th.todo[0] == key && th.phase.Loaded? ==> ObjectIs(m, th.phase.ptr, first, ahead)
  }

  ghost function FirstObject(s: State, m: nat, first: nat): int
    requires m < |s.managers| && first < |s.managers[m].heap|
  {
    s.managers[m].heap[first].doc.version
  }

  ghost predicate Before(s: State, key: string, m: nat, first: nat, mine: int, ahead: int) {
    Follows(s, key, Unlifted(m, mine, ahead)) && Objects(s, key, m, first, ahead) && FirstObject(s, m, first) <= 0
  }

  ghost predicate Afterwards(s: State, key: string, m: nat, ahead: int) {
    HasEntry(s, key, m) && Follows(s, key, FirstAhead(Some(1), m, 1, ahead))
  }

  /** The step that lifts the first object on behalf of the key. */
  ghost predicate Lifts(s: State, a: Action, key: string, m: nat) {
    && a.Step? && a.thread < |s.threads| && WellFormed(s, s.threads[a.thread])
    && var th := s.threads[a.thread];
       th.manager == m && th.todo[0] == key && th.phase.Loaded? && th.phase.remote.None?
       && s.managers[m].heap[th.phase.ptr].doc.version <= 0 && !CallValidate(s.managers[m].heap[th.phase.ptr]).failed
  }

  lemma OtherStepsDecide(s: State, a: Action, key: string, m: nat, first: nat, mine: int, ahead: int)
    requires mine <= 0 && ahead >= 2 && Before(s, key, m, first, mine, ahead) && !Lifts(s, a, key, m)
    ensures ActionDecides(Unlifted(m, mine, ahead), s, a, key)
  {
    var r := Unlifted(m, mine, ahead);
    if a.Step? && a.thread < |s.threads| && WellFormed(s, s.threads[a.thread]) && s.threads[a.thread].todo[0] == key {
      var th := s.threads[a.thread];
      assert ThreadFollows(r, th, s.managers, key) && ObjectOf(th, s.managers[m], key, m, first, ahead);
      if th.phase.Loaded? {
        LoadedDecides(m, mine, ahead, th.manager, s.managers[th.manager].heap[th.phase.ptr], th.phase.remote);
      }
    }
  }

  lemma LoadedDecides(m: nat, mine: int, ahead: int, i: nat, c: Config, remote: Option<Document>)
    requires mine <= 0 && ahead >= 2 && RemoteFollows(Unlifted(m, mine, ahead), remote) && Unlifted(m, mine, ahead).local(i, c)
    requires i == m ==> c.doc.version == ahead || (c.doc.version <= 0 && (remote.Some? || CallValidate(c).failed))
    ensures DecisionFollows(Unlifted(m, mine, ahead), i, Decide(c, remote))
  {
    if remote.Some? {
      assert !IsOnlyEmpty(remote.value.content) ==> Legible(remote.value.content);
    }
    assert i != m ==> OtherLocal(c, ahead);
  }

  lemma ObjectsSurviveGrowth(m: Manager, m': Manager, p: nat, first: nat, ahead: int)
    requires ahead >= 2 && HeapGrows(m.heap, m'.heap) && ObjectIs(m, p, first, ahead)
    ensures ObjectIs(m', p, first, ahead)
  {
  }

  lemma ThreadsKeepObjects(s: State, m': Manager, key: string, m: nat, first: nat, ahead: int)
    requires ahead >= 2 && Objects(s, key, m, first, ahead) && HeapGrows(s.managers[m].heap, m'.heap)
    ensures forall t | 0 <= t < |s.threads| :: ObjectOf(s.threads[t], m', key, m, first, ahead)
  {
    forall t | 0 <= t < |s.threads|
      ensures ObjectOf(s.threads[t], m', key, m, first, ahead)
    {
      var th := s.threads[t];
      assert ObjectOf(th, s.managers[m], key, m, first, ahead);
      if th.manager == m && th.todo != [] && th.todo[0] == key && th.phase.Loaded? {
        ObjectsSurviveGrowth(s.managers[m], m', th.phase.ptr, first, ahead);
      }
    }
  }

  lemma StepKeepsObjects(s: State, t: nat, reply: Reply, key: string, m: nat, first: nat, mine: int, ahead: int)
    requires ahead >= 2 && Follows(s, key, Unlifted(m, mine, ahead)) && Objects(s, key, m, first, ahead)
    requires t < |s.threads| && WellFormed(s, s.threads[t])
    ensures Objects(Apply(s, Step(t, reply)), key, m, first, ahead)
  {
    var th, s' := s.threads[t], Apply(s, Step(t, reply));
    var (th', m', put) := StepThread(s, th, reply);
    assert s'.threads == s.threads[t := th'] && s'.managers == s.managers[th.manager := m'];
    if th.manager == m {
      StepKeepsEntryObject(s, th, reply, key, first, mine, ahead);
      MovedThreadObject(s, th, reply, key, first, ahead);
      ThreadsKeepObjects(s, m', key, m, first, ahead);
    } else {
      assert th'.manager != m;
    }
  }

  lemma MovedThreadObject(s: State, th: Thread, reply: Reply, key: string, first: nat, ahead: int)
    requires WellFormed(s, th) && HasEntry(s, key, th.manager)
    requires ObjectIs(s.managers[th.manager], s.managers[th.manager].cur[key], first, ahead)
    ensures ObjectOf(StepThread(s, th, reply).0, StepThread(s, th, reply).1, key, th.manager, first, ahead)
  {
  }

  lemma StepKeepsEntryObject(s: State, th: Thread, reply: Reply, key: string, first: nat, mine: int, ahead: int)
    requires ahead >= 2 && WellFormed(s, th) && ThreadFollows(Unlifted(th.manager, mine, ahead), th, s.managers, key)
    requires HasEntry(s, key, th.manager) && ObjectIs(s.managers[th.manager], s.managers[th.manager].cur[key], first, ahead)
    ensures
      var m, m' := s.managers[th.manager], StepThread(s, th, reply).1;
      && key in m'.cur && m'.cur[key] < |m'.heap| && ObjectIs(m', m'.cur[key], first, ahead) && HeapGrows(m.heap, m'.heap)
  {
    StepGrowsHeap(s, th, reply);
    StepKeepsEntry(s, th, reply, key);
    ObjectsSurviveGrowth(s.managers[th.manager], StepThread(s, th, reply).1, s.managers[th.manager].cur[key], first, ahead);
  }

  lemma DeliverKeepsObjects(s: State, i: nat, n: nat, key: string, m: nat, first: nat, mine: int, ahead: int)
    requires ahead >= 2 && Follows(s, key, Unlifted(m, mine, ahead)) && Objects(s, key, m, first, ahead)
    ensures Objects(Apply(s, Deliver(i, n)), key, m, first, ahead)
  {
    var s' := Apply(s, Deliver(i, n));
    ThreadsKeepObjects(s, s'.managers[m], key, m, first, ahead);
    ObjectsSurviveGrowth(s.managers[m], s'.managers[m], s.managers[m].cur[key], first, ahead);
  }

  lemma ActionKeepsObjects(s: State, a: Action, key: string, m: nat, first: nat, mine: int, ahead: int)
    requires ahead >= 2 && Follows(s, key, Unlifted(m, mine, ahead)) && Objects(s, key, m, first, ahead) && !Refreshes(a, key)
    ensures Objects(Apply(s, a), key, m, first, ahead)
  {
    match a
    case Spawn(_, _) =>
    case Step(t, reply) =>
      if t < |s.threads| && WellFormed(s, s.threads[t]) {
        StepKeepsObjects(s, t, reply, key, m, first, mine, ahead);
      }
    case Deliver(i, n) => DeliverKeepsObjects(s, i, n, key, m, first, mine, ahead);
    case Refresh(_, _, _) =>
      var s' := Apply(s, a);
      ThreadsKeepObjects(s, s'.managers[m], key, m, first, ahead);
      ObjectsSurviveGrowth(s.managers[m], s'.managers[m], s.managers[m].cur[key], first, ahead);
  }

  lemma ActionGrowsHeap(s: State, a: Action, m: nat)
    requires m < |s.managers|
    ensures |Apply(s, a).managers| == |s.managers| && HeapGrows(s.managers[m].heap, Apply(s, a).managers[m].heap)
  {
    if a.Step? && a.thread < |s.threads| && WellFormed(s, s.threads[a.thread]) {
      StepGrowsHeap(s, s.threads[a.thread], a.reply);
    }
  }

  lemma LocalAfterwards(m: nat, mine: int, ahead: int, i: nat, c: Config)
    requires ahead >= 2 && Unlifted(m, mine, ahead).local(i, c) && (i == m ==> c.doc.version == 1 || c.doc.version == ahead)
    ensures FirstAhead(Some(1), m, 1, ahead).local(i, c)
  {
    assert i != m ==> OtherLocal(c, ahead);
    assert FitsLocal(c, Some(1), 1, ahead);
  }

  lemma PhaseAfterwards(m: nat, mine: int, ahead: int, i: nat, phase: Phase, heap: seq<Config>)
    requires ahead >= 2 && PhaseFollows(Unlifted(m, mine, ahead), i, phase, heap)
    requires phase.Loaded? && i == m ==> heap[phase.ptr].doc.version == 1 || heap[phase.ptr].doc.version == ahead
    ensures PhaseFollows(FirstAhead(Some(1), m, 1, ahead), i, phase, heap)
  {
    if phase.Loaded? {
      LocalAfterwards(m, mine, ahead, i, heap[phase.ptr]);
    }
  }

  /** Once the first object is lifted, the later rules hold. */
  lemma LiftedIsAfterwards(s: State, key: string, m: nat, first: nat, mine: int, ahead: int)
    requires ahead >= 2 && Follows(s, key, Unlifted(m, mine, ahead)) && Objects(s, key, m, first, ahead)
    requires FirstObject(s, m, first) == 1
    ensures Afterwards(s, key, m, ahead)
  {
    var before, after := Unlifted(m, mine, ahead), FirstAhead(Some(1), m, 1, ahead);
    forall i | 0 <= i < |s.managers|
      ensures ManagerFollows(after, i, s.managers[i], key)
    {
      assert ManagerFollows(before, i, s.managers[i], key);
      if key in s.managers[i].cur {
        LocalAfterwards(m, mine, ahead, i, s.managers[i].heap[s.managers[i].cur[key]]);
      }
    }
    forall t | 0 <= t < |s.threads|
      ensures ThreadFollows(after, s.threads[t], s.managers, key)
    {
      var th := s.threads[t];
      assert ThreadFollows(before, th, s.managers, key) && ObjectOf(th, s.managers[m], key, m, first, ahead);
      if th.todo != [] && th.todo[0] == key && th.manager < |s.managers| {
        PhaseAfterwards(m, mine, ahead, th.manager, th.phase, s.managers[th.manager].heap);
      }
    }
  }

  /** Lifting the first object to upload it leads from the one to the other. */
  lemma LiftingStep(s: State, a: Action, key: string, m: nat, first: nat, mine: int, ahead: int)
    requires mine <= 0 && ahead >= 2 && Before(s, key, m, first, mine, ahead) && Lifts(s, a, key, m)
    ensures Afterwards(Apply(s, a), key, m, ahead)
  {
    var th, s' := s.threads[a.thread], Apply(s, a);
    assert ObjectOf(th, s.managers[m], key, m, first, ahead) && th.phase.ptr == first;
    var m' := Uploaded(s.managers[m], first, Lifted(s.managers[m].heap[first].doc));
    var th' := th.(phase := Marshalling(first));
    assert s' == s.(managers := s.managers[m := m'], threads := s.threads[a.thread := th']);
    var s1 := s.(managers := s.managers[m := m']);
    LiftedFirst(s, key, m, first, mine, ahead, m');
    var after := FirstAhead(Some(1), m, 1, ahead);
    assert ThreadFollows(after, th', s1.managers, key);
    ThreadsWithOneMoved(after, s1, s', a.thread, th', key);
  }

  /** With its first object lifted, m is past the change, wherever its threads are. */
  lemma LiftedFirst(s: State, key: string, m: nat, first: nat, mine: int, ahead: int, m': Manager)
    requires mine <= 0 && ahead >= 2 && Before(s, key, m, first, mine, ahead) && !CallValidate(s.managers[m].heap[first]).failed
    requires m' == Uploaded(s.managers[m], first, Lifted(s.managers[m].heap[first].doc))
    ensures Afterwards(s.(managers := s.managers[m := m']), key, m, ahead)
  {
    var before, s1 := Unlifted(m, mine, ahead), s.(managers := s.managers[m := m']);
    UnliftedIsSturdy(m, mine, ahead);
    ThreadsSurviveGrowth(before, s, m, m', key);
    assert ManagerFollows(before, m, s.managers[m], key);
    assert ManagersFollow(before, s1.managers, key);
    ThreadsKeepObjects(s, m', key, m, first, ahead);
    ObjectsSurviveGrowth(s.managers[m], m', m'.cur[key], first, ahead);
    LiftedIsAfterwards(s1, key, m, first, mine, ahead);
  }

  ghost predicate InPhase(s: State, key: string, m: nat, first: nat, mine: int, ahead: int) {
    Before(s, key, m, first, mine, ahead) || Afterwards(s, key, m, ahead)
  }

  lemma BeforeKeepsHeld(s: State, a: Action, key: string, m: nat, first: nat, mine: int, ahead: int)
    requires Before(s, key, m, first, mine, ahead) && !Refreshes(a, key)
    ensures KeepsHeld(s, a, key, m)
  {
    ActionMovesEntry(s, a, key, m, Unlifted(m, mine, ahead));
    assert ManagerFollows(Unlifted(m, mine, ahead), m, s.managers[m], key);
  }

  lemma OtherStep(s: State, a: Action, key: string, m: nat, first: nat, mine: int, ahead: int)
    requires mine <= 0 && ahead >= 2 && Before(s, key, m, first, mine, ahead) && !Refreshes(a, key) && !Lifts(s, a, key, m)
    ensures InPhase(Apply(s, a), key, m, first, mine, ahead)
  {
    UnliftedIsSturdy(m, mine, ahead);
    OtherStepsDecide(s, a, key, m, first, mine, ahead);
    DecidedActionFollows(s, a, key, Unlifted(m, mine, ahead));
    ActionKeepsObjects(s, a, key, m, first, mine, ahead);
    ActionGrowsHeap(s, a, m);
    if FirstObject(Apply(s, a), m, first) > 0 {
      LiftedIsAfterwards(Apply(s, a), key, m, first, mine, ahead);
    }
  }

  lemma ActionStaysInPhase(s: State, a: Action, key: string, m: nat, first: nat, mine: int, ahead: int)
    requires mine <= 0 && ahead >= 2 && InPhase(s, key, m, first, mine, ahead) && !Refreshes(a, key)
    ensures InPhase(Apply(s, a), key, m, first, mine, ahead) && KeepsHeld(s, a, key, m)
  {
    if Before(s, key, m, first, mine, ahead) {
      BeforeKeepsHeld(s, a, key, m, first, mine, ahead);
      if Lifts(s, a, key, m) {
        LiftingStep(s, a, key, m, first, mine, ahead);
      } else {
        OtherStep(s, a, key, m, first, mine, ahead);
      }
    } else {
      var r := FirstAhead(Some(1), m, 1, ahead);
      FirstAheadIsConsistent(Some(1), m, 1, ahead);
      ActionFollows(s, a, key, r);
      ActionKeepsHeld(s, a, key, m, r, ahead);
    }
  }

  lemma {:induction false} RunStaysInPhase(s: State, actions: seq<Action>, key: string, m: nat, first: nat, mine: int, ahead: int)
    requires mine <= 0 && ahead >= 2 && InPhase(s, key, m, first, mine, ahead) && NoRefresh(actions, key)
    ensures InPhase(Run(s, actions), key, m, first, mine, ahead)
    decreases |actions|
  {
    if actions != [] {
      ActionStaysInPhase(s, actions[0], key, m, first, mine, ahead);
      RunStaysInPhase(Apply(s, actions[0]), actions[1..], key, m, first, mine, ahead);
    }
  }

  lemma RestIsBefore(s: State, key: string, m: nat, ahead: int)
    requires AtRest(s, key) && key !in s.remote && HasEntry(s, key, m) && Held(s, key, m).doc.version <= 0
    requires OnlyReach(s, key, m, ahead) && !OwnIsHarmless(s, key, m, ahead) && ahead >= 2
    ensures Before(s, key, m, s.managers[m].cur[key], Held(s, key, m).doc.version, ahead)
  {
    var mine := Held(s, key, m).doc.version;
    forall x | 0 <= x < |s.managers|
      ensures ManagerFollows(Unlifted(m, mine, ahead), x, s.managers[x], key)
    {
      if key in s.managers[x].cur && x != m {
        OthersReachAhead(s, key, m, x, ahead);
      }
    }
  }

  lemma OthersReachAhead(s: State, key: string, m: nat, x: nat, ahead: int)
    requires HasEntry(s, key, m) && HasEntry(s, key, x) && x != m && OnlyReach(s, key, m, ahead)
    requires Held(s, key, m).doc.version <= 0 && !OwnIsHarmless(s, key, m, ahead)
    ensures OtherLocal(Held(s, key, x), ahead)
  {
    var c := Held(s, key, x);
    assert StartsAt(s, key, m, 1);
    if Legible(c.doc.content) {
      if !CallValidate(c).failed {
        assert CanUpload(s, key, x, Lifted(c.doc).version) && CanReach(s, key, m, Lifted(c.doc).version);
      }
      if c.doc.version > 1 {
        assert CanUpload(s, key, x, c.doc.version) && CanReach(s, key, m, c.doc.version);
      }
    }
  }

  lemma UnsetKeepsHeld(s: State, key: string, m: nat, ahead: int)
    requires AtRest(s, key) && key !in s.remote && HasEntry(s, key, m) && Held(s, key, m).doc.version <= 0
    requires OnlyReach(s, key, m, ahead) && !OwnIsHarmless(s, key, m, ahead) && ahead >= 2
    ensures HeldNeverFalls(s, key, m)
  {
    var first, mine := s.managers[m].cur[key], Held(s, key, m).doc.version;
    RestIsBefore(s, key, m, ahead);
    forall actions: seq<Action>, a: Action | NoRefresh(actions, key) && !Refreshes(a, key)
      ensures KeepsHeld(Run(s, actions), a, key, m)
    {
      RunStaysInPhase(s, actions, key, m, first, mine, ahead);
      ActionStaysInPhase(Run(s, actions), a, key, m, first, mine, ahead);
    }
  }

  lemma CalmWhenAbsentKeeps(s: State, key: string, m: nat)
    requires AtRest(s, key) && key !in s.remote && HasEntry(s, key, m) && CalmWhenAbsent(s, key, m)
    ensures HeldNeverFalls(s, key, m)
  {
    var mine := Held(s, key, m).doc.version;
    var ahead := Max(mine + 1, 1);
    if w :| CanReach(s, key, m, w) && w > mine {
      ahead := w;
      ReachableIsSet(s, key, m, w);
    }
    if OwnIsHarmless(s, key, m, ahead) {
      HarmlessKeepsHeld(s, key, m, ahead);
    } else {
      UnsetKeepsHeld(s, key, m, ahead);
    }
  }

  lemma ReachableIsSet(s: State, key: string, m: nat, w: int)
    requires CanReach(s, key, m, w)
    ensures w >= 1
  {
  }

  /**
   * The version a manager holds can go down: an adoption may come after a newer delivery. From a
   * state of rest, over all runs without a refresh of the key, it never does exactly when at most
   * one version ahead of the manager's own can reach it. Where nothing is stored, those are the
   * versions that other managers upload at once, lifted, and the greater ones that they upload
   * once a version is stored that can be read back.
   */
  lemma HeldVersionNeverFallsIff(s: State, key: string, m: nat)
    requires AtRest(s, key) && HasEntry(s, key, m)
    ensures HeldNeverFalls(s, key, m) <==> if key in s.remote then CalmFor(s, key, m) else CalmWhenAbsent(s, key, m)
  {
    if key in s.remote {
      HeldNeverFallsIff(s, key, m);
    } else if CalmWhenAbsent(s, key, m) {
      CalmWhenAbsentKeeps(s, key, m);
    } else {
      TwoReachableFall(s, key, m);
    }
  }
}
