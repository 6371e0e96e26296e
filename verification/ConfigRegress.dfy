/** Exactly when a stored version, or the version a manager holds, can go down. */
module ConfigRegress {
  import opened Common
  import opened ConfigModel
  import opened ConfigInterleaving
  import opened ConfigConvergence

  // ---------------------------------------------------------------- what one action changes

  /** An action leaves what is stored for the key alone, or writes a document within the rules. */
  lemma ActionPuts(s: State, a: Action, key: string, r: Rules)
    requires Consistent(r) && Follows(s, key, r)
    ensures
      var remote := Apply(s, a).remote;
      Lookup(remote, key) == Lookup(s.remote, key) || (key in remote && r.write(remote[key]))
  {
    if a.Step? && a.thread < |s.threads| && WellFormed(s, s.threads[a.thread]) {
      var th := s.threads[a.thread];
      assert ThreadFollows(r, th, s.managers, key) && ManagerFollows(r, th.manager, s.managers[th.manager], key);
      if th.todo[0] == key {
        ConsistentDecides(r, s, th);
      }
      StepThreadFollows(r, s, th, a.reply, key);
    }
  }

  /** How an entry may change: lifted, or replaced by a newer delivery, or by what was to be adopted. */
  ghost predicate EntryMoves(r: Rules, m: nat, before: Config, after: Config) {
    || SameOrLifted(before, after)
    || after.doc.version > before.doc.version
    || r.adopt(m, after.doc)
  }

  lemma StepMovesEntry(s: State, t: nat, reply: Reply, key: string, m: nat, r: Rules)
    requires Follows(s, key, r) && HasEntry(s, key, m)
    requires t < |s.threads| && WellFormed(s, s.threads[t])
    ensures
      var s' := Apply(s, Step(t, reply));
      HasEntry(s', key, m) && EntryMoves(r, m, Held(s, key, m), Held(s', key, m))
  {
    var th := s.threads[t];
    assert ThreadFollows(r, th, s.managers, key);
    if th.manager == m {
      StepGrowsHeap(s, th, reply);
      StepKeepsEntry(s, th, reply, key);
    }
  }

  lemma ActionMovesEntry(s: State, a: Action, key: string, m: nat, r: Rules)
    requires Follows(s, key, r) && HasEntry(s, key, m) && !Refreshes(a, key)
    ensures
      var s' := Apply(s, a);
      HasEntry(s', key, m) && EntryMoves(r, m, Held(s, key, m), Held(s', key, m))
  {
    if a.Step? && a.thread < |s.threads| && WellFormed(s, s.threads[a.thread]) {
      StepMovesEntry(s, a.thread, a.reply, key, m, r);
    }
  }

  // ---------------------------------------------------------------- reaching states

  ghost predicate Reaches(s: State, s': State, key: string) {
    exists actions: seq<Action> :: NoRefresh(actions, key) && Run(s, actions) == s'
  }

  lemma {:induction false} RunInParts(s: State, a: seq<Action>, b: seq<Action>)
    ensures Run(s, a + b) == Run(Run(s, a), b)
    decreases |a|
  {
    if a == [] {
      assert a + b == b;
    } else {
      assert (a + b)[1..] == a[1..] + b;
      RunInParts(Apply(s, a[0]), a[1..], b);
    }
  }

  lemma ReachesItself(s: State, key: string)
    ensures Reaches(s, s, key)
  {
    assert NoRefresh([], key) && Run(s, []) == s;
  }

  lemma ReachesNext(s: State, s': State, key: string, a: Action)
    requires Reaches(s, s', key) && !Refreshes(a, key)
    ensures Reaches(s, Apply(s', a), key)
  {
    var actions :| NoRefresh(actions, key) && Run(s, actions) == s';
    RunInParts(s, actions, [a]);
    assert Run(s', [a]) == Apply(s', a) by {
      RunOne(s', a, []);
      assert [a] + [] == [a];
    }
    assert NoRefresh(actions + [a], key);
  }

  lemma ReachesCompare(s: State, s': State, key: string, m: nat)
    requires Reaches(s, s', key) && HasEntry(s', key, m)
    ensures Reaches(s, AtCompare(s', m, key), key)
  {
    var a := Step(|s'.threads|, FINE);
    ReachesNext(s, s', key, Spawn(m, [key]));
    ReachesNext(s, Apply(s', Spawn(m, [key])), key, a);
    ReachesNext(s, Apply(Apply(s', Spawn(m, [key])), a), key, a);
    SoloReads(s', m, key);
  }

  lemma ReachesThird(s: State, s': State, key: string, a: Action)
    requires Reaches(s, s', key) && !a.Refresh?
    ensures Reaches(s, Apply(Apply(s', a), a), key) && Reaches(s, Apply(Apply(Apply(s', a), a), a), key)
  {
    ReachesNext(s, s', key, a);
    ReachesNext(s, Apply(s', a), key, a);
    ReachesNext(s, Apply(Apply(s', a), a), key, a);
  }

  // ---------------------------------------------------------------- the stored version

  ghost predicate NotOlder(a: Option<Document>, b: Option<Document>) {
    a.Some? ==> b.Some? && a.value.version <= b.value.version
  }

  predicate Refreshes(a: Action, key: string) {
    a.Refresh? && a.key == key
  }

  ghost predicate KeepsStored(s: State, a: Action, key: string) {
    NotOlder(Lookup(s.remote, key), Lookup(Apply(s, a).remote, key))
  }

  /** No run, without a refresh of the key, ever lowers the stored version. */
  ghost predicate StoredNeverFalls(s: State, key: string) {
    forall actions: seq<Action>, a: Action | NoRefresh(actions, key) && !Refreshes(a, key) :: KeepsStored(Run(s, actions), a, key)
  }

  /** No sync of the key is under way, and nothing newer than what is stored has been published. */
  ghost predicate AtRest(s: State, key: string) {
    && Idle(s, key)
    && (key in s.remote ==> IsJson(s.remote[key].content) && s.remote[key].version >= 1)
    && (forall n | 0 <= n < |s.published| && s.published[n].0 == key ::
         IsJson(s.published[n].1.content) && key in s.remote && s.published[n].1.version <= s.remote[key].version)
    && (forall m | 0 <= m < |s.managers| && key in s.managers[m].cur :: s.managers[m].cur[key] < |s.managers[m].heap|)
  }

  /** The manager has a newer version than the stored one, and can upload it. */
  ghost predicate Newer(s: State, key: string, m: nat) {
    && key in s.remote && HasEntry(s, key, m)
    && Encode(Held(s, key, m).doc).Some? && Held(s, key, m).doc.version > s.remote[key].version
  }

  /** All newer versions are one and the same, or what is stored keeps everyone from syncing. */
  ghost predicate CalmStored(s: State, key: string)
    requires key in s.remote
  {
    || IsOnlyEmpty(s.remote[key].content)
    || forall x: nat, y: nat | Newer(s, key, x) && Newer(s, key, y) :: Held(s, key, x).doc.version == Held(s, key, y).doc.version
  }

  predicate Uploads(c: Config) {
    !CallValidate(c).failed && Encode(c.doc).Some?
  }

  /**
   * Where nothing is stored: all valid configurations are uploaded with one and the same version,
   * and none is newer, valid or not, unless what is uploaded keeps everyone else from syncing.
   */
  ghost predicate CalmAbsent(s: State, key: string) {
    forall x: nat, y: nat | HasEntry(s, key, x) && HasEntry(s, key, y) && Uploads(Held(s, key, x)) ::
      CalmPair(Held(s, key, x), Held(s, key, y))
  }

  predicate CalmPair(c: Config, d: Config) {
    && (Uploads(d) ==> Lifted(d.doc).version == Lifted(c.doc).version)
    && (Legible(c.doc.content) && Encode(d.doc).Some? ==> d.doc.version <= Lifted(c.doc).version)
  }

  ghost predicate Calm(s: State, key: string) {
    if key in s.remote then CalmStored(s, key) else CalmAbsent(s, key)
  }

  // ---------------------------------------------------------------- calm states never lower it

  /** Only r and t are ever stored, and only t is ever written. */
  ghost function TwoVersions(r: int, t: int): Rules {
    Rules((i, c: Config) => Encode(c.doc).Some? ==> c.doc.version <= r || c.doc.version == t,
          (d: Document) => d.version == r || d.version == t,
          (d: Document) => d.version <= r || d.version == t,
          (i, d: Document) => d.version == r || d.version == t,
          (d: Document) => d.version == t,
          false)
  }

  lemma TwoVersionsAreConsistent(r: int, t: int)
    requires 1 <= r < t
    ensures Consistent(TwoVersions(r, t))
  {
  }

  /** What is stored fails validation, so nobody gets beyond comparing. */
  ghost function Blocked(empty: Document): Rules {
    Rules((i, c) => true, (d: Document) => d == empty, (d) => true, (i, d) => false, (d) => false, false)
  }

  lemma BlockedIsConsistent(empty: Document)
    requires IsOnlyEmpty(empty.content)
    ensures Consistent(Blocked(empty))
  {
  }

  /** Where nothing is stored: only t is ever written; `blind` tells that it fails validation. */
  ghost function FirstVersion(t: int, blind: bool): Rules {
    var write := (d: Document) => d.version == t && (blind ==> !Legible(d.content));
    Rules((i, c: Config) => FirstLocal(c, t, blind), write, write, (i, d: Document) => !blind && d.version == t, write, true)
  }

  predicate FirstLocal(c: Config, t: int, blind: bool) {
    Encode(c.doc).Some? ==>
      && (!CallValidate(c).failed ==> Lifted(c.doc).version == t && (blind ==> !Legible(c.doc.content)))
      && (!blind ==> c.doc.version <= t)
  }

  lemma FirstVersionIsConsistent(t: int, blind: bool)
    requires t >= 1
    ensures Consistent(FirstVersion(t, blind))
  {
    var r := FirstVersion(t, blind);
    forall d: Document | r.write(d) && Encode(d).Some?
      ensures r.write(Encode(d).value)
    {
      assert IsJson(Encode(d).value.content);
    }
    forall i: nat, c: Config, d: Document | r.local(i, c) && r.stored(d) && IsJson(d.content)
      ensures DecisionFollows(r, i, Decide(c, Some(d)))
    {
    }
    forall i: nat, c: Config | r.local(i, c)
      ensures DecisionFollows(r, i, Decide(c, None))
    {
    }
  }

  /** Nothing above v is stored, and only v is written. */
  ghost predicate WritesTheGreatest(r: Rules, v: int) {
    (forall d: Document | r.stored(d) :: d.version <= v) && (forall d: Document | r.write(d) :: d.version == v)
  }

  lemma ActionKeepsStored(s: State, a: Action, key: string, r: Rules, v: int)
    requires Consistent(r) && Follows(s, key, r) && WritesTheGreatest(r, v)
    ensures KeepsStored(s, a, key)
  {
    ActionPuts(s, a, key, r);
  }

  lemma QuietRunFollows(s: State, actions: seq<Action>, key: string, r: Rules)
    requires Consistent(r) && Follows(s, key, r) && NoRefresh(actions, key)
    ensures Follows(Run(s, actions), key, r)
  {
    RunFollows(s, actions, key, r);
  }

  lemma RulesKeepStored(s: State, key: string, r: Rules, v: int)
    requires Consistent(r) && Follows(s, key, r) && WritesTheGreatest(r, v)
    ensures StoredNeverFalls(s, key)
  {
    forall actions: seq<Action>, a: Action | NoRefresh(actions, key) && !Refreshes(a, key)
      ensures KeepsStored(Run(s, actions), a, key)
    {
      QuietRunFollows(s, actions, key, r);
      ActionKeepsStored(Run(s, actions), a, key, r, v);
    }
  }

  lemma BlockedKeepsStored(s: State, key: string)
    requires AtRest(s, key) && key in s.remote && IsOnlyEmpty(s.remote[key].content)
    ensures StoredNeverFalls(s, key)
  {
    BlockedIsConsistent(s.remote[key]);
    RulesKeepStored(s, key, Blocked(s.remote[key]), s.remote[key].version);
  }

  lemma CalmStoredKeeps(s: State, key: string)
    requires AtRest(s, key) && key in s.remote && CalmStored(s, key) && !IsOnlyEmpty(s.remote[key].content)
    ensures StoredNeverFalls(s, key)
  {
    var r := s.remote[key].version;
    var t := r + 1;
    if x: nat :| Newer(s, key, x) {
      t := Held(s, key, x).doc.version;
    }
    TwoVersionsAreConsistent(r, t);
    forall m | 0 <= m < |s.managers|
      ensures ManagerFollows(TwoVersions(r, t), m, s.managers[m], key)
    {
      if key in s.managers[m].cur {
        assert HasEntry(s, key, m);
        assert Newer(s, key, m) ==> Held(s, key, m).doc.version == t;
      }
    }
    RulesKeepStored(s, key, TwoVersions(r, t), t);
  }

  lemma CalmAbsentKeeps(s: State, key: string)
    requires AtRest(s, key) && key !in s.remote && CalmAbsent(s, key)
    ensures StoredNeverFalls(s, key)
  {
    var t, blind := 1, true;
    if x: nat :| HasEntry(s, key, x) && Uploads(Held(s, key, x)) && Legible(Held(s, key, x).doc.content) {
      t, blind := Lifted(Held(s, key, x).doc).version, false;
    } else if x: nat :| HasEntry(s, key, x) && Uploads(Held(s, key, x)) {
      t := Lifted(Held(s, key, x).doc).version;
    }
    FirstVersionIsConsistent(t, blind);
    forall m | 0 <= m < |s.managers|
      ensures ManagerFollows(FirstVersion(t, blind), m, s.managers[m], key)
    {
      if key in s.managers[m].cur {
        assert HasEntry(s, key, m);
        assert FirstLocal(Held(s, key, m), t, blind);
      }
    }
    RulesKeepStored(s, key, FirstVersion(t, blind), t);
  }

  // ---------------------------------------------------------------- other states do lower it

  lemma Falls(s: State, s': State, key: string, a: Action)
    requires Reaches(s, s', key) && !a.Refresh?
    requires !KeepsStored(s', a, key)
    ensures !StoredNeverFalls(s, key)
  {
    var actions :| NoRefresh(actions, key) && Run(s, actions) == s';
    assert !KeepsStored(Run(s, actions), a, key) && !Refreshes(a, key);
  }

  /** x and y both read the same state; then y uploads. */
  lemma BothReadOneUploads(s: State, key: string, x: nat, y: nat, doc: Document) returns (s': State)
    requires HasEntry(s, key, x) && HasEntry(s, key, y) && x != y
    requires Decide(Held(s, key, y), Lookup(s.remote, key)) == Upload(doc) && Encode(doc).Some?
    ensures Reaches(s, s', key)
    ensures Comparing(s', |s.threads|, x, key, Lookup(s.remote, key), s.managers[x].cur[key])
    ensures OnlyTouches(s, s', y) && s'.remote == s.remote[key := Encode(doc).value]
    ensures s'.published == s.published + [(key, Encode(doc).value)]
  {
    var t, u := |s.threads|, |s.threads| + 1;
    ReachesItself(s, key);
    ReachesCompare(s, s, key, x);
    var s1 := AtCompare(s, x, key);
    assert HasEntry(s1, key, y);
    ReachesCompare(s, s1, key, y);
    var s2 := AtCompare(s1, y, key);
    ReachesThird(s, s2, key, Step(u, FINE));
    UploadCompletes(s2, u, y, key, Lookup(s.remote, key), s.managers[y].cur[key], doc);
    s' := Apply(Apply(Apply(s2, Step(u, FINE)), Step(u, FINE)), Step(u, FINE));
    assert s'.threads[t] == s2.threads[t] == s1.threads[t];
  }

  /** Then x, still comparing with what it read, uploads its own. */
  lemma StaleUploadFalls(s: State, key: string, x: nat, y: nat, mine: Document, theirs: Document)
    requires HasEntry(s, key, x) && HasEntry(s, key, y) && x != y
    requires Decide(Held(s, key, x), Lookup(s.remote, key)) == Upload(mine) && Encode(mine).Some?
    requires Decide(Held(s, key, y), Lookup(s.remote, key)) == Upload(theirs) && Encode(theirs).Some?
    requires mine.version < theirs.version
    ensures !StoredNeverFalls(s, key)
  {
    var s1 := BothReadOneUploads(s, key, x, y, theirs);
    var t := |s.threads|;
    var remote, ptr := Lookup(s.remote, key), s.managers[x].cur[key];
    ReachesThird(s, s1, key, Step(t, FINE));
    UploadIsMarshalled(s1, t, x, key, remote, ptr, mine);
    UploadCompletes(s1, t, x, key, remote, ptr, mine);
    Falls(s, Apply(Apply(s1, Step(t, FINE)), Step(t, FINE)), key, Step(t, FINE));
  }

  /** A write that took effect although it failed, and is tried again. */
  const LOST := Reply(true, false, true, true)

  /** x has written its first version, but tries again; meanwhile y reads it and uploads a newer one. */
  lemma RetriedUploadFalls(s: State, key: string, x: nat, y: nat)
    requires HasEntry(s, key, x) && HasEntry(s, key, y) && key !in s.remote
    requires Uploads(Held(s, key, x)) && Legible(Held(s, key, x).doc.content) && Encode(Held(s, key, y).doc).Some?
    requires Held(s, key, y).doc.version > Lifted(Held(s, key, x).doc).version
    ensures !StoredNeverFalls(s, key)
  {
    var t := |s.threads|;
    var s1 := FirstWriteIsRetried(s, key, x);
    var sent := s1.remote[key];
    assert HasEntry(s1, key, y) && Held(s1, key, y) == Held(s, key, y);
    assert Decide(Held(s1, key, y), Some(sent)) == Upload(Held(s, key, y).doc);
    ReachesCompare(s, s1, key, y);
    var s2, u := AtCompare(s1, y, key), |s1.threads|;
    ReachesThird(s, s2, key, Step(u, FINE));
    UploadCompletes(s2, u, y, key, Some(sent), s1.managers[y].cur[key], Held(s, key, y).doc);
    var s3 := Apply(Apply(Apply(s2, Step(u, FINE)), Step(u, FINE)), Step(u, FINE));
    assert s3.threads[t] == s2.threads[t] == s1.threads[t];
    WriteTakesEffect(s3, t, x, key, sent, FINE);
    Falls(s, s3, key, Step(t, FINE));
  }

  lemma FirstWriteIsRetried(s: State, key: string, x: nat) returns (s': State)
    requires HasEntry(s, key, x) && key !in s.remote
    requires Uploads(Held(s, key, x)) && Legible(Held(s, key, x).doc.content)
    ensures Reaches(s, s', key) && OnlyTouches(s, s', x) && key in s'.remote && !IsOnlyEmpty(s'.remote[key].content)
    ensures s'.remote[key].version == Lifted(Held(s, key, x).doc).version
    ensures |s.threads| < |s'.threads| && s'.threads[|s.threads|] == Thread(x, [key], Writing(s'.remote[key]))
    ensures x < |s'.managers| && key in s'.managers[x].cur
  {
    var t, doc := |s.threads|, Lifted(Held(s, key, x).doc);
    ReachesItself(s, key);
    ReachesCompare(s, s, key, x);
    var s1 := AtCompare(s, x, key);
    ReachesThird(s, s1, key, Step(t, FINE));
    UploadIsMarshalled(s1, t, x, key, None, s.managers[x].cur[key], doc);
    var s2 := Apply(Apply(s1, Step(t, FINE)), Step(t, FINE));
    WriteTakesEffect(s2, t, x, key, Encode(doc).value, LOST);
    s' := Apply(s2, Step(t, LOST));
    ReachesNext(s, s2, key, Step(t, LOST));
  }

  lemma UncalmStoredFalls(s: State, key: string)
    requires AtRest(s, key) && key in s.remote && !CalmStored(s, key)
    ensures !StoredNeverFalls(s, key)
  {
    var x: nat, y: nat :| Newer(s, key, x) && Newer(s, key, y) && Held(s, key, x).doc.version != Held(s, key, y).doc.version;
    if Held(s, key, x).doc.version < Held(s, key, y).doc.version {
      StaleUploadFalls(s, key, x, y, Held(s, key, x).doc, Held(s, key, y).doc);
    } else {
      StaleUploadFalls(s, key, y, x, Held(s, key, y).doc, Held(s, key, x).doc);
    }
  }

  lemma UncalmAbsentFalls(s: State, key: string)
    requires AtRest(s, key) && key !in s.remote && !CalmAbsent(s, key)
    ensures !StoredNeverFalls(s, key)
  {
    var x: nat, y: nat :| HasEntry(s, key, x) && HasEntry(s, key, y) && Uploads(Held(s, key, x))
                          && !CalmPair(Held(s, key, x), Held(s, key, y));
    var c, d := Held(s, key, x), Held(s, key, y);
    if Uploads(d) && Lifted(d.doc).version < Lifted(c.doc).version {
      StaleUploadFalls(s, key, y, x, Lifted(d.doc), Lifted(c.doc));
    } else if Uploads(d) && Lifted(c.doc).version < Lifted(d.doc).version {
      StaleUploadFalls(s, key, x, y, Lifted(c.doc), Lifted(d.doc));
    } else {
      RetriedUploadFalls(s, key, x, y);
    }
  }

  /**
   * The stored version can go down although every sync compares versions first. From a state of
   * rest, over all runs of any number of syncs with faults and retries and all deliveries, it
   * never does exactly when the versions that can be uploaded leave no choice.
   */
  lemma StoredNeverFallsIff(s: State, key: string)
    requires AtRest(s, key)
    ensures StoredNeverFalls(s, key) <==> Calm(s, key)
  {
    if key in s.remote {
      if !CalmStored(s, key) {
        UncalmStoredFalls(s, key);
      } else if IsOnlyEmpty(s.remote[key].content) {
        BlockedKeepsStored(s, key);
      } else {
        CalmStoredKeeps(s, key);
      }
    } else if CalmAbsent(s, key) {
      CalmAbsentKeeps(s, key);
    } else {
      UncalmAbsentFalls(s, key);
    }
  }

  // ---------------------------------------------------------------- the version a manager holds

  ghost predicate KeepsHeld(s: State, a: Action, key: string, m: nat) {
    HasEntry(s, key, m) && HasEntry(Apply(s, a), key, m) && Held(s, key, m).doc.version <= Held(Apply(s, a), key, m).doc.version
  }

  /** No run, without a refresh of the key, ever lowers the version the manager holds. */
  ghost predicate HeldNeverFalls(s: State, key: string, m: nat) {
    forall actions: seq<Action>, a: Action | NoRefresh(actions, key) && !Refreshes(a, key) :: KeepsHeld(Run(s, actions), a, key, m)
  }

  /** A version that is stored, or that a manager can upload over what is stored and others can adopt. */
  ghost predicate Adoptable(s: State, key: string, w: int) {
    && key in s.remote
    && (w == s.remote[key].version ||
        exists x: nat :: HasEntry(s, key, x) && Legible(Held(s, key, x).doc.content)
                         && Held(s, key, x).doc.version == w && w > s.remote[key].version)
  }

  /** At most one version ahead of the manager's own can reach it. */
  ghost predicate CalmFor(s: State, key: string, m: nat)
    requires key in s.remote && HasEntry(s, key, m)
  {
    var mine := Held(s, key, m).doc.version;
    || IsOnlyEmpty(s.remote[key].content)
    || forall v, w | Adoptable(s, key, v) && Adoptable(s, key, w) && v > mine && w > mine :: v == w
  }

  /** Manager m holds a version from `mine` to `ahead`, and adopts nothing but `ahead`. */
  ghost function OneAhead(r: int, m: nat, mine: int, ahead: int): Rules {
    Rules((i: nat, c: Config) => AheadLocal(c, r, mine, ahead) && (i == m ==> mine <= c.doc.version <= ahead),
          (d: Document) => d.version >= r && OnlyAhead(d, mine, ahead),
          (d: Document) => d.version <= r || OnlyAhead(d, mine, ahead),
          (i: nat, d: Document) => Legible(d.content) && OnlyAhead(d, mine, ahead) && (i == m ==> d.version == ahead),
          (d: Document) => d.version > r && OnlyAhead(d, mine, ahead),
          false)
  }

  predicate OnlyAhead(d: Document, mine: int, ahead: int) {
    Legible(d.content) ==> d.version <= mine || d.version == ahead
  }

  predicate AheadLocal(c: Config, r: int, mine: int, ahead: int) {
    c.doc.version > r ==> OnlyAhead(c.doc, mine, ahead)
  }

  lemma OneAheadDecides(r: int, m: nat, mine: int, ahead: int, i: nat, c: Config, d: Document)
    requires r >= 1 && ahead > mine && ahead >= 1 && r <= ahead
    requires OneAhead(r, m, mine, ahead).local(i, c) && OneAhead(r, m, mine, ahead).stored(d) && IsJson(d.content)
    ensures DecisionFollows(OneAhead(r, m, mine, ahead), i, Decide(c, Some(d)))
  {
    assert AheadLocal(c, r, mine, ahead) && OnlyAhead(d, mine, ahead);
    assert !IsOnlyEmpty(d.content) ==> Legible(d.content);
  }

  lemma OneAheadReplaces(r: int, m: nat, mine: int, ahead: int)
    requires r >= 1 && ahead > mine && ahead >= 1 && r <= ahead
    ensures ReplacementsFollow(OneAhead(r, m, mine, ahead))
  {
    var rules := OneAhead(r, m, mine, ahead);
    forall i: nat, d: Document | rules.adopt(i, d) && IsJson(d.content)
      ensures rules.local(i, Decode(d))
    {
      assert OnlyAhead(d, mine, ahead);
      assert AheadLocal(Decode(d), r, mine, ahead);
    }
    forall i: nat, c: Config, d: Document | rules.local(i, c) && rules.published(d) && Delivers(c, d)
      ensures rules.local(i, Decode(d))
    {
      assert AheadLocal(Decode(d), r, mine, ahead) && Legible(d.content);
    }
    forall i: nat, c: Config | rules.local(i, c) && !CallValidate(c).failed
      ensures rules.local(i, c.(doc := Lifted(c.doc)))
    {
      assert AheadLocal(c, r, mine, ahead) && AheadLocal(c.(doc := Lifted(c.doc)), r, mine, ahead);
    }
  }

  lemma OneAheadWrites(r: int, m: nat, mine: int, ahead: int)
    requires r >= 1 && ahead > mine && ahead >= 1 && r <= ahead
    ensures WritesFollow(OneAhead(r, m, mine, ahead))
  {
    var rules := OneAhead(r, m, mine, ahead);
    forall d: Document | rules.write(d) && Encode(d).Some?
      ensures rules.write(Encode(d).value)
    {
      assert OnlyAhead(d, mine, ahead) && OnlyAhead(Encode(d).value, mine, ahead);
      assert IsJson(Encode(d).value.content);
    }
    forall d: Document | rules.write(d)
      ensures rules.write(Lifted(d))
    {
      assert OnlyAhead(d, mine, ahead) && OnlyAhead(Lifted(d), mine, ahead);
    }
  }

  lemma OneAheadIsConsistent(r: int, m: nat, mine: int, ahead: int)
    requires r >= 1 && ahead > mine && ahead >= 1 && r <= ahead
    ensures Consistent(OneAhead(r, m, mine, ahead))
  {
    var rules := OneAhead(r, m, mine, ahead);
    forall i: nat, c: Config, d: Document | rules.local(i, c) && rules.stored(d) && IsJson(d.content)
      ensures DecisionFollows(rules, i, Decide(c, Some(d)))
    {
      OneAheadDecides(r, m, mine, ahead, i, c, d);
    }
    OneAheadReplaces(r, m, mine, ahead);
    OneAheadWrites(r, m, mine, ahead);
  }

  lemma ActionKeepsHeld(s: State, a: Action, key: string, m: nat, rules: Rules, ahead: int)
    requires Consistent(rules) && Follows(s, key, rules) && HasEntry(s, key, m) && !Refreshes(a, key)
    requires forall c | rules.local(m, c) :: c.doc.version <= ahead
    requires forall d | rules.adopt(m, d) :: d.version == ahead
    ensures KeepsHeld(s, a, key, m)
  {
    ActionMovesEntry(s, a, key, m, rules);
    assert ManagerFollows(rules, m, s.managers[m], key);
  }

  lemma {:induction false} EntryRemains(s: State, actions: seq<Action>, key: string, m: nat, r: Rules)
    requires Consistent(r) && Follows(s, key, r) && HasEntry(s, key, m) && NoRefresh(actions, key)
    ensures HasEntry(Run(s, actions), key, m)
    decreases |actions|
  {
    if actions != [] {
      ActionMovesEntry(s, actions[0], key, m, r);
      ActionFollows(s, actions[0], key, r);
      EntryRemains(Apply(s, actions[0]), actions[1..], key, m, r);
    }
  }

  lemma RulesKeepHeld(s: State, key: string, m: nat, rules: Rules, ahead: int)
    requires Consistent(rules) && Follows(s, key, rules) && HasEntry(s, key, m)
    requires forall c | rules.local(m, c) :: c.doc.version <= ahead
    requires forall d | rules.adopt(m, d) :: d.version == ahead
    ensures HeldNeverFalls(s, key, m)
  {
    forall actions: seq<Action>, a: Action | NoRefresh(actions, key) && !Refreshes(a, key)
      ensures KeepsHeld(Run(s, actions), a, key, m)
    {
      QuietRunFollows(s, actions, key, rules);
      EntryRemains(s, actions, key, m, rules);
      ActionKeepsHeld(Run(s, actions), a, key, m, rules, ahead);
    }
  }

  /** The one version that is ahead of the manager's, or some version above both if there is none. */
  ghost predicate IsAhead(s: State, key: string, mine: int, ahead: int)
    requires key in s.remote
  {
    && ahead > mine && ahead >= s.remote[key].version
    && forall w | Adoptable(s, key, w) && w > mine :: w == ahead
  }

  lemma EntryFollowsOneAhead(s: State, key: string, m: nat, ahead: int, x: nat)
    requires AtRest(s, key) && key in s.remote && HasEntry(s, key, m) && HasEntry(s, key, x)
    requires IsAhead(s, key, Held(s, key, m).doc.version, ahead)
    ensures OneAhead(s.remote[key].version, m, Held(s, key, m).doc.version, ahead).local(x, Held(s, key, x))
  {
    var r, mine, d := s.remote[key].version, Held(s, key, m).doc.version, Held(s, key, x).doc;
    assert AheadLocal(Held(s, key, x), r, mine, ahead) by {
      if d.version > r && Legible(d.content) {
        assert Adoptable(s, key, d.version);
      }
    }
  }

  lemma CalmKeepsHeld(s: State, key: string, m: nat, ahead: int)
    requires AtRest(s, key) && key in s.remote && HasEntry(s, key, m) && !IsOnlyEmpty(s.remote[key].content)
    requires IsAhead(s, key, Held(s, key, m).doc.version, ahead)
    ensures HeldNeverFalls(s, key, m)
  {
    var r, mine := s.remote[key].version, Held(s, key, m).doc.version;
    var rules := OneAhead(r, m, mine, ahead);
    OneAheadIsConsistent(r, m, mine, ahead);
    forall x | 0 <= x < |s.managers|
      ensures ManagerFollows(rules, x, s.managers[x], key)
    {
      if key in s.managers[x].cur {
        EntryFollowsOneAhead(s, key, m, ahead, x);
      }
    }
    assert Adoptable(s, key, r);
    assert OnlyAhead(s.remote[key], mine, ahead);
    RulesKeepHeld(s, key, m, rules, ahead);
  }

  /** What is stored fails validation: entries change by delivery and by being lifted alone. */
  lemma BlockedKeepsHeld(s: State, key: string, m: nat)
    requires AtRest(s, key) && key in s.remote && HasEntry(s, key, m) && IsOnlyEmpty(s.remote[key].content)
    ensures HeldNeverFalls(s, key, m)
  {
    var r := Blocked(s.remote[key]);
    BlockedIsConsistent(s.remote[key]);
    forall actions: seq<Action>, a: Action | NoRefresh(actions, key) && !Refreshes(a, key)
      ensures KeepsHeld(Run(s, actions), a, key, m)
    {
      QuietRunFollows(s, actions, key, r);
      EntryRemains(s, actions, key, m, r);
      ActionMovesEntry(Run(s, actions), a, key, m, r);
    }
  }

  lemma HeldFalls(s: State, s': State, key: string, m: nat, a: Action)
    requires Reaches(s, s', key) && !a.Refresh? && !KeepsHeld(s', a, key, m)
    ensures !HeldNeverFalls(s, key, m)
  {
    var actions :| NoRefresh(actions, key) && Run(s, actions) == s';
    assert !KeepsHeld(Run(s, actions), a, key, m) && !Refreshes(a, key);
  }

  lemma ReachesOn(s: State, s1: State, s2: State, key: string)
    requires Reaches(s, s1, key) && Reaches(s1, s2, key)
    ensures Reaches(s, s2, key)
  {
    var a :| NoRefresh(a, key) && Run(s, a) == s1;
    var b :| NoRefresh(b, key) && Run(s1, b) == s2;
    RunInParts(s, a, b);
    assert NoRefresh(a + b, key);
  }

  /** m reads what is stored; y uploads a newer version, which is delivered to m before m replaces its entry. */
  lemma AdoptionGoesStale(s: State, key: string, m: nat, y: nat) returns (s': State)
    requires HasEntry(s, key, m) && HasEntry(s, key, y)
    requires key in s.remote && !IsOnlyEmpty(s.remote[key].content) && Legible(Held(s, key, y).doc.content)
    requires Held(s, key, m).doc.version < s.remote[key].version < Held(s, key, y).doc.version
    ensures Reaches(s, s', key) && HasEntry(s', key, m) && Held(s', key, m).doc.version == Held(s, key, y).doc.version
    ensures |s.threads| < |s'.threads| && s'.threads[|s.threads|] == Thread(m, [key], Replacing(s.remote[key]))
  {
    var theirs, stale := Held(s, key, y).doc, s.remote[key];
    var s1 := BothReadOneUploads(s, key, m, y, theirs);
    var t, n, ptr := |s.threads|, |s.published|, s.managers[m].cur[key];
    AdoptionReplaces(s1, t, m, key, Some(stale), ptr, stale);
    ReachesNext(s, s1, key, Step(t, FINE));
    var s2 := Apply(s1, Step(t, FINE));
    assert IsJson(Encode(theirs).value.content);
    s' := DeliversTheNewer(s2, key, m, n, ptr);
    ReachesNext(s, s2, key, Deliver(m, n));
  }

  lemma StaleAdoptionFalls(s: State, s0: State, key: string, m: nat, y: nat)
    requires Reaches(s, s0, key) && HasEntry(s0, key, m) && HasEntry(s0, key, y)
    requires key in s0.remote && !IsOnlyEmpty(s0.remote[key].content) && Legible(Held(s0, key, y).doc.content)
    requires Held(s0, key, m).doc.version < s0.remote[key].version < Held(s0, key, y).doc.version
    ensures !HeldNeverFalls(s, key, m)
  {
    var s1 := AdoptionGoesStale(s0, key, m, y);
    ReachesOn(s, s0, s1, key);
    HeldFalls(s, s1, key, m, Step(|s0.threads|, FINE));
  }

  lemma DeliversTheNewer(s: State, key: string, m: nat, n: nat, ptr: nat) returns (s': State)
    requires HasEntry(s, key, m) && s.managers[m].cur[key] == ptr && n < |s.published| && s.published[n].0 == key
    requires Delivers(Held(s, key, m), s.published[n].1)
    ensures s' == Apply(s, Deliver(m, n)) && s'.threads == s.threads
    ensures HasEntry(s', key, m) && Held(s', key, m).doc == s.published[n].1
  {
    s' := Apply(s, Deliver(m, n));
  }

  /** First x uploads, so that what m reads is ahead of it already. */
  lemma TwoAheadFall(s: State, key: string, m: nat, x: nat, y: nat)
    requires HasEntry(s, key, m) && HasEntry(s, key, x) && HasEntry(s, key, y)
    requires key in s.remote && !IsOnlyEmpty(s.remote[key].content)
    requires Legible(Held(s, key, x).doc.content) && Legible(Held(s, key, y).doc.content)
    requires s.remote[key].version < Held(s, key, x).doc.version
    requires Held(s, key, m).doc.version < Held(s, key, x).doc.version < Held(s, key, y).doc.version
    ensures !HeldNeverFalls(s, key, m)
  {
    var s1 := BothReadOneUploads(s, key, m, x, Held(s, key, x).doc);
    assert HasEntry(s1, key, m) && HasEntry(s1, key, y);
    assert Held(s1, key, y) == Held(s, key, y) && IsJson(s1.remote[key].content);
    StaleAdoptionFalls(s, s1, key, m, y);
  }

  lemma UncalmHeldFalls(s: State, key: string, m: nat)
    requires AtRest(s, key) && key in s.remote && HasEntry(s, key, m) && !CalmFor(s, key, m)
    ensures !HeldNeverFalls(s, key, m)
  {
    var mine := Held(s, key, m).doc.version;
    var v, w :| Adoptable(s, key, v) && Adoptable(s, key, w) && mine < v < w;
    var y: nat :| HasEntry(s, key, y) && Legible(Held(s, key, y).doc.content) && Held(s, key, y).doc.version == w;
    if v == s.remote[key].version {
      ReachesItself(s, key);
      StaleAdoptionFalls(s, s, key, m, y);
    } else {
      var x: nat :| HasEntry(s, key, x) && Legible(Held(s, key, x).doc.content) && Held(s, key, x).doc.version == v;
      TwoAheadFall(s, key, m, x, y);
    }
  }

  /**
   * The version a manager holds can go down as well: an adoption may come after a newer delivery.
   * From a state of rest in which something is stored, it never does exactly when at most one of
   * the versions that can be stored and read back is ahead of the manager's own.
   */
  lemma HeldNeverFallsIff(s: State, key: string, m: nat)
    requires AtRest(s, key) && key in s.remote && HasEntry(s, key, m)
    ensures HeldNeverFalls(s, key, m) <==> CalmFor(s, key, m)
  {
    var r, mine := s.remote[key].version, Held(s, key, m).doc.version;
    if !CalmFor(s, key, m) {
      UncalmHeldFalls(s, key, m);
    } else if IsOnlyEmpty(s.remote[key].content) {
      BlockedKeepsHeld(s, key, m);
    } else {
      assert Adoptable(s, key, r);
      if w :| Adoptable(s, key, w) && w > mine {
        CalmKeepsHeld(s, key, m, w);
      } else {
        CalmKeepsHeld(s, key, m, Max(mine, r) + 1);
      }
    }
  }

  // ---------------------------------------------------------------- the smallest examples

  /** Two managers, at versions `mine` and 3, with `stored` on the remote side and nothing under way. */
  ghost function Start(key: string, name: string, content: Content, mine: int, stored: int): State {
    State(map[key := Document(name, stored, content)], [],
      [Manager([Decode(Document(name, mine, content))], map[key := 0]),
       Manager([Decode(Document(name, 3, content))], map[key := 0])],
      [])
  }

  /** The remote side can go from 3 back to 2. */
  lemma RemoteVersionCanRegress(key: string, name: string, content: Content)
    requires IsJson(content) && !IsOnlyEmpty(content)
    ensures !StoredNeverFalls(Start(key, name, content, 2, 1), key)
  {
    var s := Start(key, name, content, 2, 1);
    assert Newer(s, key, 0) && Newer(s, key, 1);
    StoredNeverFallsIff(s, key);
  }

  /** A manager can go from 3 back to 2. */
  lemma LocalVersionCanRegress(key: string, name: string, content: Content)
    requires IsJson(content) && !IsOnlyEmpty(content)
    ensures !HeldNeverFalls(Start(key, name, content, 1, 2), key, 0)
  {
    var s := Start(key, name, content, 1, 2);
    assert HasEntry(s, key, 1) && Held(s, key, 1).doc.version == 3;
    assert Adoptable(s, key, 2) && Adoptable(s, key, 3);
    HeldNeverFallsIff(s, key, 0);
  }
}
