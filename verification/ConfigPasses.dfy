/** A `SyncConfig` over several keys, run by itself, as a pass of syncs of single keys. */
module ConfigPasses {
  import opened Common
  import opened ConfigModel
  import opened ConfigInterleaving
  import opened ConfigConvergence

  /** The two states differ in their threads alone. */
  ghost predicate SameStores(a: State, b: State) {
    a.remote == b.remote && a.published == b.published && a.managers == b.managers
  }

  /** With nothing lost on the way, a sync fails when a value is invalid or cannot be marshalled. */
  ghost predicate Fails(d: Decision) {
    d.Reject? || (d.Upload? && Encode(d.doc).None?)
  }

  /** The thread is in the middle of one key. */
  ghost predicate Working(s: State, th: Thread, key: string) {
    WellFormed(s, th) && th.todo[0] == key && HasEntry(s, key, th.manager)
  }

  /** Whether the sync of that key is going to fail. */
  ghost predicate WillFail(s: State, th: Thread, key: string)
    requires Working(s, th, key)
  {
    var heap := s.managers[th.manager].heap;
    match th.phase
    case Fetching => Fails(Decide(Held(s, key, th.manager), Lookup(s.remote, key)))
    case Fetched(remote) => Fails(Decide(Held(s, key, th.manager), remote))
    case Loaded(remote, ptr) => Fails(Decide(heap[ptr], remote))
    case Replacing(_) => false
    case Marshalling(ptr) => Encode(heap[ptr].doc).None?
    case Writing(_) => false
  }

  /** Keys still to do make no difference to a step, until the first key is done or has failed. */
  lemma StepBeforeOthers(s: State, th: Thread, key: string, rest: seq<string>)
    requires Working(s, th, key) && th.todo == [key]
    ensures WellFormed(s, th.(todo := [key] + rest))
    ensures
      var (one, m, put) := StepThread(s, th, FINE);
      var (many, m', put') := StepThread(s, th.(todo := [key] + rest), FINE);
      && m' == m && put' == put
      && (one.todo == [key] ==> many == one.(todo := [key] + rest))
      && (one.todo != [key] ==> one == Stopped(th) && many == Thread(th.manager, if WillFail(s, th, key) then [] else rest, Fetching))
  {
    assert [key][1..] == [] && ([key] + rest)[1..] == rest;
  }

  /** What is going to happen does not change on the way. */
  lemma StepKeepsFate(s: State, t: nat, key: string)
    requires t < |s.threads| && Working(s, s.threads[t], key) && s.threads[t].todo == [key]
    ensures
      var s' := Apply(s, Step(t, FINE));
      s'.threads[t].todo == [key] ==>
        Working(s', s'.threads[t], key) && (WillFail(s', s'.threads[t], key) <==> WillFail(s, s.threads[t], key))
  {
    StepGrowsHeap(s, s.threads[t], FINE);
    StepKeepsEntry(s, s.threads[t], FINE, key);
  }

  /** From x, the thread has come to these keys, and all else is as in y. */
  ghost predicate Reached(x: State, x': State, t: nat, manager: nat, todo: seq<string>, y: State) {
    t < |x.threads| && SameStores(x', y) && x'.threads == x.threads[t := Thread(manager, todo, Fetching)]
  }

  /** Thread t of x does what thread u of y does with its key, and has more keys after that. */
  ghost predicate Shadows(x: State, t: nat, y: State, u: nat, key: string, rest: seq<string>, fails: bool) {
    && SameStores(x, y) && t < |x.threads| && u < |y.threads|
    && y.threads[u].todo == [key] && Working(y, y.threads[u], key) && (WillFail(y, y.threads[u], key) <==> fails)
    && x.threads[t] == y.threads[u].(todo := [key] + rest)
  }

  lemma ShadowSteps(x: State, t: nat, y: State, u: nat, key: string, rest: seq<string>, fails: bool)
    requires Shadows(x, t, y, u, key, rest, fails)
    ensures
      var x', y' := Apply(x, Step(t, FINE)), Apply(y, Step(u, FINE));
      var manager := y.threads[u].manager;
      && |y'.threads| == |y.threads| && y'.threads[u].manager == manager
      && if y'.threads[u].todo == [key] then Shadows(x', t, y', u, key, rest, fails) && OnlyMoves(x, x', t)
         else y'.threads[u].todo == [] && Reached(x, x', t, manager, if fails then [] else rest, y')
  {
    StepBeforeOthers(y, y.threads[u], key, rest);
    StepKeepsFate(y, u, key);
  }

  ghost predicate OnlyMoves(x: State, x': State, t: nat) {
    t < |x.threads| == |x'.threads| && x'.threads == x.threads[t := x'.threads[t]]
  }

  ghost function Repeat(s: State, a: Action, n: nat): State
    decreases n
  {
    if n == 0 then s else Repeat(Apply(s, a), a, n - 1)
  }

  lemma {:induction false} RepeatOn(s: State, a: Action, m: nat, n: nat)
    ensures Repeat(s, a, m + n) == Repeat(Repeat(s, a, m), a, n)
    decreases m
  {
    if m > 0 {
      RepeatOn(Apply(s, a), a, m - 1, n);
    }
  }

  lemma {:induction false} OverIsOver(s: State, t: nat, r: Reply, n: nat)
    requires t < |s.threads| && s.threads[t].todo == []
    ensures Repeat(s, Step(t, r), n) == s
  {
    if n > 0 {
      OverIsOver(s, t, r, n - 1);
    }
  }

  /** While y goes through its key, x goes through its first one. */
  lemma {:induction false} ShadowRuns(x: State, t: nat, y: State, u: nat, key: string, rest: seq<string>, fails: bool, k: nat)
    returns (n: nat)
    requires Shadows(x, t, y, u, key, rest, fails)
    requires |Repeat(y, Step(u, FINE), k).threads| > u && Repeat(y, Step(u, FINE), k).threads[u].todo == []
    ensures n <= k
    ensures Reached(x, Repeat(x, Step(t, FINE), n), t, y.threads[u].manager, if fails then [] else rest, Repeat(y, Step(u, FINE), k))
    decreases k
  {
    assert k > 0;
    var x', y' := Apply(x, Step(t, FINE)), Apply(y, Step(u, FINE));
    ShadowSteps(x, t, y, u, key, rest, fails);
    if y'.threads[u].todo == [key] {
      var more := ShadowRuns(x', t, y', u, key, rest, fails, k - 1);
      n := more + 1;
      MovedThenReached(x, x', Repeat(x, Step(t, FINE), n), t, y.threads[u].manager,
                       if fails then [] else rest, Repeat(y', Step(u, FINE), k - 1));
    } else {
      OverIsOver(y', u, FINE, k - 1);
      n := 1;
      assert Repeat(x, Step(t, FINE), 1) == Repeat(x', Step(t, FINE), 0) == x';
    }
  }

  lemma MovedThenReached(x: State, x': State, x'': State, t: nat, manager: nat, todo: seq<string>, y: State)
    requires OnlyMoves(x, x', t) && Reached(x', x'', t, manager, todo, y)
    ensures Reached(x, x'', t, manager, todo, y)
  {
  }

  lemma SoloRepeats(s: State, manager: nat, key: string)
    ensures Solo(s, manager, key) == Repeat(Apply(s, Spawn(manager, [key])), Step(|s.threads|, FINE), 5)
  {
    var a, s0 := Step(|s.threads|, FINE), Apply(s, Spawn(manager, [key]));
    assert [Spawn(manager, [key]), a, a, a, a, a] == [Spawn(manager, [key])] + [a, a, a, a, a];
    RunOne(s, Spawn(manager, [key]), [a, a, a, a, a]);
    RunFive(s0, a);
    RepeatOn(s0, a, 2, 3);
    var s2 := Apply(Apply(s0, a), a);
    assert Repeat(s0, a, 2) == Repeat(Apply(s0, a), a, 1) == s2;
    assert Repeat(s2, a, 3) == Repeat(Apply(s2, a), a, 2) == Repeat(Apply(Apply(s2, a), a), a, 1);
  }

  /** The first key of a thread is synced as by a sync of its own. */
  lemma FirstKeyIsSolo(x: State, t: nat, y: State, manager: nat, key: string, rest: seq<string>) returns (n: nat)
    requires SameStores(x, y) && t < |x.threads| && x.threads[t] == Thread(manager, [key] + rest, Fetching)
    requires HasEntry(y, key, manager)
    ensures n <= 5
    ensures
      Reached(x, Repeat(x, Step(t, FINE), n), t, manager, if FailsAt(y, manager, key) then [] else rest, Solo(y, manager, key))
  {
    var u, y0 := |y.threads|, Apply(y, Spawn(manager, [key]));
    SoloRepeats(y, manager, key);
    SoloSettles(y, manager, key);
    assert Shadows(x, t, y0, u, key, rest, FailsAt(y, manager, key));
    n := ShadowRuns(x, t, y0, u, key, rest, FailsAt(y, manager, key), 5);
  }

  ghost predicate FailsAt(s: State, manager: nat, key: string)
    requires HasEntry(s, key, manager)
  {
    Fails(Decide(Held(s, key, manager), Lookup(s.remote, key)))
  }

  ghost predicate HasEntries(s: State, manager: nat, keys: seq<string>) {
    forall i | 0 <= i < |keys| :: HasEntry(s, keys[i], manager)
  }

  lemma SoloKeepsEntries(s: State, manager: nat, at: string, keys: seq<string>)
    requires HasEntry(s, at, manager) && HasEntries(s, manager, keys)
    ensures HasEntries(Solo(s, manager, at), manager, keys)
  {
    forall i | 0 <= i < |keys|
      ensures HasEntry(Solo(s, manager, at), keys[i], manager)
    {
      if keys[i] == at {
        SoloSettles(s, manager, at);
      } else {
        SoloElsewhere(s, manager, at, keys[i]);
        assert HasEntry(s, keys[i], manager);
      }
    }
  }

  /** The keys of a `SyncConfig`, up to the first whose sync fails. */
  ghost function OrderOf(s: State, manager: nat, keys: seq<string>): (order: seq<(nat, string)>)
    requires HasEntries(s, manager, keys)
    ensures |order| <= |keys| && forall i | 0 <= i < |order| :: order[i] == (manager, keys[i])
    decreases |keys|
  {
    if keys == [] then []
    else if FailsAt(s, manager, keys[0]) then [(manager, keys[0])]
    else
      SoloKeepsEntries(s, manager, keys[0], keys);
      [(manager, keys[0])] + OrderOf(Solo(s, manager, keys[0]), manager, keys[1..])
  }

  lemma {:induction false} KeysAreAPass(x: State, t: nat, y: State, manager: nat, keys: seq<string>) returns (n: nat)
    requires SameStores(x, y) && t < |x.threads| && x.threads[t] == Thread(manager, keys, Fetching)
    requires HasEntries(y, manager, keys)
    ensures n <= 5 * |keys|
    ensures Reached(x, Repeat(x, Step(t, FINE), n), t, manager, [], Pass(y, OrderOf(y, manager, keys)))
    decreases |keys|, 1
  {
    if keys == [] {
      n := 0;
    } else {
      var key, rest := keys[0], keys[1..];
      assert keys == [key] + rest;
      OrderOneMore(y, manager, key, rest);
      n := FirstKeyIsSolo(x, t, y, manager, key, rest);
      if !FailsAt(y, manager, key) {
        n := OtherKeysAreAPass(x, t, n, Solo(y, manager, key), manager, rest);
      }
    }
  }

  /** After n steps the first key is done, and then the others. */
  lemma {:induction false} OtherKeysAreAPass(x: State, t: nat, n: nat, y: State, manager: nat, rest: seq<string>) returns (all: nat)
    requires Reached(x, Repeat(x, Step(t, FINE), n), t, manager, rest, y) && HasEntries(y, manager, rest)
    ensures all <= n + 5 * |rest|
    ensures Reached(x, Repeat(x, Step(t, FINE), all), t, manager, [], Pass(y, OrderOf(y, manager, rest)))
    decreases |rest|, 2
  {
    var x' := Repeat(x, Step(t, FINE), n);
    var more := KeysAreAPass(x', t, y, manager, rest);
    all := n + more;
    RepeatOn(x, Step(t, FINE), n, more);
    MovedThenReached(x, x', Repeat(x, Step(t, FINE), all), t, manager, [], Pass(y, OrderOf(y, manager, rest)));
  }

  lemma OrderOneMore(s: State, manager: nat, key: string, rest: seq<string>)
    requires HasEntries(s, manager, [key] + rest)
    ensures HasEntry(s, key, manager) && HasEntries(Solo(s, manager, key), manager, rest)
    ensures Pass(s, OrderOf(s, manager, [key] + rest)) ==
            if FailsAt(s, manager, key) then Solo(s, manager, key)
            else Pass(Solo(s, manager, key), OrderOf(Solo(s, manager, key), manager, rest))
  {
    var keys := [key] + rest;
    assert keys[0] == key && keys[1..] == rest;
    SoloKeepsEntries(s, manager, key, keys);
    assert HasEntries(Solo(s, manager, key), manager, keys[1..]);
    var order := OrderOf(s, manager, keys);
    PassOneMore(s, (manager, key), order);
    if FailsAt(s, manager, key) {
      assert order[1..] == [];
    } else {
      assert order[1..] == OrderOf(Solo(s, manager, key), manager, rest);
    }
  }

  lemma PassOneMore(s: State, first: (nat, string), order: seq<(nat, string)>)
    requires order != [] && order[0] == first
    ensures Pass(s, order) == Pass(Solo(s, first.0, first.1), order[1..])
  {
  }

  /** A `SyncConfig` that runs by itself: no key takes more than five steps. */
  ghost function SyncAlone(s: State, manager: nat, keys: seq<string>): State {
    Repeat(Apply(s, Spawn(manager, keys)), Step(|s.threads|, FINE), 5 * |keys|)
  }

  /**
   * A `SyncConfig` of any keys that runs by itself leaves the remote side, what was published and
   * every manager as a pass of the syncs of its keys does, up to the first that fails.
   */
  lemma SyncAloneIsAPass(s: State, y: State, manager: nat, keys: seq<string>)
    requires SameStores(s, y) && HasEntries(y, manager, keys)
    ensures SameStores(SyncAlone(s, manager, keys), Pass(y, OrderOf(y, manager, keys)))
    ensures SyncAlone(s, manager, keys).threads == s.threads + [Thread(manager, [], Fetching)]
  {
    var x, t := Apply(s, Spawn(manager, keys)), |s.threads|;
    var n := KeysAreAPass(x, t, y, manager, keys);
    OverIsOver(Repeat(x, Step(t, FINE), n), t, FINE, 5 * |keys| - n);
    RepeatOn(x, Step(t, FINE), n, 5 * |keys| - n);
  }

  /** It goes through all its keys unless one of them fails. */
  lemma {:induction false} OrderIsWholeUnlessOneFails(s: State, manager: nat, keys: seq<string>)
    requires HasEntries(s, manager, keys) && |OrderOf(s, manager, keys)| < |keys|
    ensures
      var order := OrderOf(s, manager, keys);
      && order != []
      && var before := Pass(s, order[..|order| - 1]);
         var last := order[|order| - 1].1;
         HasEntry(before, last, manager) && FailsAt(before, manager, last)
    decreases |keys|
  {
    var order := OrderOf(s, manager, keys);
    if FailsAt(s, manager, keys[0]) {
      assert order[..0] == [];
    } else {
      SoloKeepsEntries(s, manager, keys[0], keys);
      var s', rest := Solo(s, manager, keys[0]), OrderOf(Solo(s, manager, keys[0]), manager, keys[1..]);
      assert order == [(manager, keys[0])] + rest;
      OrderIsWholeUnlessOneFails(s', manager, keys[1..]);
      var n := |rest| - 1;
      assert order[..n + 1] == [(manager, keys[0])] + rest[..n];
      assert order[..n + 1][1..] == rest[..n];
      PassOneMore(s, (manager, keys[0]), order[..n + 1]);
    }
  }

  // ---------------------------------------------------------------- rounds of whole syncs

  /** Whole syncs one after the other, each of one manager and its keys. */
  ghost function Round(s: State, syncs: seq<(nat, seq<string>)>): State
    decreases |syncs|
  {
    if syncs == [] then s else Round(SyncAlone(s, syncs[0].0, syncs[0].1), syncs[1..])
  }

  ghost predicate AllHave(s: State, syncs: seq<(nat, seq<string>)>) {
    forall i | 0 <= i < |syncs| :: HasEntries(s, syncs[i].0, syncs[i].1)
  }

  lemma SoloKeepsEntry(s: State, manager: nat, at: string, m: nat, key: string)
    requires HasEntry(s, at, manager) && HasEntry(s, key, m)
    ensures HasEntry(Solo(s, manager, at), key, m)
  {
    if key == at {
      SoloSettles(s, manager, at);
    } else {
      SoloElsewhere(s, manager, at, key);
    }
  }

  lemma {:induction false} SyncKeepsEntry(s: State, manager: nat, keys: seq<string>, m: nat, key: string)
    requires HasEntries(s, manager, keys) && HasEntry(s, key, m)
    ensures HasEntry(Pass(s, OrderOf(s, manager, keys)), key, m)
    decreases |keys|
  {
    if keys != [] {
      assert keys == [keys[0]] + keys[1..];
      OrderOneMore(s, manager, keys[0], keys[1..]);
      SoloKeepsEntry(s, manager, keys[0], m, key);
      if !FailsAt(s, manager, keys[0]) {
        SyncKeepsEntry(Solo(s, manager, keys[0]), manager, keys[1..], m, key);
      }
    }
  }

  lemma SyncKeepsAll(s: State, manager: nat, keys: seq<string>, syncs: seq<(nat, seq<string>)>)
    requires HasEntries(s, manager, keys) && AllHave(s, syncs)
    ensures AllHave(Pass(s, OrderOf(s, manager, keys)), syncs)
  {
    var s' := Pass(s, OrderOf(s, manager, keys));
    forall i, j | 0 <= i < |syncs| && 0 <= j < |syncs[i].1|
      ensures HasEntry(s', syncs[i].1[j], syncs[i].0)
    {
      assert HasEntries(s, syncs[i].0, syncs[i].1);
      SyncKeepsEntry(s, manager, keys, syncs[i].0, syncs[i].1[j]);
    }
  }

  /** The keys of the syncs of a round, each up to the first that fails. */
  ghost function RoundOrder(s: State, syncs: seq<(nat, seq<string>)>): seq<(nat, string)>
    requires AllHave(s, syncs)
    decreases |syncs|
  {
    if syncs == [] then [] else
      assert HasEntries(s, syncs[0].0, syncs[0].1);
      var order := OrderOf(s, syncs[0].0, syncs[0].1);
      SyncKeepsAll(s, syncs[0].0, syncs[0].1, syncs);
      order + RoundOrder(Pass(s, order), syncs[1..])
  }

  lemma {:induction false} PassInParts(s: State, a: seq<(nat, string)>, b: seq<(nat, string)>)
    ensures Pass(s, a + b) == Pass(Pass(s, a), b)
    decreases |a|
  {
    if a == [] {
      assert a + b == b;
    } else {
      assert (a + b)[1..] == a[1..] + b;
      PassInParts(Solo(s, a[0].0, a[0].1), a[1..], b);
    }
  }

  lemma {:induction false} RoundIsAPass(s: State, y: State, syncs: seq<(nat, seq<string>)>)
    requires SameStores(s, y) && AllHave(y, syncs)
    ensures SameStores(Round(s, syncs), Pass(y, RoundOrder(y, syncs)))
    decreases |syncs|
  {
    if syncs != [] {
      var manager, keys := syncs[0].0, syncs[0].1;
      assert HasEntries(y, manager, keys);
      var order := OrderOf(y, manager, keys);
      SyncAloneIsAPass(s, y, manager, keys);
      SyncKeepsAll(y, manager, keys, syncs);
      RoundIsAPass(SyncAlone(s, manager, keys), Pass(y, order), syncs[1..]);
      PassInParts(y, order, RoundOrder(Pass(y, order), syncs[1..]));
    }
  }

  lemma {:induction false} SyncKeepsManagers(s: State, manager: nat, keys: seq<string>)
    requires HasEntries(s, manager, keys)
    ensures |Pass(s, OrderOf(s, manager, keys)).managers| == |s.managers|
    decreases |keys|
  {
    if keys != [] {
      assert keys == [keys[0]] + keys[1..];
      OrderOneMore(s, manager, keys[0], keys[1..]);
      SoloSettles(s, manager, keys[0]);
      if !FailsAt(s, manager, keys[0]) {
        SyncKeepsManagers(Solo(s, manager, keys[0]), manager, keys[1..]);
      }
    }
  }

  lemma {:induction false} RoundIsInOrder(s: State, syncs: seq<(nat, seq<string>)>)
    requires AllHave(s, syncs)
    ensures InOrder(s, RoundOrder(s, syncs))
    decreases |syncs|
  {
    if syncs != [] {
      var manager, keys := syncs[0].0, syncs[0].1;
      assert HasEntries(s, manager, keys);
      var order := OrderOf(s, manager, keys);
      forall i | 0 <= i < |order|
        ensures order[i].0 < |s.managers|
      {
        assert HasEntry(s, keys[i], manager);
      }
      SyncKeepsManagers(s, manager, keys);
      SyncKeepsAll(s, manager, keys, syncs);
      RoundIsInOrder(Pass(s, order), syncs[1..]);
    }
  }

  /**
   * Two rounds of whole syncs bring every manager and the remote side to the greatest version of
   * a key, provided that the holder's sync gets to the key in the first round, and a sync of every
   * manager does in the second, before any other key of theirs fails.
   */
  lemma TwoRoundsConverge(s: State, first: seq<(nat, seq<string>)>, second: seq<(nat, seq<string>)>, key: string, v: int, holder: nat)
    requires v >= 1 && AllHold(s, key, Sound(v)) && AllHave(s, first)
    requires AllHave(Pass(s, RoundOrder(s, first)), second)
    requires
      var order := RoundOrder(Pass(s, RoundOrder(s, first)), second);
      (holder, key) in RoundOrder(s, first) && Covers(s, order, key)
    requires HasEntry(s, key, holder) && Held(s, key, holder).doc.version == v && !CallValidate(Held(s, key, holder)).failed
    ensures EveryoneAt(Round(Round(s, first), second), key, v)
  {
    var mid := Pass(s, RoundOrder(s, first));
    RoundIsInOrder(s, first);
    RoundIsAPass(s, s, first);
    RoundIsAPass(Round(s, first), mid, second);
    TwoPassesConverge(s, RoundOrder(s, first), RoundOrder(mid, second), key, v, holder);
    SameStoresSameEveryone(Pass(mid, RoundOrder(mid, second)), Round(Round(s, first), second), key, v);
  }

  lemma SameStoresSameEveryone(a: State, b: State, key: string, v: int)
    requires SameStores(a, b) && EveryoneAt(a, key, v)
    ensures EveryoneAt(b, key, v)
  {
    forall m | 0 <= m < |b.managers|
      ensures HasEntry(b, key, m) && Held(b, key, m).doc.version == v
    {
      assert HasEntry(a, key, m);
    }
  }
}
