/** The functions that hold a pool client while they call others that take one, and what they need. */
module NestedCalls {
  import opened PoolDeadlock

  /** A function that takes a client, makes calls that do the same, and puts its client back. */
  datatype Call = Call(nested: seq<Call>)

  function Ops(c: Call): Task {
    [Take] + OpsOfAll(c.nested) + [Give]
  }

  function OpsOfAll(cs: seq<Call>): Task {
    if cs == [] then [] else Ops(cs[0]) + OpsOfAll(cs[1..])
  }

  function Depth(c: Call): nat {
    1 + DepthOfAll(c.nested)
  }

  function DepthOfAll(cs: seq<Call>): nat {
    if cs == [] then 0 else
      var first, rest := Depth(cs[0]), DepthOfAll(cs[1..]);
      if first >= rest then first else rest
  }

  lemma {:induction false} HeldConcat(a: Task, b: Task)
    ensures Held(a + b) == Held(a) + Held(b)
    decreases |b|
  {
    if b == [] {
      assert a + b == a;
    } else {
      assert (a + b)[..|a + b| - 1] == a + b[..|b| - 1];
      HeldConcat(a, b[..|b| - 1]);
    }
  }

  lemma HeldInConcat(a: Task, b: Task, n: nat)
    requires n <= |a| + |b|
    ensures n <= |a| ==> HeldAt(a + b, n) == HeldAt(a, n)
    ensures n >= |a| ==> HeldAt(a + b, n) == Held(a) + HeldAt(b, n - |a|)
  {
    if n <= |a| {
      assert (a + b)[..n] == a[..n];
    }
    if n >= |a| {
      assert (a + b)[..n] == a + b[..n - |a|];
      HeldConcat(a, b[..n - |a|]);
    }
  }

  lemma NestsInSequence(a: Task, m: nat, b: Task, k: nat)
    requires Nests(a, m) && Nests(b, k)
    ensures Nests(a + b, if m >= k then m else k)
  {
    var t := a + b;
    assert a[..|a|] == a;
    forall n: nat | n <= |t|
      ensures 0 <= HeldAt(t, n) <= if m >= k then m else k
    {
      HeldInConcat(a, b, n);
    }
    HeldInConcat(a, b, |t|);
    var x: nat :| x <= |a| && HeldAt(a, x) == m;
    var y: nat :| y <= |b| && HeldAt(b, y) == k;
    HeldInConcat(a, b, x);
    HeldInConcat(a, b, |a| + y);
    assert HeldAt(t, x) == m && HeldAt(t, |a| + y) == k;
  }

  lemma NestsInside(a: Task, m: nat)
    requires Nests(a, m)
    ensures Nests([Take] + a + [Give], m + 1)
  {
    var t := [Take] + a + [Give];
    assert t == [Take] + (a + [Give]);
    assert a[..|a|] == a;
    assert [Take][..0] == [] && [Take][..1] == [Take] && [Give][..0] == [] && [Give][..1] == [Give];
    forall n: nat | n <= |t|
      ensures n >= 1 && n <= |a| + 1 ==> HeldAt(t, n) == 1 + HeldAt(a, n - 1)
      ensures n == 0 || n == |t| ==> HeldAt(t, n) == 0
    {
      HeldInConcat([Take], a + [Give], n);
      if n >= 1 {
        HeldInConcat(a, [Give], n - 1);
      }
    }
    var x: nat :| x <= |a| && HeldAt(a, x) == m;
    assert HeldAt(t, x + 1) == m + 1;
  }

  /** A call holds at most as many clients at once as it nests deep, and at some point that many. */
  lemma {:induction false} CallNests(c: Call)
    ensures Nests(Ops(c), Depth(c))
    decreases c, 1
  {
    CallsNest(c.nested);
    NestsInside(OpsOfAll(c.nested), DepthOfAll(c.nested));
  }

  lemma {:induction false} CallsNest(cs: seq<Call>)
    ensures Nests(OpsOfAll(cs), DepthOfAll(cs))
    decreases cs, 0
  {
    if cs == [] {
      assert HeldAt([], 0) == 0;
    } else {
      CallNests(cs[0]);
      CallsNest(cs[1..]);
      NestsInSequence(Ops(cs[0]), Depth(cs[0]), OpsOfAll(cs[1..]), DepthOfAll(cs[1..]));
    }
  }

  // ---------------------------------------------------------------- tasks running one call each

  function TasksOf(calls: seq<Call>): (r: seq<Task>)
    ensures |r| == |calls| && forall i | 0 <= i < |calls| :: r[i] == Ops(calls[i])
  {
    seq(|calls|, i requires 0 <= i < |calls| => Ops(calls[i]))
  }

  function PeaksOf(calls: seq<Call>): (r: seq<int>)
    ensures |r| == |calls| && forall i | 0 <= i < |calls| :: r[i] == Depth(calls[i])
  {
    seq(|calls|, i requires 0 <= i < |calls| => Depth(calls[i]))
  }

  lemma CallsAreDeadlockFreeIff(calls: seq<Call>, pool: nat)
    requires calls != []
    ensures DeadlockFree(TasksOf(calls), pool) <==> pool > Sum(OneLess(PeaksOf(calls)))
  {
    forall i | 0 <= i < |calls|
      ensures Nests(TasksOf(calls)[i], PeaksOf(calls)[i])
    {
      CallNests(calls[i]);
    }
    DeadlockFreeIff(TasksOf(calls), pool, PeaksOf(calls));
  }

  function Copies(c: Call, k: nat): (r: seq<Call>)
    ensures |r| == k && forall i | 0 <= i < k :: r[i] == c
  {
    seq(k, i => c)
  }

  lemma {:induction false} SumOfEqual(s: seq<int>, v: int)
    requires forall i | 0 <= i < |s| :: s[i] == v
    ensures Sum(s) == |s| * v
  {
    if s != [] {
      SumOfEqual(s[..|s| - 1], v);
      assert |s| * v == (|s| - 1) * v + v;
    }
  }

  /** k calls of depth d at once, with a pool of their own: free of deadlock iff pool > k (d - 1). */
  lemma CopiesAreDeadlockFreeIff(c: Call, k: nat, pool: nat)
    requires k > 0
    ensures DeadlockFree(TasksOf(Copies(c, k)), pool) <==> pool > k * (Depth(c) - 1)
  {
    var calls := Copies(c, k);
    CallsAreDeadlockFreeIff(calls, pool);
    SumOfEqual(OneLess(PeaksOf(calls)), Depth(c) - 1);
  }

  // ---------------------------------------------------------------- ZooKeeper

  /** `ensureParentNodes` with so many missing proper ancestors: one frame each, and one that finds or needs none. */
  function EnsureParentNodes(missing: nat): Call {
    Call(if missing == 0 then [] else [EnsureParentNodes(missing - 1)])
  }

  function ZkRegister(missing: nat): Call {
    Call([EnsureParentNodes(missing)])
  }

  /** `checkAndReRegisterServices`: one registration for each service found missing. */
  function ZkCheck(missing: seq<nat>): Call {
    Call(seq(|missing|, i requires 0 <= i < |missing| => ZkRegister(missing[i])))
  }

  /** `keepAliveLoop`, when its look at its own node fails, holds its client while everything is checked. */
  function ZkKeepAlive(missing: seq<nat>): Call {
    Call([ZkCheck(missing)])
  }

  lemma {:induction false} EnsureDepth(missing: nat)
    ensures Depth(EnsureParentNodes(missing)) == missing + 1
  {
    if missing > 0 {
      EnsureDepth(missing - 1);
      var c := EnsureParentNodes(missing - 1);
      assert [c][1..] == [];
      assert DepthOfAll([c]) == Depth(c);
    }
  }

  lemma SingleCallDepth(c: Call)
    ensures Depth(Call([c])) == 1 + Depth(c)
  {
    assert [c][1..] == [];
    assert DepthOfAll([c]) == Depth(c);
  }

  lemma {:induction false} DepthOfBounded(cs: seq<Call>, d: nat)
    requires cs != [] && (forall i | 0 <= i < |cs| :: Depth(cs[i]) <= d) && exists i :: 0 <= i < |cs| && Depth(cs[i]) == d
    ensures DepthOfAll(cs) == d
    decreases |cs|
  {
    var i :| 0 <= i < |cs| && Depth(cs[i]) == d;
    if |cs| > 1 {
      if i > 0 {
        assert cs[1..][i - 1] == cs[i];
        DepthOfBounded(cs[1..], d);
      } else {
        DepthAtMost(cs[1..], d);
      }
    } else {
      assert cs[1..] == [];
    }
  }

  lemma {:induction false} DepthAtMost(cs: seq<Call>, d: nat)
    requires forall i | 0 <= i < |cs| :: Depth(cs[i]) <= d
    ensures DepthOfAll(cs) <= d
    decreases |cs|
  {
    if cs != [] {
      DepthAtMost(cs[1..], d);
    }
  }

  /**
   * For services at paths of n components with no ancestor in place, the re-registration that
   * a keep-alive starts holds n + 3 clients at its peak.
   */
  lemma KeepAliveDepth(missing: seq<nat>, n: nat)
    requires n >= 1 && n - 1 in missing && forall i | 0 <= i < |missing| :: missing[i] <= n - 1
    ensures Depth(ZkKeepAlive(missing)) == n + 3
  {
    var cs := ZkCheck(missing).nested;
    forall i | 0 <= i < |missing|
      ensures Depth(cs[i]) == missing[i] + 2
    {
      EnsureDepth(missing[i]);
      SingleCallDepth(EnsureParentNodes(missing[i]));
    }
    var i :| 0 <= i < |missing| && missing[i] == n - 1;
    assert Depth(cs[i]) == n + 1;
    DepthOfBounded(cs, n + 1);
    SingleCallDepth(ZkCheck(missing));
  }

  /** One such chain alone completes iff the pool has n + 3 clients; k of them iff more than k (n + 2). */
  lemma KeepAliveNeeds(missing: seq<nat>, n: nat, k: nat, pool: nat)
    requires n >= 1 && n - 1 in missing && forall i | 0 <= i < |missing| :: missing[i] <= n - 1
    requires k > 0
    ensures DeadlockFree(TasksOf(Copies(ZkKeepAlive(missing), k)), pool) <==> pool > k * (n + 2)
  {
    KeepAliveDepth(missing, n);
    CopiesAreDeadlockFreeIff(ZkKeepAlive(missing), k, pool);
  }

  /** The default pool of 5 is one short for a single chain on `/services/<name>/<id>`. */
  lemma DefaultPoolBlocksOneKeepAlive()
    ensures !DeadlockFree(TasksOf(Copies(ZkKeepAlive([2]), 1)), 5)
    ensures DeadlockFree(TasksOf(Copies(ZkKeepAlive([2]), 1)), 6)
  {
    assert [2][0] == 2;
    KeepAliveNeeds([2], 3, 1, 5);
    KeepAliveNeeds([2], 3, 1, 6);
  }

  // ---------------------------------------------------------------- etcd

  const ETCD_REGISTER := Call([])

  /** `checkAndReRegisterServices` with so many services missing. */
  function EtcdCheck(absent: nat): Call {
    Call(Copies(ETCD_REGISTER, absent))
  }

  /** `GetInstances`, and `recoverKeepAlive`, holding a client while they check everything. */
  function EtcdChecking(absent: nat): Call {
    Call([EtcdCheck(absent)])
  }

  /** `Watch` holds its client while it calls a `GetInstances` that has to check everything. */
  function EtcdWatch(absent: nat): Call {
    Call([EtcdChecking(absent)])
  }

  lemma EtcdDepths(absent: nat)
    requires absent > 0
    ensures Depth(EtcdChecking(absent)) == 3 && Depth(EtcdWatch(absent)) == 4
  {
    assert Depth(ETCD_REGISTER) == 1;
    var cs := Copies(ETCD_REGISTER, absent);
    assert Depth(cs[0]) == 1;
    DepthOfBounded(cs, 1);
    SingleCallDepth(EtcdCheck(absent));
    SingleCallDepth(EtcdChecking(absent));
  }

  /** With the default pool of 5, two recoveries or one watch are safe; a third, or a second, is not. */
  lemma DefaultEtcdPool(absent: nat, k: nat)
    requires absent > 0 && k > 0
    ensures DeadlockFree(TasksOf(Copies(EtcdChecking(absent), k)), 5) <==> k <= 2
    ensures DeadlockFree(TasksOf(Copies(EtcdWatch(absent), k)), 5) <==> k <= 1
  {
    EtcdDepths(absent);
    CopiesAreDeadlockFreeIff(EtcdChecking(absent), k, 5);
    CopiesAreDeadlockFreeIff(EtcdWatch(absent), k, 5);
  }

  // ---------------------------------------------------------------- Nacos

  /**
   * `register` whose call fails checks all services, which registers the missing one again, and
   * so on: `rounds` is how often that happens before a registration succeeds.
   */
  function NacosRegister(rounds: nat): Call {
    if rounds == 0 then Call([]) else Call([Call([NacosRegister(rounds - 1)])])
  }

  lemma {:induction false} NacosDepth(rounds: nat)
    ensures Depth(NacosRegister(rounds)) == 2 * rounds + 1
  {
    if rounds > 0 {
      NacosDepth(rounds - 1);
      SingleCallDepth(NacosRegister(rounds - 1));
      SingleCallDepth(Call([NacosRegister(rounds - 1)]));
    } else {
      assert DepthOfAll([]) == 0;
    }
  }

  /**
   * A registration does not block exactly while twice its failures still fit in the pool. (It still
   * returns an error when its own call failed, although a nested registration succeeded.)
   */
  lemma NacosDoesNotBlockIff(rounds: nat, pool: nat)
    ensures DeadlockFree(TasksOf(Copies(NacosRegister(rounds), 1)), pool) <==> 2 * rounds < pool
  {
    NacosDepth(rounds);
    CopiesAreDeadlockFreeIff(NacosRegister(rounds), 1, pool);
  }
}
