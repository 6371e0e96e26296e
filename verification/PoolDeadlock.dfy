/**
 * Tasks that share one pool and take further clients while they hold some. A task is the
 * sequence of its takes and gives; a schedule interleaves any number of tasks.
 */
module PoolDeadlock {
  datatype Op = Take | Give

  type Task = seq<Op>

  /** How many clients a task holds after the given operations. */
  function Held(ops: seq<Op>): int {
    if ops == [] then 0
    else Held(ops[..|ops| - 1]) + if ops[|ops| - 1] == Take then 1 else -1
  }

  function HeldAt(t: Task, n: nat): int
    requires n <= |t|
  {
    Held(t[..n])
  }

  /** Never gives what it does not hold, keeps nothing, and at its peak holds m clients. */
  ghost predicate Nests(t: Task, m: nat) {
    && (forall n: nat | n <= |t| :: 0 <= HeldAt(t, n) <= m)
    && (exists n: nat :: n <= |t| && HeldAt(t, n) == m)
    && HeldAt(t, |t|) == 0
  }

  lemma HeldNext(t: Task, n: nat)
    requires n < |t|
    ensures HeldAt(t, n + 1) == HeldAt(t, n) + if t[n] == Take then 1 else -1
  {
    assert t[..n + 1][..n] == t[..n];
  }

  // ---------------------------------------------------------------- sums

  function Sum(s: seq<int>): int {
    if s == [] then 0 else Sum(s[..|s| - 1]) + s[|s| - 1]
  }

  lemma {:induction false} SumUpdate(s: seq<int>, i: nat, v: int)
    requires i < |s|
    ensures Sum(s[i := v]) == Sum(s) - s[i] + v
  {
    var n := |s| - 1;
    if i == n {
      assert s[i := v][..n] == s[..n];
    } else {
      assert s[i := v][..n] == s[..n][i := v];
      SumUpdate(s[..n], i, v);
    }
  }

  lemma {:induction false} SumAtMost(s: seq<int>, t: seq<int>)
    requires |s| == |t| && forall i | 0 <= i < |s| :: s[i] <= t[i]
    ensures Sum(s) <= Sum(t)
  {
    if s != [] {
      SumAtMost(s[..|s| - 1], t[..|t| - 1]);
    }
  }

  // ---------------------------------------------------------------- schedules

  ghost predicate Places(tasks: seq<Task>, pos: seq<nat>) {
    |pos| == |tasks| && forall i | 0 <= i < |tasks| :: pos[i] <= |tasks[i]|
  }

  ghost function Holdings(tasks: seq<Task>, pos: seq<nat>): (h: seq<int>)
    requires Places(tasks, pos)
    ensures |h| == |tasks| && forall i | 0 <= i < |tasks| :: h[i] == HeldAt(tasks[i], pos[i])
  {
    seq(|tasks|, i requires 0 <= i < |tasks| => HeldAt(tasks[i], pos[i]))
  }

  ghost function Available(tasks: seq<Task>, pool: int, pos: seq<nat>): int
    requires Places(tasks, pos)
  {
    pool - Sum(Holdings(tasks, pos))
  }

  ghost predicate Unfinished(tasks: seq<Task>, pos: seq<nat>, i: nat)
    requires Places(tasks, pos)
  {
    i < |tasks| && pos[i] < |tasks[i]|
  }

  /** A task can go on unless it wants a client and none is left. */
  ghost predicate Enabled(tasks: seq<Task>, pool: int, pos: seq<nat>, i: nat)
    requires Places(tasks, pos)
  {
    Unfinished(tasks, pos, i) && (tasks[i][pos[i]] == Give || Available(tasks, pool, pos) > 0)
  }

  ghost predicate Legal(tasks: seq<Task>, pool: int, pos: seq<nat>, schedule: seq<nat>)
    requires Places(tasks, pos)
    decreases |schedule|
  {
    schedule == [] ||
    (Enabled(tasks, pool, pos, schedule[0])
     && Legal(tasks, pool, pos[schedule[0] := pos[schedule[0]] + 1], schedule[1..]))
  }

  ghost function After(tasks: seq<Task>, pool: int, pos: seq<nat>, schedule: seq<nat>): (r: seq<nat>)
    requires Places(tasks, pos) && Legal(tasks, pool, pos, schedule)
    ensures Places(tasks, r)
    decreases |schedule|
  {
    if schedule == [] then pos
    else After(tasks, pool, pos[schedule[0] := pos[schedule[0]] + 1], schedule[1..])
  }

  ghost function Start(tasks: seq<Task>): (pos: seq<nat>)
    ensures Places(tasks, pos) && forall i | 0 <= i < |tasks| :: pos[i] == 0
  {
    seq(|tasks|, i => 0)
  }

  ghost predicate Deadlocked(tasks: seq<Task>, pool: int, pos: seq<nat>)
    requires Places(tasks, pos)
  {
    && (exists i: nat :: Unfinished(tasks, pos, i))
    && forall i: nat | i < |tasks| :: !Enabled(tasks, pool, pos, i)
  }

  ghost predicate DeadlockFree(tasks: seq<Task>, pool: int) {
    forall schedule: seq<nat> | Legal(tasks, pool, Start(tasks), schedule) ::
      !Deadlocked(tasks, pool, After(tasks, pool, Start(tasks), schedule))
  }

  ghost predicate AllNest(tasks: seq<Task>, peaks: seq<int>) {
    |peaks| == |tasks| && forall i | 0 <= i < |tasks| :: peaks[i] >= 1 && Nests(tasks[i], peaks[i])
  }

  ghost function OneLess(peaks: seq<int>): (r: seq<int>)
    ensures |r| == |peaks| && forall i | 0 <= i < |peaks| :: r[i] == peaks[i] - 1
  {
    seq(|peaks|, i requires 0 <= i < |peaks| => peaks[i] - 1)
  }

  // ---------------------------------------------------------------- enough clients

  lemma StepAvailable(tasks: seq<Task>, pool: int, pos: seq<nat>, i: nat)
    requires Places(tasks, pos) && Unfinished(tasks, pos, i)
    ensures
      var next := pos[i := pos[i] + 1];
      && Places(tasks, next)
      && Available(tasks, pool, next) == Available(tasks, pool, pos) - if tasks[i][pos[i]] == Take then 1 else -1
  {
    var next := pos[i := pos[i] + 1];
    HeldNext(tasks[i], pos[i]);
    var h := Holdings(tasks, pos);
    assert Holdings(tasks, next) == h[i := HeldAt(tasks[i], pos[i] + 1)];
    SumUpdate(h, i, HeldAt(tasks[i], pos[i] + 1));
  }

  lemma {:induction false} NeverOverdrawn(tasks: seq<Task>, pool: int, pos: seq<nat>, schedule: seq<nat>)
    requires Places(tasks, pos) && Legal(tasks, pool, pos, schedule) && Available(tasks, pool, pos) >= 0
    ensures Available(tasks, pool, After(tasks, pool, pos, schedule)) >= 0
    decreases |schedule|
  {
    if schedule != [] {
      StepAvailable(tasks, pool, pos, schedule[0]);
      NeverOverdrawn(tasks, pool, pos[schedule[0] := pos[schedule[0]] + 1], schedule[1..]);
    }
  }

  lemma {:induction false} ZeroSum(s: seq<int>)
    requires forall i | 0 <= i < |s| :: s[i] == 0
    ensures Sum(s) == 0
  {
    if s != [] {
      ZeroSum(s[..|s| - 1]);
    }
  }

  lemma AllAvailableAtStart(tasks: seq<Task>, pool: int)
    ensures Available(tasks, pool, Start(tasks)) == pool
  {
    var h := Holdings(tasks, Start(tasks));
    assert forall i | 0 <= i < |tasks| :: h[i] == HeldAt(tasks[i], 0) == 0;
    ZeroSum(h);
  }

  /** A task that waits for a client holds fewer than its peak. */
  lemma WaitingHoldsLess(tasks: seq<Task>, pool: int, pos: seq<nat>, peaks: seq<int>, i: nat)
    requires Places(tasks, pos) && AllNest(tasks, peaks) && i < |tasks| && !Enabled(tasks, pool, pos, i)
    ensures HeldAt(tasks[i], pos[i]) <= peaks[i] - 1
  {
    if pos[i] < |tasks[i]| {
      HeldNext(tasks[i], pos[i]);
      assert HeldAt(tasks[i], pos[i] + 1) <= peaks[i];
    }
  }

  lemma EnoughClientsNeverDeadlock(tasks: seq<Task>, pool: int, peaks: seq<int>, schedule: seq<nat>)
    requires AllNest(tasks, peaks) && pool > Sum(OneLess(peaks)) && pool >= 0
    requires Legal(tasks, pool, Start(tasks), schedule)
    ensures !Deadlocked(tasks, pool, After(tasks, pool, Start(tasks), schedule))
  {
    var pos := After(tasks, pool, Start(tasks), schedule);
    AllAvailableAtStart(tasks, pool);
    NeverOverdrawn(tasks, pool, Start(tasks), schedule);
    if Deadlocked(tasks, pool, pos) {
      var i: nat :| Unfinished(tasks, pos, i);
      assert !Enabled(tasks, pool, pos, i);
      assert Available(tasks, pool, pos) == 0;
      forall j: nat | j < |tasks|
        ensures Holdings(tasks, pos)[j] <= OneLess(peaks)[j]
      {
        WaitingHoldsLess(tasks, pool, pos, peaks, j);
      }
      SumAtMost(Holdings(tasks, pos), OneLess(peaks));
      assert false;
    }
  }

  // ---------------------------------------------------------------- too few clients

  /** Just before a task first holds more than h clients: it holds h and wants one more. */
  ghost predicate ReadyAbove(t: Task, h: int, n: nat) {
    && n < |t| && t[n] == Take && HeldAt(t, n) == h
    && forall r: nat | r <= n :: HeldAt(t, r) <= h
  }

  lemma FirstAbove(t: Task, m: nat, h: nat) returns (n: nat)
    requires Nests(t, m) && h < m
    ensures ReadyAbove(t, h, n)
  {
    var top: nat :| top <= |t| && HeldAt(t, top) == m;
    n := 0;
    assert HeldAt(t, 0) == 0;
    while HeldAt(t, n + 1) <= h
      invariant n < top && forall r: nat | r <= n :: HeldAt(t, r) <= h
      decreases top - n
    {
      n := n + 1;
    }
    HeldNext(t, n);
  }

  lemma {:induction false} ScheduleMore(tasks: seq<Task>, pool: int, pos: seq<nat>, a: seq<nat>, b: seq<nat>)
    requires Places(tasks, pos) && Legal(tasks, pool, pos, a)
    requires Legal(tasks, pool, After(tasks, pool, pos, a), b)
    ensures Legal(tasks, pool, pos, a + b)
    ensures After(tasks, pool, pos, a + b) == After(tasks, pool, After(tasks, pool, pos, a), b)
    decreases |a|
  {
    if a == [] {
      assert a + b == b;
    } else {
      assert (a + b)[1..] == a[1..] + b;
      ScheduleMore(tasks, pool, pos[a[0] := pos[a[0]] + 1], a[1..], b);
    }
  }

  /** One task runs to n by itself, as long as what it needs on the way is available. */
  lemma {:induction false} RunAlone(tasks: seq<Task>, pool: int, pos: seq<nat>, i: nat, n: nat) returns (schedule: seq<nat>)
    requires Places(tasks, pos) && i < |tasks| && pos[i] <= n <= |tasks[i]|
    requires forall r: nat | pos[i] < r <= n ::
               HeldAt(tasks[i], r) <= HeldAt(tasks[i], pos[i]) + Available(tasks, pool, pos)
    ensures Legal(tasks, pool, pos, schedule) && After(tasks, pool, pos, schedule) == pos[i := n]
    decreases n - pos[i]
  {
    if pos[i] == n {
      schedule := [];
      assert pos[i := n] == pos;
    } else {
      HeldNext(tasks[i], pos[i]);
      StepAvailable(tasks, pool, pos, i);
      assert HeldAt(tasks[i], pos[i] + 1) <= HeldAt(tasks[i], pos[i]) + Available(tasks, pool, pos);
      var next := pos[i := pos[i] + 1];
      var rest := RunAlone(tasks, pool, next, i, n);
      schedule := [i] + rest;
      assert schedule[1..] == rest;
      assert next[i := n] == pos[i := n];
    }
  }

  /** The first k tasks stand where they hold h[0], ..., h[k - 1] and want more; the others have not begun. */
  ghost predicate Stuck(tasks: seq<Task>, pos: seq<nat>, h: seq<int>, k: nat)
    requires Places(tasks, pos) && |h| == |tasks|
  {
    && (forall i | 0 <= i < |tasks| && i < k :: ReadyAbove(tasks[i], h[i], pos[i]))
    && (forall i | k <= i < |tasks| :: pos[i] == 0)
  }

  ghost function FirstOf(h: seq<int>, k: nat): (r: seq<int>)
    ensures |r| == |h| && forall i | 0 <= i < |h| :: r[i] == if i < k then h[i] else 0
  {
    seq(|h|, i requires 0 <= i < |h| => if i < k then h[i] else 0)
  }

  lemma StuckHoldings(tasks: seq<Task>, pos: seq<nat>, h: seq<int>, k: nat)
    requires Places(tasks, pos) && |h| == |tasks| && Stuck(tasks, pos, h, k)
    ensures Holdings(tasks, pos) == FirstOf(h, k)
  {
  }

  lemma {:induction false} GetStuck(tasks: seq<Task>, pool: int, peaks: seq<int>, h: seq<int>, k: nat)
    returns (schedule: seq<nat>)
    requires AllNest(tasks, peaks) && |h| == |tasks| && k <= |tasks|
    requires forall i | 0 <= i < |tasks| :: 0 <= h[i] < peaks[i]
    requires Sum(h) <= pool
    ensures Legal(tasks, pool, Start(tasks), schedule)
    ensures Stuck(tasks, After(tasks, pool, Start(tasks), schedule), h, k)
  {
    if k == 0 {
      schedule := [];
    } else {
      var before := GetStuck(tasks, pool, peaks, h, k - 1);
      var pos := After(tasks, pool, Start(tasks), before);
      var more := OneMoreGetsStuck(tasks, pool, peaks, h, pos, k - 1);
      ScheduleMore(tasks, pool, Start(tasks), before, more);
      schedule := before + more;
    }
  }

  lemma OneMoreGetsStuck(tasks: seq<Task>, pool: int, peaks: seq<int>, h: seq<int>, pos: seq<nat>, k: nat)
    returns (schedule: seq<nat>)
    requires AllNest(tasks, peaks) && |h| == |tasks| && k < |tasks| && Places(tasks, pos)
    requires forall i | 0 <= i < |tasks| :: 0 <= h[i] < peaks[i]
    requires Sum(h) <= pool && Stuck(tasks, pos, h, k)
    ensures Legal(tasks, pool, pos, schedule) && Stuck(tasks, After(tasks, pool, pos, schedule), h, k + 1)
  {
    var n := FirstAbove(tasks[k], peaks[k], h[k]);
    StuckHoldings(tasks, pos, h, k);
    RoomForOneMore(h, k);
    assert Available(tasks, pool, pos) >= h[k];
    assert HeldAt(tasks[k], 0) == 0;
    schedule := RunAlone(tasks, pool, pos, k, n);
    StuckFurther(tasks, pos, h, k, n);
  }

  lemma StuckFurther(tasks: seq<Task>, pos: seq<nat>, h: seq<int>, k: nat, n: nat)
    requires |h| == |tasks| && k < |tasks| && Places(tasks, pos) && Stuck(tasks, pos, h, k) && ReadyAbove(tasks[k], h[k], n)
    ensures Places(tasks, pos[k := n]) && Stuck(tasks, pos[k := n], h, k + 1)
  {
  }

  lemma RoomForOneMore(h: seq<int>, k: nat)
    requires k < |h| && forall i | 0 <= i < |h| :: h[i] >= 0
    ensures Sum(FirstOf(h, k)) + h[k] <= Sum(h)
  {
    var f := FirstOf(h, k);
    SumUpdate(f, k, h[k]);
    SumAtMost(f[k := h[k]], h);
  }

  /** Any total between 0 and the sum of the bounds can be shared out within the bounds. */
  lemma {:induction false} ShareOut(bounds: seq<int>, total: int) returns (h: seq<int>)
    requires forall i | 0 <= i < |bounds| :: bounds[i] >= 0
    requires 0 <= total <= Sum(bounds)
    ensures |h| == |bounds| && Sum(h) == total
    ensures forall i | 0 <= i < |bounds| :: 0 <= h[i] <= bounds[i]
  {
    if bounds == [] {
      h := [];
    } else {
      var n := |bounds| - 1;
      var last := if total <= bounds[n] then total else bounds[n];
      NonNegativeSum(bounds[..n]);
      var front := ShareOut(bounds[..n], total - last);
      h := front + [last];
      assert h[..n] == front;
    }
  }

  lemma {:induction false} NonNegativeSum(s: seq<int>)
    requires forall i | 0 <= i < |s| :: s[i] >= 0
    ensures Sum(s) >= 0
  {
    if s != [] {
      NonNegativeSum(s[..|s| - 1]);
    }
  }

  lemma TooFewClientsCanDeadlock(tasks: seq<Task>, pool: int, peaks: seq<int>) returns (schedule: seq<nat>)
    requires AllNest(tasks, peaks) && tasks != [] && 0 <= pool <= Sum(OneLess(peaks))
    ensures Legal(tasks, pool, Start(tasks), schedule)
    ensures Deadlocked(tasks, pool, After(tasks, pool, Start(tasks), schedule))
  {
    var h := ShareOut(OneLess(peaks), pool);
    schedule := GetStuck(tasks, pool, peaks, h, |tasks|);
    var pos := After(tasks, pool, Start(tasks), schedule);
    StuckHoldings(tasks, pos, h, |tasks|);
    assert FirstOf(h, |tasks|) == h;
    assert Available(tasks, pool, pos) == 0;
    assert Unfinished(tasks, pos, 0);
  }

  /**
   * The exact size: however they are scheduled, tasks whose peaks are m1, ..., mk never all wait
   * for one another exactly when the pool has more than (m1 - 1) + ... + (mk - 1) clients.
   */
  lemma DeadlockFreeIff(tasks: seq<Task>, pool: int, peaks: seq<int>)
    requires AllNest(tasks, peaks) && tasks != [] && pool >= 0
    ensures DeadlockFree(tasks, pool) <==> pool > Sum(OneLess(peaks))
  {
    if pool > Sum(OneLess(peaks)) {
      forall schedule: seq<nat> | Legal(tasks, pool, Start(tasks), schedule)
        ensures !Deadlocked(tasks, pool, After(tasks, pool, Start(tasks), schedule))
      {
        EnoughClientsNeverDeadlock(tasks, pool, peaks, schedule);
      }
    } else {
      var schedule := TooFewClientsCanDeadlock(tasks, pool, peaks);
    }
  }

  // ---------------------------------------------------------------- termination

  lemma {:induction false} SchedulesAreBounded(tasks: seq<Task>, pool: int, pos: seq<nat>, schedule: seq<nat>)
    requires Places(tasks, pos) && Legal(tasks, pool, pos, schedule)
    ensures Sum(After(tasks, pool, pos, schedule)) == Sum(pos) + |schedule|
    decreases |schedule|
  {
    if schedule != [] {
      var i := schedule[0];
      SumUpdate(pos, i, pos[i] + 1);
      SchedulesAreBounded(tasks, pool, pos[i := pos[i] + 1], schedule[1..]);
    }
  }

  ghost function Lengths(tasks: seq<Task>): (r: seq<int>)
    ensures |r| == |tasks| && forall i | 0 <= i < |tasks| :: r[i] == |tasks[i]|
  {
    seq(|tasks|, i requires 0 <= i < |tasks| => |tasks[i]|)
  }

  /**
   * With enough clients every schedule comes to an end, and one that cannot be continued has
   * finished every task.
   */
  lemma EnoughClientsFinish(tasks: seq<Task>, pool: int, peaks: seq<int>, schedule: seq<nat>)
    requires AllNest(tasks, peaks) && pool > Sum(OneLess(peaks)) && pool >= 0
    requires Legal(tasks, pool, Start(tasks), schedule)
    ensures |schedule| <= Sum(Lengths(tasks))
    ensures
      var pos := After(tasks, pool, Start(tasks), schedule);
      (forall i: nat | i < |tasks| :: !Enabled(tasks, pool, pos, i)) ==> forall i | 0 <= i < |tasks| :: pos[i] == |tasks[i]|
  {
    var pos := After(tasks, pool, Start(tasks), schedule);
    SchedulesAreBounded(tasks, pool, Start(tasks), schedule);
    ZeroSum(Start(tasks));
    SumAtMost(pos, Lengths(tasks));
    EnoughClientsNeverDeadlock(tasks, pool, peaks, schedule);
    if forall i: nat | i < |tasks| :: !Enabled(tasks, pool, pos, i) {
      forall i: nat | i < |tasks|
        ensures pos[i] == |tasks[i]|
      {
        assert !Unfinished(tasks, pos, i);
      }
    }
  }
}
