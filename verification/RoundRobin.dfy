/**
 * The round-robin balancer: an atomic counter that wraps at 2^64, reduced modulo the number
 * of instances. Each call takes the next value, whatever the order in which goroutines make
 * the calls, so a window of calls is a window of counter values.
 */
module RoundRobin {
  import opened Common

  const WRAP := 0x1_0000_0000_0000_0000

  type Counter = c: int | 0 <= c < WRAP

  /** The value the k-th call from now gets: the add comes first, so the first call gets c + 1. */
  function Value(c: Counter, k: nat): Counter {
    (c + k) % WRAP
  }

  lemma CounterHas64Bits()
    ensures WRAP == Pow2(64)
  {
    EightMoreBits(0);
    EightMoreBits(8);
    EightMoreBits(16);
    EightMoreBits(24);
    EightMoreBits(32);
    EightMoreBits(40);
    EightMoreBits(48);
    EightMoreBits(56);
  }

  lemma ValueBeforeWrap(c: Counter, k: nat)
    requires c + k < WRAP
    ensures Value(c, k) == c + k
  {
  }

  lemma ValuesFollow(c: Counter, k: nat)
    ensures Value(Value(c, k), 1) == Value(c, k + 1)
  {
    DivModStep(c + k, WRAP);
  }

  class RoundRobinBalancer {
    var counter: Counter

    constructor ()
      ensures counter == 0
    {
      counter := 0;
    }

    method Select(instances: seq<ServiceInstance>) returns (r: Result<ServiceInstance>)
      modifies this
      ensures instances == [] ==> r == Err && counter == old(counter)
      ensures instances != [] ==> counter == Value(old(counter), 1) && r == Ok(instances[counter % |instances|])
    {
      if |instances| == 0 {
        return Err;
      }
      counter := (counter + 1) % WRAP;
      return Ok(instances[counter % |instances|]);
    }

    method SelectWindow(instances: seq<ServiceInstance>, calls: nat) returns (chosen: seq<ServiceInstance>)
      requires instances != []
      modifies this
      ensures counter == Value(old(counter), calls) && |chosen| == calls
      ensures forall k | 0 <= k < calls :: chosen[k] == instances[Value(old(counter), k + 1) % |instances|]
    {
      chosen := [];
      for k := 0 to calls
        invariant |chosen| == k && counter == Value(old(counter), k)
        invariant forall j | 0 <= j < k :: chosen[j] == instances[Value(old(counter), j + 1) % |instances|]
      {
        ValuesFollow(old(counter), k);
        var r := Select(instances);
        chosen := chosen + [r.value];
      }
    }
  }

  /** How often the next `calls` selections among n instances choose index i. */
  function Picks(c: Counter, calls: nat, n: nat, i: nat): nat
    requires n > 0
  {
    if calls == 0 then 0
    else Picks(c, calls - 1, n, i) + if Value(c, calls) % n == i then 1 else 0
  }

  // ---------------------------------------------------------------- counting residues

  /** How many of 0, ..., x - 1 leave residue i. */
  function Below(x: nat, n: nat, i: nat): nat
    requires n > 0
  {
    if x == 0 then 0 else Below(x - 1, n, i) + if (x - 1) % n == i then 1 else 0
  }

  lemma DivModStep(x: nat, n: nat)
    requires n > 0
    ensures x % n == n - 1 ==> (x + 1) / n == x / n + 1 && (x + 1) % n == 0
    ensures x % n < n - 1 ==> (x + 1) / n == x / n && (x + 1) % n == x % n + 1
  {
    var q, r := x / n, x % n;
    assert x == q * n + r;
    if r == n - 1 {
      assert x + 1 == (q + 1) * n;
      DivModUnique(x + 1, n, q + 1, 0);
    } else {
      DivModUnique(x + 1, n, q, r + 1);
    }
  }

  lemma DivModUnique(x: int, n: int, q: int, r: int)
    requires n > 0 && x == q * n + r && 0 <= r < n
    ensures x / n == q && x % n == r
  {
    var d := x / n - q;
    assert d * n == r - x % n;
    MultipleIsFar(d, n);
  }

  lemma MultipleIsFar(d: int, n: int)
    requires n > 0
    ensures d >= 1 ==> d * n >= n
    ensures d <= -1 ==> d * n <= -n
  {
  }

  /** Every full round meets each residue once; the last, partial round meets the small ones. */
  lemma {:induction false} BelowCountsRounds(x: nat, n: nat, i: nat)
    requires i < n
    ensures Below(x, n, i) == x / n + if x % n > i then 1 else 0
  {
    if x == 0 {
      DivModUnique(0, n, 0, 0);
    } else {
      BelowCountsRounds(x - 1, n, i);
      DivModStep(x - 1, n);
    }
  }

  /** Without a wraparound the window is an interval of integers. */
  lemma {:induction false} PicksInInterval(c: Counter, calls: nat, n: nat, i: nat)
    requires i < n && c + calls < WRAP
    ensures Picks(c, calls, n, i) == Below(c + calls + 1, n, i) - Below(c + 1, n, i)
  {
    if calls > 0 {
      PicksInInterval(c, calls - 1, n, i);
      ValueBeforeWrap(c, calls);
      var next := c + calls + 1;
      assert Below(next, n, i) == Below(next - 1, n, i) + if (next - 1) % n == i then 1 else 0;
    }
  }

  /** With one wraparound it is an interval up to the top and one from the bottom. */
  lemma {:induction false} PicksAcrossWrap(c: Counter, calls: nat, n: nat, i: nat)
    requires i < n && WRAP <= c + calls < 2 * WRAP
    ensures Picks(c, calls, n, i) == Below(WRAP, n, i) - Below(c + 1, n, i) + Below(c + calls + 1 - WRAP, n, i)
  {
    ValueAfterWrap(c, calls);
    BelowOneMore(c + calls - WRAP, n, i);
    if c + calls == WRAP {
      PicksInInterval(c, calls - 1, n, i);
    } else {
      PicksAcrossWrap(c, calls - 1, n, i);
    }
  }

  lemma ValueAfterWrap(c: Counter, k: nat)
    requires WRAP <= c + k < 2 * WRAP
    ensures Value(c, k) == c + k - WRAP
  {
  }

  // ---------------------------------------------------------------- fairness

  /** Counted from 0, a smaller residue is at most one ahead. */
  lemma RoundsApart(x: nat, n: nat, i: nat, j: nat)
    requires i < n && j < n
    ensures i <= j ==> 0 <= Below(x, n, i) - Below(x, n, j) <= 1
    ensures j <= i ==> 0 <= Below(x, n, j) - Below(x, n, i) <= 1
    ensures x % n == 0 ==> Below(x, n, i) == Below(x, n, j)
  {
    BelowCountsRounds(x, n, i);
    BelowCountsRounds(x, n, j);
  }

  ghost predicate Within(a: int, b: int, d: int) {
    -d <= a - b <= d
  }

  /** In any window without a wraparound, two instances are chosen equally often, give or take one. */
  lemma FairWithoutWrap(c: Counter, calls: nat, n: nat, i: nat, j: nat)
    requires i < n && j < n && c + calls < WRAP
    ensures Within(Picks(c, calls, n, i), Picks(c, calls, n, j), 1)
  {
    PicksInInterval(c, calls, n, i);
    PicksInInterval(c, calls, n, j);
    RoundsApart(c + 1, n, i, j);
    RoundsApart(c + calls + 1, n, i, j);
  }

  /** Across one wraparound, give or take two. */
  lemma FairAcrossWrap(c: Counter, calls: nat, n: nat, i: nat, j: nat)
    requires i < n && j < n && WRAP <= c + calls < 2 * WRAP
    ensures Within(Picks(c, calls, n, i), Picks(c, calls, n, j), 2)
    ensures WRAP % n == 0 ==> Within(Picks(c, calls, n, i), Picks(c, calls, n, j), 1)
  {
    PicksAcrossWrap(c, calls, n, i);
    PicksAcrossWrap(c, calls, n, j);
    RoundsApart(c + 1, n, i, j);
    RoundsApart(WRAP, n, i, j);
    RoundsApart(c + calls + 1 - WRAP, n, i, j);
  }

  /** Every window of at most one wraparound keeps two counts within one of each other. */
  ghost predicate AlwaysWithinOne(n: nat)
    requires n > 0
  {
    forall c: Counter, calls: nat, i: nat, j: nat | i < n && j < n && c + calls < 2 * WRAP ::
      Within(Picks(c, calls, n, i), Picks(c, calls, n, j), 1)
  }

  /** When n does not divide 2^64, index 0 is chosen on both sides of the wraparound. */
  lemma WrapFavoursTheFirst(n: nat)
    requires 0 < n < WRAP && WRAP % n != 0
    ensures
      var r := WRAP % n;
      Picks(WRAP - r - 1, r + 1, n, 0) - Picks(WRAP - r - 1, r + 1, n, n - 1) == 2
  {
    var r := WRAP % n;
    var c: Counter := WRAP - r - 1;
    var q := WRAP / n;
    assert WRAP == q * n + r;
    DivModUnique(WRAP - r, n, q, 0);
    PicksAcrossWrap(c, r + 1, n, 0);
    PicksAcrossWrap(c, r + 1, n, n - 1);
    BelowCountsRounds(WRAP, n, 0);
    BelowCountsRounds(WRAP, n, n - 1);
    BelowCountsRounds(WRAP - r, n, 0);
    BelowCountsRounds(WRAP - r, n, n - 1);
    BelowCountsRounds(1, n, 0);
    BelowCountsRounds(1, n, n - 1);
    DivModUnique(1, n, 0, 1);
  }

  /** The bound of one survives the wraparound exactly when n divides 2^64. */
  lemma WithinOneIffDividesWrap(n: nat)
    requires 0 < n < WRAP
    ensures AlwaysWithinOne(n) <==> WRAP % n == 0
  {
    if WRAP % n == 0 {
      forall c: Counter, calls: nat, i: nat, j: nat | i < n && j < n && c + calls < 2 * WRAP
        ensures Within(Picks(c, calls, n, i), Picks(c, calls, n, j), 1)
      {
        if c + calls < WRAP {
          FairWithoutWrap(c, calls, n, i, j);
        } else {
          FairAcrossWrap(c, calls, n, i, j);
        }
      }
    } else {
      WrapFavoursTheFirst(n);
      var r := WRAP % n;
      assert !Within(Picks(WRAP - r - 1, r + 1, n, 0), Picks(WRAP - r - 1, r + 1, n, n - 1), 1);
    }
  }

  // ---------------------------------------------------------------- services that share the counter

  /**
   * One balancer serves every service. A service that gets every `step`-th call, the first of
   * them with the value `start`, chooses index i so often in so many calls of its own.
   */
  function PicksEvery(start: Counter, step: nat, calls: nat, n: nat, i: nat): nat
    requires n > 0
  {
    if calls == 0 then 0
    else PicksEvery(start, step, calls - 1, n, i) + if Value(start, step * (calls - 1)) % n == i then 1 else 0
  }

  ghost predicate Divides(d: nat, a: nat) {
    exists q: nat :: a == q * d
  }

  ghost predicate CommonDivisor(d: nat, a: nat, b: nat) {
    d >= 1 && Divides(d, a) && Divides(d, b)
  }

  ghost predicate Coprime(a: nat, b: nat) {
    forall d: nat | CommonDivisor(d, a, b) :: d == 1
  }

  lemma {:induction false} Bezout(a: nat, b: nat) returns (x: int, y: int, g: nat)
    requires a > 0 || b > 0
    ensures g == a * x + b * y && CommonDivisor(g, a, b)
    decreases b
  {
    if b == 0 {
      x, y, g := 1, 0, a;
      assert a == 1 * g && b == 0 * g;
    } else {
      var k, r := Quotient(a, b);
      var x', y', g' := Bezout(b, r);
      x, y, g := y', x' - k * y', g';
      Combine(k, b, r, x', y');
      DividesCombination(g, k, b, r);
    }
  }

  lemma Quotient(a: nat, b: nat) returns (k: nat, r: nat)
    requires b > 0
    ensures a == k * b + r && r < b
  {
    k, r := a / b, a % b;
  }

  lemma Combine(k: nat, b: nat, r: nat, x: int, y: int)
    ensures b * x + r * y == (k * b + r) * y + b * (x - k * y)
  {
    assert (k * b) * y == b * (k * y);
  }

  lemma DividesCombination(d: nat, k: nat, b: nat, r: nat)
    requires Divides(d, b) && Divides(d, r)
    ensures Divides(d, k * b + r)
  {
    var p: nat :| b == p * d;
    var q: nat :| r == q * d;
    assert k * b + r == (k * p + q) * d;
  }

  lemma SameResidue(x: int, y: int, n: nat, q: int)
    requires n > 0 && x == y + q * n
    ensures x % n == y % n
  {
    var d := y / n;
    assert y == d * n + y % n;
    assert x == (d + q) * n + y % n;
    DivModUnique(x, n, d + q, y % n);
  }

  /** Multiplying by an inverse w of the step turns the residues of the values into those of the calls. */
  lemma ValueResidue(start: int, step: nat, n: nat, w: int, a: int, i: nat, u: nat)
    requires i < n && step * w == 1 + a * n
    ensures (start + step * u) % n == i <==> u % n == w * (i - start) % n
  {
    if (start + step * u) % n == i {
      var q := (start + step * u) / n;
      assert start + step * u == q * n + i;
      CallFromValue(start, step, n, w, a, i, u, q);
      SameResidue(w * (i - start), u, n, a * u - w * q);
    }
    if u % n == w * (i - start) % n {
      var b := u / n - w * (i - start) / n;
      Quotients(u, w * (i - start), n);
      ValueFromCall(start, step, n, w, a, i, u, b);
      SameResidue(start + step * u, i, n, a * (i - start) + step * b);
      DivModUnique(i, n, 0, i);
    }
  }

  lemma Quotients(x: int, y: int, n: nat)
    requires n > 0 && x % n == y % n
    ensures x == y + (x / n - y / n) * n
  {
    assert x == x / n * n + x % n && y == y / n * n + y % n;
  }

  lemma CallFromValue(start: int, step: nat, n: nat, w: int, a: int, i: nat, u: nat, q: int)
    requires step * w == 1 + a * n && start + step * u == q * n + i
    ensures w * (i - start) == u + (a * u - w * q) * n
  {
    calc {
      w * (i - start);
      w * (step * u - q * n);
      w * (step * u) - w * (q * n);
      { assert w * (step * u) == (step * w) * u; }
      (1 + a * n) * u - w * (q * n);
      { assert (a * n) * u == (a * u) * n && w * (q * n) == (w * q) * n; }
      u + (a * u) * n - (w * q) * n;
      u + (a * u - w * q) * n;
    }
  }

  lemma ValueFromCall(start: int, step: nat, n: nat, w: int, a: int, i: nat, u: nat, b: int)
    requires step * w == 1 + a * n && u == w * (i - start) + b * n
    ensures start + step * u == i + (a * (i - start) + step * b) * n
  {
    calc {
      step * u;
      step * (w * (i - start)) + step * (b * n);
      { assert step * (w * (i - start)) == (step * w) * (i - start) && step * (b * n) == (step * b) * n; }
      (1 + a * n) * (i - start) + (step * b) * n;
      { assert (a * n) * (i - start) == (a * (i - start)) * n; }
      (i - start) + (a * (i - start) + step * b) * n;
    }
  }

  lemma {:induction false} PicksEveryCountsCalls(start: Counter, step: nat, calls: nat, n: nat, w: int, a: int, i: nat)
    requires i < n && step * w == 1 + a * n && start + step * calls < WRAP + step
    ensures PicksEvery(start, step, calls, n, i) == Below(calls, n, w * (i - start) % n)
  {
    if calls > 0 {
      LessBy(step, calls);
      PicksEveryCountsCalls(start, step, calls - 1, n, w, a, i);
      ValueBeforeWrap(start, step * (calls - 1));
      ValueResidue(start, step, n, w, a, i, calls - 1);
      BelowOneMore(calls - 1, n, w * (i - start) % n);
    }
  }

  lemma LessBy(step: nat, calls: nat)
    requires calls > 0
    ensures step * (calls - 1) == step * calls - step >= 0
  {
  }

  lemma BelowOneMore(x: nat, n: nat, i: nat)
    requires n > 0
    ensures Below(x + 1, n, i) == Below(x, n, i) + if x % n == i then 1 else 0
  {
  }

  /** When the step has no divisor in common with n, the service is served as fairly as by its own counter. */
  lemma FairWhenCoprime(start: Counter, step: nat, calls: nat, n: nat, i: nat, j: nat)
    requires i < n && j < n && Coprime(step, n) && start + step * calls < WRAP + step
    ensures Within(PicksEvery(start, step, calls, n, i), PicksEvery(start, step, calls, n, j), 1)
  {
    var x, y, g := Bezout(step, n);
    assert step * x == 1 + (-y) * n;
    PicksEveryCountsCalls(start, step, calls, n, x, -y, i);
    PicksEveryCountsCalls(start, step, calls, n, x, -y, j);
    RoundsApart(calls, n, x * (i - start) % n, x * (j - start) % n);
  }

  /** With a common divisor, index 1 is never chosen from n on. */
  lemma {:induction false} IndexOneIsMissed(step: nat, calls: nat, n: nat, d: nat)
    requires 2 <= n < WRAP && d >= 2 && CommonDivisor(d, step, n) && n + step * calls < WRAP + step
    ensures PicksEvery(n, step, calls, n, 1) == 0
  {
    if calls > 0 {
      LessBy(step, calls);
      IndexOneIsMissed(step, calls - 1, n, d);
      ValueBeforeWrap(n, step * (calls - 1));
      OneIsMissedAt(step, calls - 1, n, d);
    }
  }

  lemma OneIsMissedAt(step: nat, u: nat, n: nat, d: nat)
    requires n >= 2 && d >= 2 && CommonDivisor(d, step, n)
    ensures (n + step * u) % n != 1
  {
    var p: nat :| step == p * d;
    var q: nat :| n == q * d;
    var k := (n + step * u) / n;
    assert n + step * u == k * n + (n + step * u) % n;
    NeverOne(p, q, d, u, k);
  }

  lemma NeverOne(p: nat, q: nat, d: nat, u: nat, k: nat)
    requires d >= 2 && q >= 1
    ensures q * d + p * d * u != k * (q * d) + 1
  {
    var m := q + p * u - k * q;
    assert q * d + p * d * u - k * (q * d) == m * d;
    MultipleIsFar(m, d);
  }

  lemma {:induction false} PicksEveryGrows(start: Counter, step: nat, calls: nat, more: nat, n: nat, i: nat)
    requires n > 0 && calls <= more
    ensures PicksEvery(start, step, calls, n, i) <= PicksEvery(start, step, more, n, i)
  {
    if calls < more {
      PicksEveryGrows(start, step, calls, more - 1, n, i);
    }
  }

  lemma PicksEveryOneMore(start: Counter, step: nat, calls: nat, n: nat, i: nat)
    requires n > 0
    ensures PicksEvery(start, step, calls + 1, n, i)
         == PicksEvery(start, step, calls, n, i) + if Value(start, step * calls) % n == i then 1 else 0
  {
  }

  lemma ZeroAt(step: nat, n: nat, u: nat)
    requires n > 0 && n + step * u < WRAP && u % n == 0
    ensures Value(n, step * u) % n == 0
  {
    var q := u / n;
    assert u == q * n && step * u == (step * q) * n;
    DivModUnique(n, n, 1, 0);
    SameResidue(n + step * u, n, n, step * q);
    ValueBeforeWrap(n, step * u);
  }

  /** Index 0 is chosen twice in n + 1 calls. */
  lemma IndexZeroComesBack(step: nat, n: nat)
    requires n > 0 && n + step * n < WRAP
    ensures PicksEvery(n, step, n + 1, n, 0) >= 2
  {
    assert step * 0 == 0;
    DivModUnique(0, n, 0, 0);
    DivModUnique(n, n, 1, 0);
    ZeroAt(step, n, 0);
    ZeroAt(step, n, n);
    PicksEveryOneMore(n, step, 0, n, 0);
    PicksEveryOneMore(n, step, n, n, 0);
    PicksEveryGrows(n, step, 1, n, n, 0);
  }

  /** In every window without a wraparound, the service's choices are equally frequent, give or take one. */
  ghost predicate AlwaysFair(step: nat, n: nat)
    requires n > 0
  {
    forall start: Counter, calls: nat, i: nat, j: nat | i < n && j < n && start + step * calls < WRAP + step ::
      Within(PicksEvery(start, step, calls, n, i), PicksEvery(start, step, calls, n, j), 1)
  }

  /**
   * A service of n instances that gets every `step`-th call of the shared counter is served fairly
   * exactly when the two numbers have no divisor in common.
   */
  lemma FairIffCoprime(step: nat, n: nat)
    requires n > 0 && n + step * n < WRAP
    ensures AlwaysFair(step, n) <==> Coprime(step, n)
  {
    if Coprime(step, n) {
      forall start: Counter, calls: nat, i: nat, j: nat | i < n && j < n && start + step * calls < WRAP + step
        ensures Within(PicksEvery(start, step, calls, n, i), PicksEvery(start, step, calls, n, j), 1)
      {
        FairWhenCoprime(start, step, calls, n, i, j);
      }
    } else {
      var d: nat :| CommonDivisor(d, step, n) && d != 1;
      AtLeast(d, n);
      IndexOneIsMissed(step, n + 1, n, d);
      IndexZeroComesBack(step, n);
      assert !Within(PicksEvery(n, step, n + 1, n, 0), PicksEvery(n, step, n + 1, n, 1), 1);
    }
  }

  lemma AtLeast(d: nat, n: nat)
    requires n > 0 && d >= 2 && Divides(d, n)
    ensures n >= 2
  {
  }

  /** Two services of two instances, called in turn: each gets the same instance every time. */
  lemma InTurnEachSticksToOne(k: nat)
    ensures Value(0, 2 * k + 1) % 2 == 1 && Value(0, 2 * k + 2) % 2 == 0
  {
  }

  /** A fresh balancer starts at index 1, because the counter is advanced before it is used. */
  lemma FirstIndexIsOne(n: nat)
    requires n >= 2
    ensures Value(0, 1) % n == 1
  {
  }
}
