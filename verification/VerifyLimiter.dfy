/**
 The limiter of second-factor attempts (internal/domain/auth/verify_limiter.go).

 A key's entry is a counter and an instant; it stands for the instants of the failures
 counted since the key was last reset.
 */
module VerifyLimiter {
  import opened Common

  datatype Attempt = Attempt(count: int, lockedUntil: Option<int>)

  /** The instants of the counted failures of one key, oldest first. */
  type Failures = seq<int>

  /** How many failures lock a key; a threshold below one acts like one. */
  function Threshold(max: int): nat
    ensures Threshold(max) >= 1
  {
    if max < 1 then 1 else max
  }

  /** The key is locked while the failure that filled the threshold is less than `coolDown` ago. */
  predicate Locked(h: Failures, max: int, coolDown: int, now: int) {
    |h| > 0 && Rest(|h|, Threshold(max)) == 0 && now < h[|h| - 1] + coolDown
  }

  /** In order, and after each filled threshold nothing counts for `coolDown`. */
  ghost predicate Spaced(h: Failures, max: int, coolDown: int) {
    forall i :: 0 < i < |h| ==> h[i - 1] <= h[i] && (Rest(i, Threshold(max)) == 0 ==> h[i - 1] + coolDown <= h[i])
  }

  // ---- Rounds ----

  function Quot(n: nat, m: nat): nat
    requires m >= 1
  {
    n / m
  }

  function Rest(n: nat, m: nat): nat
    requires m >= 1
  {
    n % m
  }

  function Prod(a: nat, b: int): int {
    a * b
  }

  lemma QuotientOf(n: nat, m: nat, q: nat, r: nat)
    requires m >= 1 && n == q * m + r && r < m
    ensures Quot(n, m) == q && Rest(n, m) == r
  {
    var q', r' := n / m, n % m;
    assert n == q' * m + r';
    if q < q' {
      Grow(q + 1, q', m);
    } else if q' < q {
      Grow(q' + 1, q, m);
    }
  }

  lemma Grow(a: nat, b: nat, m: nat)
    requires a <= b
    ensures a * m <= b * m
  {
  }

  /** One more: the quotient grows when the rest becomes zero. */
  lemma NextRound(n: nat, m: nat)
    requires m >= 1
    ensures Quot(n + 1, m) == if Rest(n, m) + 1 == m then Quot(n, m) + 1 else Quot(n, m)
    ensures Rest(n + 1, m) == if Rest(n, m) + 1 == m then 0 else Rest(n, m) + 1
    ensures Rest(n, m) < m
  {
    var q := n / m;
    if n % m + 1 == m {
      assert (q + 1) * m == q * m + m;
      QuotientOf(n + 1, m, q + 1, 0);
    } else {
      QuotientOf(n + 1, m, q, n % m + 1);
    }
  }

  lemma NoRounds(m: nat)
    requires m >= 1
    ensures Quot(0, m) == 0 && Rest(0, m) == 0 && forall b :: Prod(0, b) == 0
  {
    QuotientOf(0, m, 0, 0);
  }

  lemma OneRoundMore(a: nat, b: int)
    ensures Prod(a + 1, b) == Prod(a, b) + b
  {
  }

  lemma WholeRounds(n: nat, m: nat)
    requires m >= 1
    ensures n == Prod(Quot(n, m), m) + Rest(n, m) && Rest(n, m) < m
    ensures Rest(Prod(Quot(n, m), m), m) == 0
    ensures Quot(n, m) >= 1 ==> Prod(Quot(n, m), m) >= m
  {
    QuotientOf(Quot(n, m) * m, m, Quot(n, m), 0);
    if Quot(n, m) >= 1 {
      Grow(1, Quot(n, m), m);
    }
  }

  // ---- The counter stands for the failures ----

  /** How many of the failures fill whole thresholds. */
  function Filled(h: Failures, max: int): (n: nat)
    ensures n <= |h|
  {
    WholeRounds(|h|, Threshold(max));
    Prod(Quot(|h|, Threshold(max)), Threshold(max))
  }

  function AttemptOf(h: Failures, max: int, coolDown: int): Attempt {
    Attempt(Rest(|h|, Threshold(max)), if Filled(h, max) == 0 then None else Some(h[Filled(h, max) - 1] + coolDown))
  }

  predicate Before(now: int, until: Option<int>) {
    until.Some? && now < until.value
  }

  lemma {:induction false} Ascends(h: Failures, max: int, coolDown: int, i: nat, j: nat)
    requires Spaced(h, max, coolDown) && i <= j < |h|
    ensures h[i] <= h[j]
    decreases j
  {
    if i < j {
      Ascends(h, max, coolDown, i, j - 1);
    }
  }

  /** The stored instant locks the key exactly while the failures do. */
  lemma StoredLock(h: Failures, max: int, coolDown: int, now: int)
    requires Spaced(h, max, coolDown) && (h != [] ==> h[|h| - 1] <= now)
    ensures Before(now, AttemptOf(h, max, coolDown).lockedUntil) <==> Locked(h, max, coolDown, now)
  {
    var f := Filled(h, max);
    WholeRounds(|h|, Threshold(max));
    hide Quot, Rest, Prod, Threshold;
    if 0 < f < |h| {
      Ascends(h, max, coolDown, f, |h| - 1);
    }
  }

  /** Counting one more failure. */
  lemma CountedOnce(h: Failures, max: int, coolDown: int, now: int)
    ensures var a := AttemptOf(h, max, coolDown);
            AttemptOf(h + [now], max, coolDown)
            == if a.count + 1 >= max then Attempt(0, Some(now + coolDown)) else Attempt(a.count + 1, a.lockedUntil)
  {
    var m := Threshold(max);
    NextRound(|h|, m);
    WholeRounds(|h|, m);
    WholeRounds(|h| + 1, m);
    hide Quot, Rest, Prod;
  }

  lemma StaysSpaced(h: Failures, max: int, coolDown: int, now: int, stamp: int)
    requires Spaced(h, max, coolDown) && (h != [] ==> h[|h| - 1] <= now) && now <= stamp
    requires !Locked(h, max, coolDown, now)
    ensures Spaced(h + [stamp], max, coolDown)
  {
  }

  // ---- The bound ----

  /** A failure comes after as many cool-downs as thresholds were filled before it. */
  lemma {:induction false} Delayed(h: Failures, max: int, coolDown: int, i: nat)
    requires Spaced(h, max, coolDown) && i < |h| && coolDown >= 0
    ensures h[i] >= h[0] + Prod(Quot(i, Threshold(max)), coolDown)
    decreases i
  {
    NoRounds(Threshold(max));
    if i > 0 {
      Delayed(h, max, coolDown, i - 1);
      NextRound(i - 1, Threshold(max));
      OneRoundMore(Quot(i - 1, Threshold(max)), coolDown);
      hide Quot, Rest, Prod, Threshold;
    }
  }

  /** In a span of time T at most threshold * (T / coolDown + 1) failures are counted. */
  lemma CountIsBounded(h: Failures, max: int, coolDown: int)
    requires Spaced(h, max, coolDown) && h != [] && coolDown > 0
    ensures h[0] <= h[|h| - 1]
    ensures |h| <= Threshold(max) * ((h[|h| - 1] - h[0]) / coolDown + 1)
  {
    Ascends(h, max, coolDown, 0, |h| - 1);
    Delayed(h, max, coolDown, |h| - 1);
    RoundsBound(|h| - 1, Threshold(max), h[|h| - 1] - h[0], coolDown);
  }

  lemma RoundsBound(n: nat, m: nat, span: nat, coolDown: nat)
    requires m >= 1 && coolDown > 0 && Prod(Quot(n, m), coolDown) <= span
    ensures n + 1 <= m * (span / coolDown + 1)
  {
    var locks, q := Quot(n, m), span / coolDown;
    assert locks <= q by {
      if q < locks {
        Grow(q + 1, locks, coolDown);
      }
    }
    WholeRounds(n, m);
    OneRoundMore(locks, m);
    Grow(locks + 1, q + 1, m);
  }

  // ---- Runs over all keys ----

  /** A failure is checked at one reading of the clock and stamped with a second one. */
  datatype Op =
    | Fail(key: int, at: int, stamp: int)
    | Reset(key: int)

  function FailuresOf(ops: seq<Op>, key: int, max: int, coolDown: int): Failures {
    if ops == [] then []
    else
      var before, op := FailuresOf(ops[..|ops| - 1], key, max, coolDown), ops[|ops| - 1];
      if op.key != key then before
      else
        match op
        case Reset(_) => []
        case Fail(_, at, stamp) => if Locked(before, max, coolDown, at) then before else before + [stamp]
  }

  /** The clock does not go back. */
  ghost predicate InOrder(ops: seq<Op>) {
    && (forall i :: 0 <= i < |ops| && ops[i].Fail? ==> ops[i].at <= ops[i].stamp)
    && (forall i, j :: 0 <= i < j < |ops| && ops[i].Fail? && ops[j].Fail? ==> ops[i].stamp <= ops[j].at)
  }

  ghost predicate NotAfter(ops: seq<Op>, now: int) {
    forall i :: 0 <= i < |ops| && ops[i].Fail? ==> ops[i].stamp <= now
  }

  lemma {:induction false} RunsAreSpaced(ops: seq<Op>, key: int, max: int, coolDown: int)
    requires InOrder(ops)
    ensures var h := FailuresOf(ops, key, max, coolDown);
            Spaced(h, max, coolDown) && (h != [] ==> exists i :: 0 <= i < |ops| && ops[i].Fail? && ops[i].stamp == h[|h| - 1])
    decreases |ops|
  {
    if ops != [] {
      var rest, op := ops[..|ops| - 1], ops[|ops| - 1];
      RunsAreSpaced(rest, key, max, coolDown);
      var before := FailuresOf(rest, key, max, coolDown);
      hide FailuresOf;
      if before != [] {
        var i :| 0 <= i < |rest| && rest[i].Fail? && rest[i].stamp == before[|before| - 1];
        assert ops[i] == rest[i];
      }
      assert FailuresOf(ops, key, max, coolDown) ==
        if op.key != key then before else if op.Reset? then []
        else if Locked(before, max, coolDown, op.at) then before else before + [op.stamp] by { UnfoldLast(ops, key, max, coolDown); }
      if op.key == key && op.Fail? && !Locked(before, max, coolDown, op.at) {
        StaysSpaced(before, max, coolDown, op.at, op.stamp);
        assert ops[|ops| - 1].stamp == op.stamp;
      }
    }
  }

  lemma UnfoldLast(ops: seq<Op>, key: int, max: int, coolDown: int)
    requires ops != []
    ensures var before, op := FailuresOf(ops[..|ops| - 1], key, max, coolDown), ops[|ops| - 1];
            FailuresOf(ops, key, max, coolDown) ==
              if op.key != key then before else if op.Reset? then []
              else if Locked(before, max, coolDown, op.at) then before else before + [op.stamp]
  {
  }

  /** Whatever is done to whatever keys: between two resets a key's failures are bounded by the time they take. */
  lemma AttemptsAreBounded(ops: seq<Op>, key: int, max: int, coolDown: int)
    requires InOrder(ops) && coolDown > 0
    ensures var h := FailuresOf(ops, key, max, coolDown);
            h != [] ==> |h| <= (if max < 1 then 1 else max) * ((h[|h| - 1] - h[0]) / coolDown + 1)
  {
    RunsAreSpaced(ops, key, max, coolDown);
    var h := FailuresOf(ops, key, max, coolDown);
    if h != [] {
      CountIsBounded(h, max, coolDown);
    }
  }

  /** A reset forgets a key's failures and unlocks it. */
  lemma ResetForgets(ops: seq<Op>, key: int, max: int, coolDown: int, now: int)
    ensures FailuresOf(ops + [Reset(key)], key, max, coolDown) == []
    ensures !Locked(FailuresOf(ops + [Reset(key)], key, max, coolDown), max, coolDown, now)
  {
    UnfoldLast(ops + [Reset(key)], key, max, coolDown);
  }

  /** What is done to other keys does not matter. */
  lemma {:induction false} KeysAreApart(ops: seq<Op>, key: int, max: int, coolDown: int)
    ensures FailuresOf(ops, key, max, coolDown) == FailuresOf(Filter(ops, (op: Op) => op.key == key), key, max, coolDown)
    decreases |ops|
  {
    if ops != [] {
      var mine := (op: Op) => op.key == key;
      var rest, op := ops[..|ops| - 1], ops[|ops| - 1];
      KeysAreApart(rest, key, max, coolDown);
      assert ops == rest + [op];
      FilterAppend(rest, [op], mine);
      FilterOne(op, mine);
      hide FailuresOf, Locked;
      UnfoldLast(ops, key, max, coolDown);
      if op.key == key {
        OneMore(Filter(rest, mine), op, key, max, coolDown);
      } else {
        assert Filter(rest, mine) + [] == Filter(rest, mine);
      }
    }
  }

  // ---- The bound is reached, and needs a cool-down ----

  /** `n` failures as fast as they count: a threshold of them, a cool-down, and so on. */
  function Burst(n: nat, max: int, coolDown: int): seq<Op> {
    seq(n, i requires 0 <= i < n => var t := Prod(Quot(i, Threshold(max)), coolDown); Fail(0, t, t))
  }

  function Instants(n: nat, max: int, coolDown: int): Failures {
    seq(n, i requires 0 <= i < n => Prod(Quot(i, Threshold(max)), coolDown))
  }

  lemma NextInstant(n: nat, max: int, coolDown: int)
    requires coolDown >= 0
    ensures !Locked(Instants(n, max, coolDown), max, coolDown, Prod(Quot(n, Threshold(max)), coolDown))
  {
    if n > 0 {
      NextRound(n - 1, Threshold(max));
      OneRoundMore(Quot(n - 1, Threshold(max)), coolDown);
      hide Quot, Rest, Prod, Threshold;
    }
  }

  lemma {:induction false} BurstCounts(n: nat, max: int, coolDown: int)
    requires coolDown >= 0
    ensures FailuresOf(Burst(n, max, coolDown), 0, max, coolDown) == Instants(n, max, coolDown)
  {
    if n > 0 {
      var ops := Burst(n, max, coolDown);
      BurstCounts(n - 1, max, coolDown);
      NextInstant(n - 1, max, coolDown);
      assert Instants(n, max, coolDown) == Instants(n - 1, max, coolDown) + [Prod(Quot(n - 1, Threshold(max)), coolDown)];
      assert ops[..n - 1] == Burst(n - 1, max, coolDown);
      hide FailuresOf, Locked, Prod, Quot, Threshold;
      UnfoldLast(ops, 0, max, coolDown);
    }
  }

  lemma BurstInOrder(n: nat, max: int, coolDown: int)
    requires coolDown >= 0
    ensures InOrder(Burst(n, max, coolDown))
  {
    var m, ops := Threshold(max), Burst(n, max, coolDown);
    forall i, j | 0 <= i < j < |ops| ensures ops[i].stamp <= ops[j].at {
      Later(i, j, m, coolDown);
    }
  }

  lemma Later(i: nat, j: nat, m: nat, coolDown: nat)
    requires i <= j && m >= 1
    ensures Prod(Quot(i, m), coolDown) <= Prod(Quot(j, m), coolDown)
  {
    if j / m < i / m {
      Grow(j / m + 1, i / m, m);
    }
    Grow(i / m, j / m, coolDown);
  }

  /** The bound is exact: a burst of whole rounds reaches it. */
  lemma BoundIsReached(rounds: nat, max: int, coolDown: int)
    requires rounds > 0 && coolDown > 0
    ensures var ops := Burst(Prod(rounds, Threshold(max)), max, coolDown);
            var h := FailuresOf(ops, 0, max, coolDown);
            InOrder(ops) && h != [] && |h| == (if max < 1 then 1 else max) * ((h[|h| - 1] - h[0]) / coolDown + 1)
  {
    var m := Threshold(max);
    var n := Prod(rounds, m);
    Grow(1, rounds, m);
    BurstInOrder(n, max, coolDown);
    BurstCounts(n, max, coolDown);
    LastInstant(rounds, m, coolDown);
    NoRounds(m);
    hide Burst, FailuresOf, InOrder, Prod, Quot;
    assert FailuresOf(Burst(n, max, coolDown), 0, max, coolDown)[n - 1] == Prod(rounds - 1, coolDown);
    WholeSpan(rounds, m, coolDown);
  }

  lemma LastInstant(rounds: nat, m: nat, coolDown: nat)
    requires rounds > 0 && m >= 1
    ensures Prod(rounds, m) >= 1 && Quot(Prod(rounds, m) - 1, m) == rounds - 1
  {
    Grow(1, rounds, m);
    assert rounds * m - 1 == (rounds - 1) * m + (m - 1);
    QuotientOf(rounds * m - 1, m, rounds - 1, m - 1);
  }

  lemma WholeSpan(rounds: nat, m: nat, coolDown: nat)
    requires rounds > 0 && coolDown > 0
    ensures Prod(rounds, m) == m * ((Prod(rounds - 1, coolDown) - 0) / coolDown + 1)
  {
    QuotientOf((rounds - 1) * coolDown, coolDown, rounds - 1, 0);
  }

  /** A key can be locked at all if and only if the cool-down is positive. */
  lemma LocksNeedCoolDown(max: int, coolDown: int)
    ensures (exists h, now :: Spaced(h, max, coolDown) && h != [] && h[|h| - 1] <= now && Locked(h, max, coolDown, now))
       <==> coolDown > 0
  {
    if coolDown > 0 {
      var m := Threshold(max);
      var h := seq(m, i => 0);
      QuotientOf(m, m, 1, 0);
      forall i | 0 < i < m ensures Rest(i, m) != 0 {
        QuotientOf(i, m, 0, i);
      }
      hide Rest, Quot;
      assert Spaced(h, max, coolDown) && h[|h| - 1] <= 0 && Locked(h, max, coolDown, 0);
    }
  }

  // ---- The limiter ----

  function Stored(failed: map<int, Attempt>, key: int): Attempt {
    if key in failed then failed[key] else Attempt(0, None)
  }

  /** Every entry, or its absence, stands for the failures of its key. */
  ghost predicate Stands(failed: map<int, Attempt>, ops: seq<Op>, max: int, coolDown: int) {
    forall key :: Stored(failed, key) == AttemptOf(FailuresOf(ops, key, max, coolDown), max, coolDown)
  }

  lemma OneMore(ops: seq<Op>, op: Op, key: int, max: int, coolDown: int)
    ensures var before := FailuresOf(ops, key, max, coolDown);
            FailuresOf(ops + [op], key, max, coolDown) ==
              if op.key != key then before else if op.Reset? then []
              else if Locked(before, max, coolDown, op.at) then before else before + [op.stamp]
  {
    assert (ops + [op])[..|ops|] == ops;
    UnfoldLast(ops + [op], key, max, coolDown);
  }

  /** One entry is rewritten; it stands for what the operation makes of its key. */
  lemma StandsAfter(failed: map<int, Attempt>, after: map<int, Attempt>, ops: seq<Op>, op: Op, max: int, coolDown: int)
    requires Stands(failed, ops, max, coolDown)
    requires forall k :: k != op.key ==> Stored(after, k) == Stored(failed, k)
    requires Stored(after, op.key) == AttemptOf(FailuresOf(ops + [op], op.key, max, coolDown), max, coolDown)
    ensures Stands(after, ops + [op], max, coolDown)
  {
    hide FailuresOf, AttemptOf, Locked, Stored;
    forall k ensures Stored(after, k) == AttemptOf(FailuresOf(ops + [op], k, max, coolDown), max, coolDown) {
      OneMore(ops, op, k, max, coolDown);
    }
  }

  lemma NothingCounted(max: int, coolDown: int)
    ensures AttemptOf([], max, coolDown) == Attempt(0, None)
  {
    NoRounds(Threshold(max));
  }

  class VerifyAttemptLimiter {
    var failed: map<int, Attempt>
    const max: int
    const coolDown: int
    ghost var ops: seq<Op>

    constructor (max: int, coolDown: int)
      ensures Valid() && ops == [] && this.max == max && this.coolDown == coolDown
    {
      NothingCounted(max, coolDown);
      failed, ops := map[], [];
      this.max, this.coolDown := max, coolDown;
    }

    ghost predicate Valid()
      reads this
    {
      InOrder(ops) && Stands(failed, ops, max, coolDown)
    }

    lemma LockIsStored(key: int, now: int)
      requires Valid() && NotAfter(ops, now)
      ensures Before(now, Stored(failed, key).lockedUntil)
         <==> Locked(FailuresOf(ops, key, max, coolDown), max, coolDown, now)
    {
      RunsAreSpaced(ops, key, max, coolDown);
      StoredLock(FailuresOf(ops, key, max, coolDown), max, coolDown, now);
    }

    method Allowed(key: int, now: int) returns (ok: bool)
      requires Valid() && NotAfter(ops, now)
      ensures ok <==> !Locked(FailuresOf(ops, key, max, coolDown), max, coolDown, now)
    {
      LockIsStored(key, now);
      ok := key !in failed || !Before(now, failed[key].lockedUntil);
    }

    method RecordFailure(key: int, now: int, stamp: int)
      requires Valid() && NotAfter(ops, now) && now <= stamp
      modifies this
      ensures Valid() && ops == old(ops) + [Fail(key, now, stamp)]
    {
      LockIsStored(key, now);
      CountedOnce(FailuresOf(ops, key, max, coolDown), max, coolDown, stamp);
      OneMore(ops, Fail(key, now, stamp), key, max, coolDown);
      assert Stored(failed, key) == AttemptOf(FailuresOf(ops, key, max, coolDown), max, coolDown);
      hide FailuresOf, AttemptOf, Locked, Stands;
      ghost var was := failed;
      var a := Stored(failed, key);
      if !Before(now, a.lockedUntil) {
        a := a.(count := a.count + 1);
        if a.count >= max {
          a := Attempt(0, Some(stamp + coolDown));
        }
        failed := failed[key := a];
      }
      StandsAfter(was, failed, ops, Fail(key, now, stamp), max, coolDown);
      ops := ops + [Fail(key, now, stamp)];
    }

    method ResetKey(key: int)
      requires Valid()
      modifies this
      ensures Valid() && ops == old(ops) + [Reset(key)]
    {
      OneMore(ops, Reset(key), key, max, coolDown);
      NothingCounted(max, coolDown);
      hide FailuresOf, AttemptOf, Locked, Stands;
      ghost var was := failed;
      failed := failed - {key};
      StandsAfter(was, failed, ops, Reset(key), max, coolDown);
      ops := ops + [Reset(key)];
    }
  }
}
