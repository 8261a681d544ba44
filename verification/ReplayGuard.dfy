/**
 The replay guard of the device channel (internal/mobiledirect/device.go).

 The guard keeps a map from keys to expiry instants and purges it when it grows.  What
 it answers is stated over its log, for calls in any order of time; for calls in order
 of time it is what an unbounded record of all accepted keys would answer.
 */
module ReplayGuard {
  import opened Common

  /** A key was accepted, or the map was purged of what had expired. */
  datatype Event = Use(key: string, at: int) | Purge(at: int)

  type Log = seq<Event>

  const LIMIT := 20000
  const SECOND := 1_000_000_000
  const DEFAULT_SKEW := 300 * SECOND

  /** The key was accepted less than `ttl` ago. */
  predicate Remembered(log: Log, key: string, now: int, ttl: int) {
    exists i | 0 <= i < |log| :: log[i].Use? && log[i].key == key && now < log[i].at + ttl
  }

  /** The i-th event is a use that no later purge took for expired. */
  predicate Survives(log: Log, i: nat, ttl: int)
    requires i < |log|
  {
    log[i].Use? && forall j | i < j < |log| :: log[j].Purge? ==> log[j].at <= log[i].at + ttl
  }

  /** The i-th event is the last use of its key. */
  predicate IsLast(log: Log, i: nat)
    requires i < |log|
  {
    log[i].Use? && forall j | i < j < |log| :: log[j].Use? ==> log[j].key != log[i].key
  }

  /** What the map knows of the key: its last use, if no purge took it away. */
  predicate Held(log: Log, key: string, expiry: int, ttl: int) {
    exists i: nat | i < |log| :: IsLast(log, i) && Survives(log, i, ttl) && log[i].key == key && log[i].at + ttl == expiry
  }

  ghost predicate Stands(seen: map<string, int>, log: Log, ttl: int) {
    forall key, expiry :: Held(log, key, expiry, ttl) <==> key in seen && seen[key] == expiry
  }

  /** The key is known and has not expired. */
  ghost predicate Holds(log: Log, key: string, now: int, ttl: int) {
    exists expiry :: Held(log, key, expiry, ttl) && now < expiry
  }

  lemma Unchanged(log: Log, e: Event, i: nat, ttl: int)
    requires i < |log|
    ensures var more := log + [e];
            && (IsLast(more, i) <==> IsLast(log, i) && (e.Use? ==> e.key != log[i].key))
            && (Survives(more, i, ttl) <==> Survives(log, i, ttl) && (e.Purge? ==> e.at <= log[i].at + ttl))
  {
    var more := log + [e];
    assert more[|log|] == e && forall j :: 0 <= j < |log| ==> more[j] == log[j];
    if IsLast(more, i) {
      forall j | i < j < |log| ensures log[j].Use? ==> log[j].key != log[i].key {
        assert more[j] == log[j];
      }
    }
    if Survives(more, i, ttl) {
      forall j | i < j < |log| ensures log[j].Purge? ==> log[j].at <= log[i].at + ttl {
        assert more[j] == log[j];
      }
    }
  }

  lemma HeldAfterUse(log: Log, key: string, now: int, ttl: int, k: string, expiry: int)
    ensures Held(log + [Use(key, now)], k, expiry, ttl)
       <==> if k == key then expiry == now + ttl else Held(log, k, expiry, ttl)
  {
    var e := Use(key, now);
    var more := log + [e];
    forall i: nat | i < |log|
      ensures more[i] == log[i] && (Survives(more, i, ttl) <==> Survives(log, i, ttl))
      ensures IsLast(more, i) <==> IsLast(log, i) && key != log[i].key
    {
      Unchanged(log, e, i, ttl);
    }
    assert IsLast(more, |log|) && Survives(more, |log|, ttl) && more[|log|] == e;
    hide IsLast, Survives;
    if k != key && Held(log, k, expiry, ttl) {
      var i: nat :| i < |log| && IsLast(log, i) && Survives(log, i, ttl) && log[i].key == k && log[i].at + ttl == expiry;
      assert IsLast(more, i);
    }
    if Held(more, k, expiry, ttl) {
      var i: nat :| i < |more| && IsLast(more, i) && Survives(more, i, ttl) && more[i].key == k && more[i].at + ttl == expiry;
      assert i < |log| ==> IsLast(log, i);
    }
  }

  lemma HeldAfterPurge(log: Log, now: int, ttl: int, k: string, expiry: int)
    ensures Held(log + [Purge(now)], k, expiry, ttl) <==> Held(log, k, expiry, ttl) && now <= expiry
  {
    var e := Purge(now);
    var more := log + [e];
    forall i: nat | i < |log|
      ensures more[i] == log[i] && (IsLast(more, i) <==> IsLast(log, i))
      ensures Survives(more, i, ttl) <==> Survives(log, i, ttl) && now <= log[i].at + ttl
    {
      Unchanged(log, e, i, ttl);
    }
    assert !IsLast(more, |log|);
    hide IsLast, Survives;
    if Held(log, k, expiry, ttl) && now <= expiry {
      var i: nat :| i < |log| && IsLast(log, i) && Survives(log, i, ttl) && log[i].key == k && log[i].at + ttl == expiry;
      assert IsLast(more, i);
    }
    if Held(more, k, expiry, ttl) {
      var i: nat :| i < |more| && IsLast(more, i) && Survives(more, i, ttl) && more[i].key == k && more[i].at + ttl == expiry;
      assert i < |log|;
    }
  }

  // ---- In order of time ----

  ghost predicate UpTo(log: Log, now: int) {
    && (forall i :: 0 <= i < |log| ==> log[i].at <= now)
    && forall i, j :: 0 <= i < j < |log| ==> log[i].at <= log[j].at
  }

  lemma {:induction false} LastUse(log: Log, i: nat) returns (k: nat)
    requires i < |log| && log[i].Use?
    ensures i <= k < |log| && IsLast(log, k) && log[k].key == log[i].key
    decreases |log| - i
  {
    k := i;
    if !IsLast(log, i) {
      var j :| i < j < |log| && log[j].Use? && log[j].key == log[i].key;
      k := LastUse(log, j);
    }
  }

  /** For calls in order of time the purged map answers as the whole record. */
  lemma MapAnswersAsHistory(log: Log, key: string, now: int, ttl: int)
    requires UpTo(log, now)
    ensures Holds(log, key, now, ttl) <==> Remembered(log, key, now, ttl)
  {
    if i :| 0 <= i < |log| && log[i].Use? && log[i].key == key && now < log[i].at + ttl {
      var k := LastUse(log, i);
      assert Survives(log, k, ttl);
      assert Held(log, key, log[k].at + ttl, ttl);
    }
  }

  // ---- In any order of time ----

  /** Logs the guard can have: a key is accepted only when the map does not hold it. */
  ghost predicate Consistent(log: Log, ttl: int) {
    forall i :: 0 <= i < |log| && log[i].Use? ==> !Holds(log[..i], log[i].key, log[i].at, ttl)
  }

  /** The next use of a key that was not purged lies beyond its expiry, and so on up to the last one. */
  lemma {:induction false} SurvivingUse(log: Log, i: nat, ttl: int)
    requires Consistent(log, ttl) && ttl >= 0 && i < |log| && Survives(log, i, ttl)
    ensures exists k: nat :: k < |log| && IsLast(log, k) && Survives(log, k, ttl)
              && log[k].key == log[i].key && log[k].at >= log[i].at
    decreases |log| - i
  {
    if !IsLast(log, i) {
      var j := NextUse(log, i);
      var before := log[..j];
      assert IsLast(before, i) && Survives(before, i, ttl);
      assert Held(before, log[i].key, log[i].at + ttl, ttl);
      assert !Holds(before, log[j].key, log[j].at, ttl);
      assert log[j].at >= log[i].at + ttl;
      assert Survives(log, j, ttl);
      SurvivingUse(log, j, ttl);
    }
  }

  lemma NextUse(log: Log, i: nat) returns (j: nat)
    requires i < |log| && log[i].Use? && !IsLast(log, i)
    ensures i < j < |log| && log[j].Use? && log[j].key == log[i].key
    ensures forall k :: i < k < j && log[k].Use? ==> log[k].key != log[i].key
  {
    j := i + 1;
    while !(log[j].Use? && log[j].key == log[i].key)
      invariant i < j < |log|
      invariant forall k :: i < k < j && log[k].Use? ==> log[k].key != log[i].key
      invariant exists k :: j <= k < |log| && log[k].Use? && log[k].key == log[i].key
      decreases |log| - j
    {
      j := j + 1;
    }
  }

  /**
   Whatever the order of the calls, the guard answers for a key exactly if some use less
   than `ttl` ago was not purged since; so a replay passes exactly if all such uses fell
   to a purge at a later reading, beyond their expiry.
   */
  lemma ReplayPassesIff(log: Log, key: string, now: int, ttl: int)
    requires Consistent(log, ttl) && ttl >= 0
    ensures Holds(log, key, now, ttl) <==>
              exists i: nat :: i < |log| && log[i].Use? && log[i].key == key && now < log[i].at + ttl && Survives(log, i, ttl)
    ensures Remembered(log, key, now, ttl) && !Holds(log, key, now, ttl) <==>
              && Remembered(log, key, now, ttl)
              && forall i: nat :: i < |log| && log[i].Use? && log[i].key == key && now < log[i].at + ttl ==>
                   exists j :: i < j < |log| && log[j].Purge? && log[j].at > log[i].at + ttl
  {
    if i: nat :| i < |log| && log[i].Use? && log[i].key == key && now < log[i].at + ttl && Survives(log, i, ttl) {
      SurvivingUse(log, i, ttl);
      var k: nat :| k < |log| && IsLast(log, k) && Survives(log, k, ttl)
                    && log[k].key == log[i].key && log[k].at >= log[i].at;
      assert Held(log, key, log[k].at + ttl, ttl);
    }
  }

  /** A concrete log: used, purged at a later reading, and passing once more at an earlier one. */
  lemma LatePurgeLetsAReplayPass()
    ensures var log := [Use("k", 0), Purge(11)];
            Consistent(log, 10) && Remembered(log, "k", 5, 10) && !Holds(log, "k", 5, 10)
  {
    var log := [Use("k", 0), Purge(11)];
    assert log[..0] == [];
    assert !Survives(log, 0, 10) by {
      assert log[1].Purge? && log[1].at > log[0].at + 10;
    }
    assert log[0] == Use("k", 0);
  }

  /** What an accepted key adds to the log: the purge it may cause, then its use. */
  function Recorded(key: string, now: int, purges: bool): Log {
    (if purges then [Event.Purge(now)] else []) + [Use(key, now)]
  }

  lemma RecordedIs(log: Log, key: string, now: int, purges: bool)
    ensures log + Recorded(key, now, purges) == (if purges then log + [Event.Purge(now)] else log) + [Use(key, now)]
  {
  }

  class Guard {
    var seen: map<string, int>
    const ttl: int
    ghost var log: Log

    constructor (ttl: int)
      ensures Valid() && log == [] && this.ttl == ttl
    {
      this.ttl := ttl;
      seen, log := map[], [];
    }

    ghost predicate Valid()
      reads this
    {
      Stands(seen, log, ttl) && Consistent(log, ttl)
    }

    lemma MapHolds(key: string, now: int)
      requires Valid()
      ensures (key in seen && now < seen[key]) <==> Holds(log, key, now, ttl)
    {
      hide Held, Consistent;
      if key in seen {
        assert Held(log, key, seen[key], ttl);
      }
    }

    method HasSeen(key: string, now: int) returns (replayed: bool)
      requires Valid()
      ensures replayed == (key in seen && now < seen[key]) == Holds(log, key, now, ttl)
    {
      MapHolds(key, now);
      replayed := key in seen && now < seen[key];
    }

    /** Delete what has expired, entry by entry. */
    method Purge(now: int)
      requires Valid()
      modifies this
      ensures Valid() && log == old(log) + [Event.Purge(now)]
      ensures forall k :: k in seen <==> k in old(seen) && now <= old(seen)[k]
      ensures forall k :: k in seen ==> seen[k] == old(seen)[k]
    {
      hide Held, Holds, Consistent, Stands;
      var todo := seen.Keys;
      while todo != {}
        invariant log == old(log) && todo <= seen.Keys <= old(seen).Keys
        invariant forall k :: k in seen ==> seen[k] == old(seen)[k]
        invariant forall k :: k in old(seen) && k !in todo ==> (k in seen <==> now <= old(seen)[k])
        decreases |todo|
      {
        var k :| k in todo;
        if now > seen[k] {
          seen := seen - {k};
        }
        todo := todo - {k};
      }
      PurgeStands(old(seen), seen, log, now, ttl);
      log := log + [Event.Purge(now)];
    }

    method SeenBefore(key: string, now: int) returns (replayed: bool)
      requires Valid()
      modifies this
      ensures Valid()
      ensures replayed == Holds(old(log), key, now, ttl)
      ensures log == if replayed then old(log) else old(log) + Recorded(key, now, |old(seen)| > 20000)
    {
      hide Held, Holds, Consistent, Stands;
      replayed := HasSeen(key, now);
      if replayed {
        return;
      }
      if |seen| > LIMIT {
        Purge(now);
      }
      MapHolds(key, now);
      UseStands(seen, log, key, now, ttl);
      RecordedIs(old(log), key, now, |old(seen)| > LIMIT);
      seen := seen[key := now + ttl];
      log := log + [Use(key, now)];
    }
  }

  lemma PurgeStands(seen: map<string, int>, after: map<string, int>, log: Log, now: int, ttl: int)
    requires Stands(seen, log, ttl) && Consistent(log, ttl)
    requires forall k :: k in after <==> k in seen && now <= seen[k]
    requires forall k :: k in after ==> after[k] == seen[k]
    ensures Stands(after, log + [Event.Purge(now)], ttl) && Consistent(log + [Event.Purge(now)], ttl)
  {
    hide Held, Holds;
    var more := log + [Event.Purge(now)];
    forall key, expiry ensures Held(more, key, expiry, ttl) <==> key in after && after[key] == expiry {
      HeldAfterPurge(log, now, ttl, key, expiry);
    }
    ConsistentSnoc(log, Event.Purge(now), ttl);
  }

  lemma UseStands(seen: map<string, int>, log: Log, key: string, now: int, ttl: int)
    requires Stands(seen, log, ttl) && Consistent(log, ttl) && !Holds(log, key, now, ttl)
    ensures Stands(seen[key := now + ttl], log + [Use(key, now)], ttl) && Consistent(log + [Use(key, now)], ttl)
  {
    hide Held, Holds;
    var more, after := log + [Use(key, now)], seen[key := now + ttl];
    forall k, expiry ensures Held(more, k, expiry, ttl) <==> k in after && after[k] == expiry {
      HeldAfterUse(log, key, now, ttl, k, expiry);
    }
    ConsistentSnoc(log, Use(key, now), ttl);
  }

  lemma ConsistentSnoc(log: Log, e: Event, ttl: int)
    requires Consistent(log, ttl) && (e.Use? ==> !Holds(log, e.key, e.at, ttl))
    ensures Consistent(log + [e], ttl)
  {
    hide Holds;
    var more := log + [e];
    forall i | 0 <= i < |more| && more[i].Use? ensures !Holds(more[..i], more[i].key, more[i].at, ttl) {
      assert more[..i] == if i < |log| then log[..i] else log;
      assert i < |log| ==> more[i] == log[i];
    }
  }

  // ---- Requests ----

  /** A signed request and when it arrives; `genuine` says that its signature and device hold. */
  datatype Request = Request(device: string, nonce: string, ts: int, genuine: bool, now: int)

  function Key(device: string, nonce: string): string {
    device + "\0" + nonce
  }

  /** Headers hold no NUL, so the key tells the device and the nonce. */
  lemma KeyTellsBoth(d: string, n: string, e: string, m: string)
    requires '\0' !in d && '\0' !in e && Key(d, n) == Key(e, m)
    ensures d == e && n == m
  {
    var k := Key(d, n);
    assert k[|d|] == '\0' && k[|e|] == '\0';
    assert forall i :: 0 <= i < |d| ==> k[i] == d[i] && d[i] in d;
    assert forall i :: 0 <= i < |e| ==> k[i] == e[i] && e[i] in e;
    assert d == k[..|d|] && n == k[|d| + 1..] && e == k[..|e|] && m == k[|e| + 1..];
  }

  /** The deviation the freshness check allows; the guard's ttl is twice the configured one. */
  function Skew(configured: int): int {
    if configured <= 0 then DEFAULT_SKEW else configured
  }

  predicate Fresh(configured: int, r: Request) {
    r.now - r.ts * SECOND <= Skew(configured) && r.ts * SECOND - r.now <= Skew(configured)
  }

  /** Fresh: signed at most the configured deviation before or after, or five minutes if none is configured. */
  lemma FreshIff(configured: int, r: Request)
    ensures Fresh(configured, r) <==>
              var skew := if configured > 0 then configured else 300_000_000_000;
              r.ts * 1_000_000_000 - skew <= r.now <= r.ts * 1_000_000_000 + skew
  {
  }

  predicate Passes(history: Log, configured: int, r: Request) {
    r.genuine && Fresh(configured, r) && !Remembered(history, Key(r.device, r.nonce), r.now, 2 * configured)
  }

  /** What has been accepted after the requests. */
  function History(configured: int, requests: seq<Request>): Log {
    if requests == [] then []
    else
      var before, r := History(configured, requests[..|requests| - 1]), requests[|requests| - 1];
      if Passes(before, configured, r) then before + [Use(Key(r.device, r.nonce), r.now)] else before
  }

  predicate Accepted(configured: int, requests: seq<Request>, i: nat)
    requires i < |requests|
  {
    Passes(History(configured, requests[..i]), configured, requests[i])
  }

  ghost predicate InOrder(requests: seq<Request>) {
    forall i, j :: 0 <= i < j < |requests| ==> requests[i].now <= requests[j].now
  }

  /** The uses of a log, purges left out. */
  function Uses(log: Log): Log {
    Filter(log, (e: Event) => e.Use?)
  }

  lemma RememberedUses(log: Log, key: string, now: int, ttl: int)
    ensures Remembered(log, key, now, ttl) <==> Remembered(Uses(log), key, now, ttl)
  {
    FilterMembers(log, (e: Event) => e.Use?);
    var uses := Uses(log);
    if i :| 0 <= i < |log| && log[i].Use? && log[i].key == key && now < log[i].at + ttl {
      assert log[i] in uses;
      var k :| 0 <= k < |uses| && uses[k] == log[i];
    }
    if i :| 0 <= i < |uses| && uses[i].Use? && uses[i].key == key && now < uses[i].at + ttl {
      assert uses[i] in log;
      var k :| 0 <= k < |log| && log[k] == uses[i];
    }
  }

  lemma UsesSnoc(log: Log, e: Event)
    ensures Uses(log + [e]) == if e.Use? then Uses(log) + [e] else Uses(log)
  {
    FilterAppend(log, [e], (e: Event) => e.Use?);
    FilterOne(e, (e: Event) => e.Use?);
  }

  /** What deviceAuth lets through, the guard having this log. */
  ghost predicate LetsThrough(log: Log, configured: int, r: Request) {
    r.genuine && Fresh(configured, r) && !Holds(log, Key(r.device, r.nonce), r.now, 2 * configured)
  }

  /** deviceAuth, as far as freshness and replay are concerned: what passes, whatever the order of the calls. */
  method DeviceAuth(guard: Guard, configured: int, r: Request) returns (ok: bool)
    requires guard.Valid() && guard.ttl == 2 * configured
    modifies guard
    ensures guard.Valid()
    ensures ok <==> LetsThrough(old(guard.log), configured, r)
    ensures guard.log == if ok then old(guard.log) + Recorded(Key(r.device, r.nonce), r.now, |old(guard.seen)| > 20000)
                         else old(guard.log)
  {
    if !Fresh(configured, r) {
      return false;
    }
    var key := Key(r.device, r.nonce);
    var known := guard.HasSeen(key, r.now);
    if known || !r.genuine {
      return false;
    }
    known := guard.SeenBefore(key, r.now);
    ok := !known;
  }

  lemma NextLog(log: Log, key: string, now: int, purges: bool)
    requires UpTo(log, now)
    ensures var more := log + Recorded(key, now, purges);
            UpTo(more, now) && Uses(more) == Uses(log) + [Use(key, now)]
  {
    RecordedIs(log, key, now, purges);
    UsesSnoc(log, Event.Purge(now));
    UsesSnoc(log, Use(key, now));
    UsesSnoc(log + [Event.Purge(now)], Use(key, now));
  }

  /** A request as it was served; `purges` tells whether the map was purged for it, if it passed. */
  datatype Served = Served(r: Request, purges: bool)

  /** The guard's log after a run. */
  ghost function LogOf(configured: int, run: seq<Served>): Log {
    if run == [] then []
    else
      var before, s := LogOf(configured, run[..|run| - 1]), run[|run| - 1];
      if LetsThrough(before, configured, s.r) then before + Recorded(Key(s.r.device, s.r.nonce), s.r.now, s.purges)
      else before
  }

  ghost predicate PassesAt(configured: int, run: seq<Served>, i: nat)
    requires i < |run|
  {
    LetsThrough(LogOf(configured, run[..i]), configured, run[i].r)
  }

  /**
   The guard, driven through any run of requests: what passes.  For requests in order of
   time it answers as the record says.
   */
  method Serve(configured: int, requests: seq<Request>) returns (answers: seq<bool>, ghost run: seq<Served>)
    ensures |answers| == |requests| == |run|
    ensures forall i :: 0 <= i < |requests| ==> run[i].r == requests[i] && answers[i] == PassesAt(configured, run, i)
    ensures InOrder(requests) ==> forall i :: 0 <= i < |requests| ==> answers[i] == Accepted(configured, requests, i)
  {
    var guard := new Guard(2 * configured);
    answers, run := [], [];
    hide *;
    NothingServed(configured, requests);
    while |answers| < |requests|
      invariant |answers| == |run| <= |requests|
      invariant guard.Valid() && guard.ttl == 2 * configured && fresh(guard) && guard.log == LogOf(configured, run)
      invariant forall i :: 0 <= i < |answers| ==> run[i].r == requests[i] && answers[i] == PassesAt(configured, run, i)
      invariant InOrder(requests) ==> AsRecorded(configured, requests, |answers|, guard.log)
      invariant InOrder(requests) ==>
                  forall i :: 0 <= i < |answers| ==> answers[i] == Accepted(configured, requests, i)
    {
      var r := requests[|answers|];
      ghost var log, purges := guard.log, |guard.seen| > 20000;
      var ok := DeviceAuth(guard, configured, r);
      if InOrder(requests) {
        OneMoreInOrder(configured, requests, |answers|, log, purges);
      }
      OneMoreServed(configured, run, Served(r, purges));
      answers, run := answers + [ok], run + [Served(r, purges)];
    }
  }

  /** The log holds what the record does. */
  ghost predicate AsRecorded(configured: int, requests: seq<Request>, n: nat, log: Log)
    requires n <= |requests|
  {
    && Uses(log) == History(configured, requests[..n])
    && (n < |requests| ==> UpTo(log, requests[n].now))
  }

  lemma NothingServed(configured: int, requests: seq<Request>)
    ensures AsRecorded(configured, requests, 0, []) && LogOf(configured, []) == []
  {
    UsesOfNothing();
  }

  lemma OneMoreInOrder(configured: int, requests: seq<Request>, n: nat, log: Log, purges: bool)
    requires n < |requests| && InOrder(requests) && AsRecorded(configured, requests, n, log)
    ensures var r := requests[n];
            && (LetsThrough(log, configured, r) <==> Accepted(configured, requests, n))
            && AsRecorded(configured, requests, n + 1,
                          if LetsThrough(log, configured, r) then log + Recorded(Key(r.device, r.nonce), r.now, purges) else log)
  {
    var r, key := requests[n], Key(requests[n].device, requests[n].nonce);
    assert requests[..n + 1][..n] == requests[..n];
    hide Remembered, Holds, Fresh, Uses, Recorded;
    MapAnswersAsHistory(log, key, r.now, 2 * configured);
    RememberedUses(log, key, r.now, 2 * configured);
    NextLog(log, key, r.now, purges);
    var more := log + Recorded(key, r.now, purges);
    assert n + 1 < |requests| ==> r.now <= requests[n + 1].now;
  }

  lemma OneMoreServed(configured: int, run: seq<Served>, s: Served)
    ensures forall i :: 0 <= i < |run| ==>
              (run + [s])[i] == run[i] && (PassesAt(configured, run + [s], i) <==> PassesAt(configured, run, i))
    ensures PassesAt(configured, run + [s], |run|) <==> LetsThrough(LogOf(configured, run), configured, s.r)
    ensures LogOf(configured, run + [s])
         == if LetsThrough(LogOf(configured, run), configured, s.r)
            then LogOf(configured, run) + Recorded(Key(s.r.device, s.r.nonce), s.r.now, s.purges)
            else LogOf(configured, run)
  {
    var more := run + [s];
    assert more[..|run|] == run;
    forall i | 0 <= i < |run| ensures more[..i] == run[..i] {
    }
  }

  lemma UsesOfNothing()
    ensures Uses([]) == []
  {
  }

  // ---- Once per signature ----

  lemma {:induction false} AcceptedIsRecorded(configured: int, requests: seq<Request>, i: nat, j: nat)
    requires i < j <= |requests| && Accepted(configured, requests, i)
    ensures Use(Key(requests[i].device, requests[i].nonce), requests[i].now) in History(configured, requests[..j])
    decreases j
  {
    assert requests[..j][..j - 1] == requests[..j - 1];
    if i < j - 1 {
      AcceptedIsRecorded(configured, requests, i, j - 1);
    }
  }

  /** Two acceptances of one key are at least twice the configured deviation apart. */
  lemma AcceptancesAreApart(configured: int, requests: seq<Request>, i: nat, j: nat)
    requires i < j < |requests| && Accepted(configured, requests, i) && Accepted(configured, requests, j)
    requires requests[i].device == requests[j].device && requests[i].nonce == requests[j].nonce
    ensures requests[j].now >= requests[i].now + 2 * configured
  {
    AcceptedIsRecorded(configured, requests, i, j);
  }

  predicate SameSignature(r: Request, s: Request) {
    r.device == s.device && r.nonce == s.nonce && r.ts == s.ts
  }

  /** The first acceptance is at the very start of the signature's lifetime, the second at its very end. */
  predicate AtBothEnds(configured: int, r: Request, s: Request) {
    r.now == r.ts * SECOND - Skew(configured) && s.now == r.ts * SECOND + Skew(configured)
  }

  ghost predicate OncePerSignature(configured: int) {
    forall requests: seq<Request>, i, j ::
      && 0 <= i < j < |requests| && InOrder(requests) && SameSignature(requests[i], requests[j])
      && Accepted(configured, requests, i) && Accepted(configured, requests, j)
      ==> AtBothEnds(configured, requests[i], requests[j])
  }

  function Repeated(r: Request): seq<Request> {
    [r, r]
  }

  /** With a deviation that is not positive the guard remembers nothing: a request passes twice at once. */
  lemma RepeatPasses(configured: int, r: Request)
    requires configured <= 0 && r.genuine && Fresh(configured, r)
    ensures Accepted(configured, Repeated(r), 0) && Accepted(configured, Repeated(r), 1)
  {
    var both := Repeated(r);
    assert both[..0] == [] && both[..1] == [r] && [r][..0] == [];
  }

  /**
   A signed request is accepted at most once, save at the two end instants of its
   lifetime, if and only if the configured deviation is positive.
   */
  lemma OncePerSignatureIff(configured: int)
    ensures OncePerSignature(configured) <==> configured > 0
  {
    if configured > 0 {
      forall requests: seq<Request>, i, j |
        && 0 <= i < j < |requests| && InOrder(requests) && SameSignature(requests[i], requests[j])
        && Accepted(configured, requests, i) && Accepted(configured, requests, j)
        ensures AtBothEnds(configured, requests[i], requests[j])
      {
        AcceptancesAreApart(configured, requests, i, j);
      }
    } else {
      var r := Request("d", "n", 0, true, 0);
      RepeatPasses(configured, r);
      var both := Repeated(r);
      assert 0 <= 0 < 1 < |both| && InOrder(both) && SameSignature(both[0], both[1]);
      assert !AtBothEnds(configured, both[0], both[1]);
    }
  }

  /** The exception is real: at both ends of its lifetime a request does pass twice. */
  lemma BothEndsPass(configured: int, r: Request)
    requires configured > 0 && r.genuine
    ensures var both := [r.(now := r.ts * SECOND - configured), r.(now := r.ts * SECOND + configured)];
            Accepted(configured, both, 0) && Accepted(configured, both, 1)
  {
    var first, second := r.(now := r.ts * SECOND - configured), r.(now := r.ts * SECOND + configured);
    var both := [first, second];
    assert both[..0] == [] && both[..1] == [first] && [first][..0] == [];
  }

  // ---- The same in any order of time ----

  /** A use of the key at this time is in the log, not purged. */
  ghost predicate Lives(log: Log, key: string, at: int, ttl: int) {
    exists i: nat :: i < |log| && log[i] == Use(key, at) && Survives(log, i, ttl)
  }

  lemma LivesSnoc(log: Log, e: Event, key: string, at: int, ttl: int)
    ensures Lives(log + [e], key, at, ttl) <==>
              e == Use(key, at) || (Lives(log, key, at, ttl) && (e.Purge? ==> e.at <= at + ttl))
  {
    var more := log + [e];
    forall i: nat | i < |log|
      ensures more[i] == log[i]
      ensures Survives(more, i, ttl) <==> Survives(log, i, ttl) && (e.Purge? ==> e.at <= log[i].at + ttl)
    {
      Unchanged(log, e, i, ttl);
    }
    assert e.Use? ==> Survives(more, |log|, ttl);
    assert more[|log|] == e;
    hide Survives;
    if e == Use(key, at) {
      assert Lives(more, key, at, ttl);
    } else if Lives(log, key, at, ttl) && (e.Purge? ==> e.at <= at + ttl) {
      var i: nat :| i < |log| && log[i] == Use(key, at) && Survives(log, i, ttl);
      assert more[i] == Use(key, at) && Survives(more, i, ttl);
    }
    if Lives(more, key, at, ttl) {
      var i: nat :| i < |more| && more[i] == Use(key, at) && Survives(more, i, ttl);
      assert i < |log| ==> log[i] == Use(key, at) && Survives(log, i, ttl);
    }
  }

  lemma LivesRecorded(log: Log, k: string, now: int, purges: bool, key: string, at: int, ttl: int)
    ensures Lives(log + Recorded(k, now, purges), key, at, ttl) <==>
              (k == key && now == at) || (Lives(log, key, at, ttl) && (purges ==> now <= at + ttl))
  {
    hide Lives;
    RecordedIs(log, k, now, purges);
    LivesSnoc(log, Event.Purge(now), key, at, ttl);
    LivesSnoc(if purges then log + [Event.Purge(now)] else log, Use(k, now), key, at, ttl);
  }

  function KeyOf(s: Served): string {
    Key(s.r.device, s.r.nonce)
  }

  /** Before the n-th request one that passed had the map purged at a reading beyond the expiry of the k-th. */
  ghost predicate Forgotten(configured: int, run: seq<Served>, k: nat, n: nat)
    requires k < n <= |run|
  {
    exists m: nat :: k < m < n && PassesAt(configured, run, m) && run[m].purges
                     && run[m].r.now > run[k].r.now + 2 * configured
  }

  /** The k-th request passed and is still known when the n-th one comes. */
  ghost predicate Known(configured: int, run: seq<Served>, k: nat, n: nat)
    requires k < n <= |run|
  {
    PassesAt(configured, run, k) && !Forgotten(configured, run, k, n)
  }

  lemma KnownNext(configured: int, run: seq<Served>, k: nat, n: nat)
    requires k <= n < |run|
    ensures Known(configured, run, k, n + 1) <==>
              if k == n then PassesAt(configured, run, n)
              else Known(configured, run, k, n)
                   && !(PassesAt(configured, run, n) && run[n].purges && run[n].r.now > run[k].r.now + 2 * configured)
  {
    hide PassesAt;
    if k < n && Forgotten(configured, run, k, n) {
      var m: nat :| k < m < n && PassesAt(configured, run, m) && run[m].purges
                    && run[m].r.now > run[k].r.now + 2 * configured;
      assert m < n + 1;
    }
  }

  ghost predicate KnownUse(configured: int, run: seq<Served>, n: nat, key: string, at: int)
    requires n <= |run|
  {
    exists k: nat :: k < n && Known(configured, run, k, n) && KeyOf(run[k]) == key && run[k].r.now == at
  }

  lemma LogNext(configured: int, run: seq<Served>, n: nat)
    requires n < |run|
    ensures LogOf(configured, run[..n + 1])
         == if PassesAt(configured, run, n)
            then LogOf(configured, run[..n]) + Recorded(KeyOf(run[n]), run[n].r.now, run[n].purges)
            else LogOf(configured, run[..n])
  {
    hide LetsThrough, Recorded;
    assert run[..n + 1][..n] == run[..n];
  }

  lemma {:induction false} LogIsConsistent(configured: int, run: seq<Served>, n: nat)
    requires n <= |run|
    ensures Consistent(LogOf(configured, run[..n]), 2 * configured)
  {
    if n > 0 {
      hide Holds, Consistent;
      LogIsConsistent(configured, run, n - 1);
      LogNext(configured, run, n - 1);
      var log, s := LogOf(configured, run[..n - 1]), run[n - 1];
      if PassesAt(configured, run, n - 1) {
        RecordedIs(log, KeyOf(s), s.r.now, s.purges);
        ConsistentSnoc(log, Event.Purge(s.r.now), 2 * configured);
        StillNotHeld(log, s.r.now, KeyOf(s), s.r.now, 2 * configured);
        ConsistentSnoc(if s.purges then log + [Event.Purge(s.r.now)] else log, Use(KeyOf(s), s.r.now), 2 * configured);
      }
    }
  }

  lemma StillNotHeld(log: Log, at: int, key: string, now: int, ttl: int)
    requires !Holds(log, key, now, ttl)
    ensures !Holds(log + [Event.Purge(at)], key, now, ttl)
  {
    hide Held;
    forall expiry ensures Held(log + [Event.Purge(at)], key, expiry, ttl) ==> Held(log, key, expiry, ttl) {
      HeldAfterPurge(log, at, ttl, key, expiry);
    }
  }

  /** The uses that live in the log are the requests that passed and are still known. */
  lemma {:induction false} LivesIffKnown(configured: int, run: seq<Served>, n: nat, key: string, at: int)
    requires n <= |run|
    ensures Lives(LogOf(configured, run[..n]), key, at, 2 * configured) <==> KnownUse(configured, run, n, key, at)
  {
    hide Lives, KnownUse, PassesAt, LogOf, Recorded, KeyOf;
    if n == 0 {
      NothingKnown(configured, run, key, at);
    } else {
      LivesIffKnown(configured, run, n - 1, key, at);
      LogNext(configured, run, n - 1);
      var s := run[n - 1];
      LivesRecorded(LogOf(configured, run[..n - 1]), KeyOf(s), s.r.now, s.purges, key, at, 2 * configured);
      KnownUseNext(configured, run, n - 1, key, at);
    }
  }

  lemma NothingKnown(configured: int, run: seq<Served>, key: string, at: int)
    ensures !Lives(LogOf(configured, run[..0]), key, at, 2 * configured) && !KnownUse(configured, run, 0, key, at)
  {
  }

  lemma KnownUseNext(configured: int, run: seq<Served>, n: nat, key: string, at: int)
    requires n < |run|
    ensures KnownUse(configured, run, n + 1, key, at) <==>
              || (PassesAt(configured, run, n) && KeyOf(run[n]) == key && run[n].r.now == at)
              || (KnownUse(configured, run, n, key, at)
                  && !(PassesAt(configured, run, n) && run[n].purges && run[n].r.now > at + 2 * configured))
  {
    hide PassesAt, Known, KeyOf;
    forall k: nat | k <= n
      ensures Known(configured, run, k, n + 1) <==>
                if k == n then PassesAt(configured, run, n)
                else Known(configured, run, k, n)
                     && !(PassesAt(configured, run, n) && run[n].purges && run[n].r.now > run[k].r.now + 2 * configured)
    {
      KnownNext(configured, run, k, n);
    }
    if KnownUse(configured, run, n + 1, key, at) {
      var k: nat :| k < n + 1 && Known(configured, run, k, n + 1) && KeyOf(run[k]) == key && run[k].r.now == at;
      assert k < n ==> Known(configured, run, k, n);
    }
    if PassesAt(configured, run, n) && KeyOf(run[n]) == key && run[n].r.now == at {
      assert Known(configured, run, n, n + 1);
    }
    if KnownUse(configured, run, n, key, at)
       && !(PassesAt(configured, run, n) && run[n].purges && run[n].r.now > at + 2 * configured) {
      var k: nat :| k < n && Known(configured, run, k, n) && KeyOf(run[k]) == key && run[k].r.now == at;
      assert Known(configured, run, k, n + 1);
    }
  }

  /**
   In any order of time: a genuine and fresh request passes if and only if every earlier
   one of its device and nonce that passed is twice the configured deviation older, or was
   forgotten to a purge at a later reading.
   */
  lemma PassesIff(configured: int, run: seq<Served>, j: nat)
    requires configured >= 0 && j < |run| && run[j].r.genuine && Fresh(configured, run[j].r)
    ensures PassesAt(configured, run, j) <==>
              forall k: nat :: k < j && PassesAt(configured, run, k) && KeyOf(run[k]) == KeyOf(run[j]) ==>
                Forgotten(configured, run, k, j) || run[j].r.now >= run[k].r.now + 2 * configured
  {
    var log, key, now, ttl := LogOf(configured, run[..j]), KeyOf(run[j]), run[j].r.now, 2 * configured;
    LogIsConsistent(configured, run, j);
    ReplayPassesIff(log, key, now, ttl);
    assert PassesAt(configured, run, j) <==> !Holds(log, key, now, ttl);
    forall at ensures Lives(log, key, at, ttl) <==> KnownUse(configured, run, j, key, at) {
      LivesIffKnown(configured, run, j, key, at);
    }
    hide PassesAt, Forgotten, Holds, Survives, KeyOf, LogOf, Consistent;
    if Holds(log, key, now, ttl) {
      var i: nat :| i < |log| && log[i].Use? && log[i].key == key && now < log[i].at + ttl && Survives(log, i, ttl);
      assert Lives(log, key, log[i].at, ttl);
    }
    if k: nat :| k < j && Known(configured, run, k, j) && KeyOf(run[k]) == key && now < run[k].r.now + ttl {
      assert KnownUse(configured, run, j, key, run[k].r.now);
    }
  }

  /**
   In any order of time a signed request that passed once, no other of its device and
   nonce having passed, passes again if and only if it does so at the two ends of its
   lifetime or past a purge at a later reading.  Whatever else passed, the second passing
   takes the two ends or an earlier request whose reading is later than its own.
   */
  lemma SignaturePassesTwiceIff(configured: int, run: seq<Served>, i: nat, j: nat)
    requires configured > 0 && i < j < |run| && SameSignature(run[i].r, run[j].r) && PassesAt(configured, run, i)
    requires run[j].r.genuine && Fresh(configured, run[j].r)
    ensures run[j].r.now >= run[i].r.now + 2 * configured <==> AtBothEnds(configured, run[i].r, run[j].r)
    ensures (forall k: nat :: k < j && k != i && PassesAt(configured, run, k) ==> KeyOf(run[k]) != KeyOf(run[j])) ==>
              (PassesAt(configured, run, j) <==>
                 Forgotten(configured, run, i, j) || AtBothEnds(configured, run[i].r, run[j].r))
    ensures PassesAt(configured, run, j) && !AtBothEnds(configured, run[i].r, run[j].r) ==>
              exists m: nat :: i < m < j && PassesAt(configured, run, m) && run[m].purges && run[m].r.now > run[j].r.now
  {
    PassesIff(configured, run, j);
    assert Fresh(configured, run[i].r) && KeyOf(run[i]) == KeyOf(run[j]);
    hide PassesAt, KeyOf;
  }
}
