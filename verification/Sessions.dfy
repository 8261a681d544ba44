/**
 The in-memory session store (internal/domain/auth/session.go).

 Sessions are objects edited in place under one lock; `View` is the map of their
 contents.  Every operation takes its clock reading `now`, in nanoseconds.
 */
module Sessions {
  import opened Common

  type Token = string

  const MOBILE := "mobile"
  const MOBILE_DIRECT := "mobile-direct"

  datatype Record = Record(id: string, user: int, clientType: string, deviceId: string,
                           loginAt: int, expiresAt: int, token: Token)

  type Store = map<Token, Record>

  predicate Exempt(clientType: string) {
    clientType == MOBILE || clientType == MOBILE_DIRECT
  }

  /** IsSessionValid of one session; an idle timeout that is not positive is off. */
  predicate Live(r: Record, idle: int, now: int) {
    !(r.expiresAt < now) && (Exempt(r.clientType) || idle <= 0 || !(r.loginAt < now - idle))
  }

  // ---- The operations, on maps ----

  function Created(s: Store, r: Record): Store {
    s[r.token := r]
  }

  function Refreshed(s: Store, t: Token, now: int): Store {
    if t in s then s[t := s[t].(loginAt := now)] else s
  }

  /** ReplaceSession: `r` is the row it would create; an old row of the same user is kept and edited. */
  function Replaced(s: Store, presented: Token, r: Record): Store {
    if presented in s && s[presented].user == r.user
    then (s - {presented})[r.token := s[presented].(token := r.token, loginAt := r.loginAt, expiresAt := r.expiresAt)]
    else s[r.token := r]
  }

  function TouchedIf(r: Record, user: int, now: int, ttl: int): Record {
    if r.user == user && r.clientType == MOBILE && r.expiresAt > now
    then r.(loginAt := now, expiresAt := Max(r.expiresAt, now + ttl)) else r
  }

  function TouchedMobile(s: Store, user: int, now: int, ttl: int): Store {
    map t | t in s :: TouchedIf(s[t], user, now, ttl)
  }

  function Without(s: Store, gone: Record -> bool): Store {
    map t | t in s && !gone(s[t]) :: s[t]
  }

  /** CleanupExpiredSessions. */
  function Swept(s: Store, idle: int, now: int): Store {
    map t | t in s && Live(s[t], idle, now) :: s[t]
  }

  predicate IsValid(s: Store, t: Token, idle: int, now: int) {
    t in s && Live(s[t], idle, now)
  }

  // ---- Runs ----

  datatype Op =
    | Create(r: Record, now: int)
    | UpdateActivity(t: Token, now: int)
    | Replace(presented: Token, r: Record, now: int)
    | TouchMobile(user: int, ttl: int, now: int)
    | Remove(t: Token, now: int)
    | RemoveUser(user: int, now: int)
    | RemoveMobile(user: int, now: int)
    | RemoveOthers(user: int, keep: set<Token>, now: int)
    | RemoveById(user: int, id: string, pick: Token, now: int)
    | Sweep(now: int)
    | Ask(t: Token, now: int)

  function Step(s: Store, op: Op, idle: int): Store {
    match op
    case Create(r, now) => Created(s, r.(loginAt := now))
    case UpdateActivity(t, now) => Refreshed(s, t, now)
    case Replace(presented, r, now) => Replaced(s, presented, r.(loginAt := now))
    case TouchMobile(user, ttl, now) => TouchedMobile(s, user, now, ttl)
    case Remove(t, _) => s - {t}
    case RemoveUser(user, _) => Without(s, (r: Record) => r.user == user)
    case RemoveMobile(user, _) => Without(s, (r: Record) => r.user == user && r.clientType == MOBILE)
    case RemoveOthers(user, keep, _) => map t | t in s && (s[t].user != user || t in keep) :: s[t]
    case RemoveById(user, id, pick, _) =>
      // The map is searched in no particular order: `pick` is the row met first.
      if pick in s && s[pick].id == id && s[pick].user == user then s - {pick} else s
    case Sweep(now) => Swept(s, idle, now)
    case Ask(_, _) => s
  }

  function Run(s: Store, ops: seq<Op>, idle: int): Store
    decreases |ops|
  {
    if ops == [] then s else Run(Step(s, ops[0], idle), ops[1..], idle)
  }

  /** The answers IsSessionValid gives along a run. */
  function Answers(s: Store, ops: seq<Op>, idle: int): seq<bool>
    decreases |ops|
  {
    if ops == [] then []
    else
      (if ops[0].Ask? then [IsValid(s, ops[0].t, idle, ops[0].now)] else [])
      + Answers(Step(s, ops[0], idle), ops[1..], idle)
  }

  /** The clock never goes back. */
  predicate Timed(ops: seq<Op>, from: int)
    decreases |ops|
  {
    ops == [] || (from <= ops[0].now && Timed(ops[1..], ops[0].now))
  }

  function Unswept(ops: seq<Op>): seq<Op> {
    Filter(ops, (op: Op) => !op.Sweep?)
  }

  /** Client types no operation tells apart; without an idle timeout the exemption from it is no difference. */
  predicate AgreeTypes(idle: int, a: string, b: string) {
    (a == MOBILE <==> b == MOBILE) && (idle <= 0 || (Exempt(a) <==> Exempt(b)))
  }

  /** ReplaceSession finds the user's own row, but dead: a sweep would have taken it away. */
  predicate DeadOwn(s: Store, presented: Token, r: Record, idle: int, now: int) {
    presented in s && s[presented].user == r.user && !Live(s[presented], idle, now)
  }

  /**
   What the callers keep to: UpdateActivity does not revive an idle session, a session
   replaced after it went dead is replaced under a type of its own kind, and sessions are
   removed by id only as long as `ids` says that no dead one was replaced under a new id.
   */
  predicate Proper(s: Store, op: Op, idle: int, ids: bool) {
    match op
    case UpdateActivity(t, now) => t in s ==> Live(s[t], idle, now) || s[t].expiresAt < now
    case Replace(presented, r, now) =>
      DeadOwn(s, presented, r, idle, now) ==> AgreeTypes(idle, s[presented].clientType, r.clientType)
    case RemoveById(_, _, _, _) => ids
    case _ => true
  }

  predicate KeepsIds(s: Store, op: Op, idle: int) {
    op.Replace? && DeadOwn(s, op.presented, op.r, idle, op.now) ==> s[op.presented].id == op.r.id
  }

  predicate ProperRun(s: Store, ops: seq<Op>, idle: int, ids: bool)
    decreases |ops|
  {
    ops == [] ||
    (Proper(s, ops[0], idle, ids) && ProperRun(Step(s, ops[0], idle), ops[1..], idle, ids && KeepsIds(s, ops[0], idle)))
  }

  // ---- The sweep is unobservable ----

  ghost predicate Alike(a: Record, b: Record, idle: int, ids: bool) {
    && a.user == b.user && a.loginAt == b.loginAt && a.expiresAt == b.expiresAt
    && AgreeTypes(idle, a.clientType, b.clientType) && (ids ==> a.id == b.id)
  }

  ghost predicate TokenIsKey(s: Store) {
    forall t :: t in s ==> s[t].token == t
  }

  /** `part` is `full` without some dead rows. */
  ghost predicate Covers(part: Store, full: Store, idle: int, now: int, ids: bool) {
    && (forall t :: t in part ==> t in full && Alike(part[t], full[t], idle, ids))
    && (forall t :: t in full && t !in part ==> !Live(full[t], idle, now))
  }

  lemma CoversLater(part: Store, full: Store, idle: int, now: int, later: int, ids: bool)
    requires Covers(part, full, idle, now, ids) && now <= later
    ensures Covers(part, full, idle, later, ids)
  {
  }

  lemma StepKeepsTokens(s: Store, op: Op, idle: int)
    requires TokenIsKey(s)
    ensures TokenIsKey(Step(s, op, idle))
  {
  }

  lemma ReplaceKeepsCovers(part: Store, full: Store, presented: Token, r: Record, idle: int, now: int, ids: bool)
    requires Covers(part, full, idle, now, ids)
    requires DeadOwn(full, presented, r, idle, now) ==> AgreeTypes(idle, full[presented].clientType, r.clientType)
    ensures Covers(Replaced(part, presented, r), Replaced(full, presented, r), idle, now,
                   ids && (DeadOwn(full, presented, r, idle, now) ==> full[presented].id == r.id))
  {
    hide Exempt;
  }

  lemma TouchKeepsCovers(part: Store, full: Store, user: int, idle: int, now: int, ttl: int, ids: bool)
    requires Covers(part, full, idle, now, ids)
    ensures Covers(TouchedMobile(part, user, now, ttl), TouchedMobile(full, user, now, ttl), idle, now, ids)
  {
  }

  lemma RestKeepsCovers(part: Store, full: Store, op: Op, idle: int, ids: bool)
    requires Covers(part, full, idle, op.now, ids) && Proper(full, op, idle, ids)
    requires !op.Sweep? && !op.Replace? && !op.TouchMobile?
    ensures Covers(Step(part, op, idle), Step(full, op, idle), idle, op.now, ids)
  {
  }

  lemma StepKeepsCovers(part: Store, full: Store, op: Op, idle: int, ids: bool)
    requires Covers(part, full, idle, op.now, ids) && Proper(full, op, idle, ids) && !op.Sweep?
    ensures Covers(Step(part, op, idle), Step(full, op, idle), idle, op.now, ids && KeepsIds(full, op, idle))
  {
    hide Covers, Replaced, TouchedMobile, Live, AgreeTypes;
    match op
    case Replace(presented, r, now) => ReplaceKeepsCovers(part, full, presented, r.(loginAt := now), idle, now, ids);
    case TouchMobile(user, ttl, now) => TouchKeepsCovers(part, full, user, idle, now, ttl, ids);
    case _ => RestKeepsCovers(part, full, op, idle, ids);
  }

  lemma SweepKeepsCovers(part: Store, full: Store, idle: int, now: int, ids: bool)
    requires Covers(part, full, idle, now, ids)
    ensures Covers(Swept(part, idle, now), full, idle, now, ids)
  {
  }

  lemma {:induction false} SweptRunAnswersAlike(part: Store, full: Store, ops: seq<Op>, idle: int, now: int, ids: bool)
    requires Covers(part, full, idle, now, ids) && Timed(ops, now)
    requires ProperRun(full, Unswept(ops), idle, ids)
    ensures Answers(part, ops, idle) == Answers(full, Unswept(ops), idle)
    decreases |ops|
  {
    if ops != [] {
      var op := ops[0];
      CoversLater(part, full, idle, now, op.now, ids);
      if op.Sweep? {
        SweepKeepsCovers(part, full, idle, op.now, ids);
        SweptRunAnswersAlike(Step(part, op, idle), full, ops[1..], idle, op.now, ids);
      } else {
        StepKeepsCovers(part, full, op, idle, ids);
        assert Unswept(ops)[1..] == Unswept(ops[1..]);
        SweptRunAnswersAlike(Step(part, op, idle), Step(full, op, idle), ops[1..], idle, op.now,
                             ids && KeepsIds(full, op, idle));
      }
    }
  }

  /**
   Sweeping is unobservable: two runs that differ only in where they sweep, if at all,
   give the same answers to every IsSessionValid.
   */
  lemma SweepIsUnobservable(a: seq<Op>, b: seq<Op>, idle: int, start: int)
    requires Unswept(a) == Unswept(b) && ProperRun(map[], Unswept(a), idle, true)
    requires Timed(a, start) && Timed(b, start)
    ensures Answers(map[], a, idle) == Answers(map[], b, idle)
  {
    SweptRunAnswersAlike(map[], map[], a, idle, start, true);
    SweptRunAnswersAlike(map[], map[], b, idle, start, true);
  }

  lemma {:induction false} TokensAreKeys(s: Store, ops: seq<Op>, idle: int)
    requires TokenIsKey(s)
    ensures TokenIsKey(Run(s, ops, idle))
    decreases |ops|
  {
    if ops != [] {
      StepKeepsTokens(s, ops[0], idle);
      TokensAreKeys(Step(s, ops[0], idle), ops[1..], idle);
    }
  }

  /** A row that never went dead through idling is the exact case in which a sweep cannot matter to UpdateActivity. */
  lemma SweepBeforeUpdateIff(s: Store, t: Token, idle: int, now: int)
    ensures Answers(s, [Sweep(now), UpdateActivity(t, now), Ask(t, now)], idle)
         == Answers(s, [UpdateActivity(t, now), Ask(t, now)], idle)
         <==> Proper(s, UpdateActivity(t, now), idle, true)
  {
    var swept := Swept(s, idle, now);
    AnswersAfterUpdate(s, t, idle, now);
    AnswersAfterUpdate(swept, t, idle, now);
    var short := [UpdateActivity(t, now), Ask(t, now)];
    assert [Sweep(now), UpdateActivity(t, now), Ask(t, now)] == [Sweep(now)] + short;
    AnswersCons(s, Sweep(now), short, idle);
    assert [] + Answers(swept, short, idle) == Answers(swept, short, idle);
    RevivedIff(s, t, idle, now);
    hide *;
    assert [IsValid(Refreshed(s, t, now), t, idle, now)][0] == IsValid(Refreshed(s, t, now), t, idle, now);
  }

  lemma AnswersCons(s: Store, op: Op, rest: seq<Op>, idle: int)
    ensures Answers(s, [op] + rest, idle)
         == (if op.Ask? then [IsValid(s, op.t, idle, op.now)] else []) + Answers(Step(s, op, idle), rest, idle)
  {
    assert ([op] + rest)[1..] == rest;
  }

  lemma AnswersAfterUpdate(s: Store, t: Token, idle: int, now: int)
    ensures Answers(s, [UpdateActivity(t, now), Ask(t, now)], idle) == [IsValid(Refreshed(s, t, now), t, idle, now)]
  {
    hide IsValid, Refreshed;
    assert [UpdateActivity(t, now), Ask(t, now)] == [UpdateActivity(t, now)] + ([Ask(t, now)] + []);
    AnswersCons(s, UpdateActivity(t, now), [Ask(t, now)] + [], idle);
    AnswersCons(Refreshed(s, t, now), Ask(t, now), [], idle);
  }

  lemma RevivedIff(s: Store, t: Token, idle: int, now: int)
    ensures IsValid(Refreshed(Swept(s, idle, now), t, now), t, idle, now) == IsValid(Refreshed(s, t, now), t, idle, now)
       <==> Proper(s, UpdateActivity(t, now), idle, true)
  {
  }

  /** No later run can tell the two stores apart, with sweeps in the first one or without. */
  ghost predicate Unseen(part: Store, full: Store, idle: int, now: int, ids: bool) {
    forall ops :: Timed(ops, now) && ProperRun(full, Unswept(ops), idle, ids) ==>
      Answers(part, ops, idle) == Answers(full, Unswept(ops), idle)
  }

  /**
   A sweep just before ReplaceSession can be seen by no later run if and only if the row
   is absent, another user's, or alive, or the two types agree; and, where sessions may
   still be removed by id, the ids agree too.
   */
  lemma SweepBeforeReplaceIff(s: Store, presented: Token, r: Record, idle: int, now: int, ids: bool)
    ensures Unseen(Step(Swept(s, idle, now), Replace(presented, r, now), idle), Step(s, Replace(presented, r, now), idle),
                   idle, now, ids)
       <==> (DeadOwn(s, presented, r, idle, now) ==>
               AgreeTypes(idle, s[presented].clientType, r.clientType) && (ids ==> s[presented].id == r.id))
  {
    var replace := Replace(presented, r, now);
    var part, full := Step(Swept(s, idle, now), replace, idle), Step(s, replace, idle);
    if !DeadOwn(s, presented, r, idle, now)
       || (AgreeTypes(idle, s[presented].clientType, r.clientType) && (ids ==> s[presented].id == r.id))
    {
      assert Covers(Swept(s, idle, now), s, idle, now, true);
      StepKeepsCovers(Swept(s, idle, now), s, replace, idle, true);
      assert Covers(part, full, idle, now, ids);
      hide Covers, Step, ProperRun, Answers, Unswept, Timed;
      forall ops | Timed(ops, now) && ProperRun(full, Unswept(ops), idle, ids)
        ensures Answers(part, ops, idle) == Answers(full, Unswept(ops), idle)
      {
        SweptRunAnswersAlike(part, full, ops, idle, now, ids);
      }
    } else {
      RowsDiffer(s, presented, r, idle, now);
      TellApart(part, full, r.token, idle, now, ids);
    }
  }

  lemma RowsDiffer(s: Store, presented: Token, r: Record, idle: int, now: int)
    requires DeadOwn(s, presented, r, idle, now)
    ensures var replace := Replace(presented, r, now);
            var part, full := Step(Swept(s, idle, now), replace, idle), Step(s, replace, idle);
            && r.token in part && part[r.token] == r.(loginAt := now)
            && r.token in full && full[r.token] == s[presented].(token := r.token, loginAt := now, expiresAt := r.expiresAt)
  {
  }

  /** The row of `t` once more replaced by one that lives until `until`, type and id kept in `full`. */
  function Renewal(full: Store, t: Token, now: int, until: int): Op
    requires t in full
  {
    Replace(t, full[t].(expiresAt := until, token := t), now)
  }

  /** Two rows of one user whose types or ids differ are told apart by a run of three steps. */
  lemma TellApart(part: Store, full: Store, t: Token, idle: int, now: int, ids: bool)
    requires t in part && t in full && part[t].user == full[t].user
    requires !AgreeTypes(idle, full[t].clientType, part[t].clientType) || (ids && full[t].id != part[t].id)
    ensures !Unseen(part, full, idle, now, ids)
  {
    var user := full[t].user;
    if (full[t].clientType == MOBILE) != (part[t].clientType == MOBILE) {
      DistinguishedBy(part, full, t, idle, now, now + 1, RemoveMobile(user, now), now, ids);
    } else if !AgreeTypes(idle, full[t].clientType, part[t].clientType) {
      DistinguishedBy(part, full, t, idle, now, now + idle + 1, Ask(t, now + idle + 1), now + idle + 1, ids);
    } else {
      DistinguishedBy(part, full, t, idle, now, now + 1, RemoveById(user, full[t].id, t, now), now, ids);
    }
  }

  lemma DistinguishedBy(part: Store, full: Store, t: Token, idle: int, now: int, until: int, op: Op, at: int, ids: bool)
    requires t in part && t in full && part[t].user == full[t].user && now <= op.now <= at
    requires var renewal := Renewal(full, t, now, until);
             var p, f := Step(part, renewal, idle), Step(full, renewal, idle);
             && Proper(f, op, idle, ids) && !op.Sweep? && !op.Replace?
             && IsValid(Step(p, op, idle), t, idle, at) != IsValid(Step(f, op, idle), t, idle, at)
             && (op.Ask? ==> op == Ask(t, at))
    ensures !Unseen(part, full, idle, now, ids)
  {
    var renewal, ask := Renewal(full, t, now, until), Ask(t, at);
    var ops := [renewal, op, ask];
    assert Unswept(ops) == ops by {
      FilterAll(ops, (op: Op) => !op.Sweep?);
    }
    ThreeSteps(full, renewal, op, ask, idle, now, ids);
    ThreeAnswers(part, renewal, op, t, at, idle);
    ThreeAnswers(full, renewal, op, t, at, idle);
    hide Step, IsValid, ProperRun, Timed, Answers, Unswept;
    var n := if op.Ask? then 1 else 0;
    assert Answers(part, ops, idle)[n] != Answers(full, ops, idle)[n];
  }

  lemma ThreeSteps(s: Store, first: Op, second: Op, third: Op, idle: int, now: int, ids: bool)
    requires now <= first.now <= second.now <= third.now
    requires Proper(s, first, idle, ids) && KeepsIds(s, first, idle)
    requires Proper(Step(s, first, idle), second, idle, ids) && !second.Replace? && third.Ask?
    ensures Timed([first, second, third], now) && ProperRun(s, [first, second, third], idle, ids)
  {
    hide Step, KeepsIds;
    var last, two, three := [third], [second, third], [first, second, third];
    assert three[1..] == two && two[1..] == last && last[1..] == [];
    assert three[0] == first && two[0] == second && last[0] == third;
    assert Timed(last[1..], third.now);
    assert Timed(last, second.now);
    assert Timed(two, first.now);
    var s1 := Step(s, first, idle);
    var s2 := Step(s1, second, idle);
    assert Proper(s2, third, idle, ids && KeepsIds(s1, second, idle));
    assert ProperRun(Step(s2, third, idle), [], idle, ids && KeepsIds(s1, second, idle) && KeepsIds(s2, third, idle));
    assert ProperRun(s2, [third], idle, ids && KeepsIds(s1, second, idle));
    assert ProperRun(s1, [second, third], idle, ids);
  }

  lemma ThreeAnswers(s: Store, first: Op, second: Op, t: Token, at: int, idle: int)
    requires !first.Ask?
    ensures Answers(s, [first, second, Ask(t, at)], idle)
         == (if second.Ask? then [IsValid(Step(s, first, idle), second.t, idle, second.now)] else [])
            + [IsValid(Step(Step(s, first, idle), second, idle), t, idle, at)]
  {
    hide Step, IsValid;
    assert [first, second, Ask(t, at)] == [first] + ([second] + ([Ask(t, at)] + []));
    AnswersCons(s, first, [second] + ([Ask(t, at)] + []), idle);
    AnswersCons(Step(s, first, idle), second, [Ask(t, at)] + [], idle);
    AnswersCons(Step(Step(s, first, idle), second, idle), Ask(t, at), [], idle);
  }

  /** Every question from now on, nothing else happening, is answered alike. */
  ghost predicate SameAnswers(part: Store, full: Store, idle: int, now: int) {
    forall t, at :: now <= at ==> IsValid(part, t, idle, at) == IsValid(full, t, idle, at)
  }

  /**
   Questions alone show the sweep if and only if one of the types is exempt and the other
   is not, the timeout is on, and the new row outlives it.
   */
  lemma SweepBeforeReplaceAskedIff(s: Store, presented: Token, r: Record, idle: int, now: int)
    ensures SameAnswers(Step(Swept(s, idle, now), Replace(presented, r, now), idle), Step(s, Replace(presented, r, now), idle),
                        idle, now)
       <==> !(DeadOwn(s, presented, r, idle, now) && idle > 0 && r.expiresAt > now + idle
              && Exempt(s[presented].clientType) != Exempt(r.clientType))
  {
    var replace := Replace(presented, r, now);
    var part, full := Step(Swept(s, idle, now), replace, idle), Step(s, replace, idle);
    if DeadOwn(s, presented, r, idle, now) && idle > 0 && r.expiresAt > now + idle
       && Exempt(s[presented].clientType) != Exempt(r.clientType)
    {
      RowsDiffer(s, presented, r, idle, now);
      hide Step;
      assert IsValid(part, r.token, idle, now + idle + 1) != IsValid(full, r.token, idle, now + idle + 1);
    }
  }

  // ---- Which session is valid when ----

  /** The operation puts a session in place. */
  predicate IsSetUp(op: Op) {
    op.Create? || op.Replace?
  }

  /** It puts one under the token. */
  predicate SetsUp(op: Op, t: Token) {
    IsSetUp(op) && op.r.token == t
  }

  /** The operation takes away the session `r`, or moves it to another token. */
  predicate Goes(op: Op, r: Record, idle: int) {
    match op
    case Remove(t, _) => t == r.token
    case RemoveUser(user, _) => user == r.user
    case RemoveMobile(user, _) => user == r.user && r.clientType == "mobile"
    case RemoveOthers(user, keep, _) => user == r.user && r.token !in keep
    case RemoveById(user, id, pick, _) => pick == r.token && id == r.id && user == r.user
    case Replace(presented, put, _) => presented == r.token && put.user == r.user
    case Sweep(now) =>
      || r.expiresAt < now
      || (idle > 0 && r.clientType != "mobile" && r.clientType != "mobile-direct" && now - r.loginAt > idle)
    case _ => false
  }

  /** What the operation makes of a session it leaves: its last activity, and for a mobile one its expiry. */
  function Going(op: Op, r: Record): Record {
    if op.TouchMobile? && op.user == r.user && r.clientType == "mobile" && r.expiresAt > op.now
    then r.(loginAt := op.now, expiresAt := if op.now + op.ttl > r.expiresAt then op.now + op.ttl else r.expiresAt)
    else if op.UpdateActivity? && op.t == r.token then r.(loginAt := op.now)
    else r
  }

  /**
   The session that step `k` put in place, as it stands after the first `n` steps.  One
   that replaced a session of the same user keeps that one's id, client type and device.
   */
  function SessionAt(ops: seq<Op>, n: nat, k: nat, idle: int): (r: Record)
    requires k < n <= |ops| && IsSetUp(ops[k])
    ensures r.token == ops[k].r.token && r.user == ops[k].r.user
    decreases n, 1
  {
    var op := ops[n - 1];
    if n > k + 1 then Going(op, SessionAt(ops, n - 1, k, idle))
    else if op.Create? || Current(ops, k, op.presented, idle).None? then op.r.(loginAt := op.now)
    else
      var was := SessionAt(ops, k, Current(ops, k, op.presented, idle).value, idle);
      if was.user == op.r.user then was.(token := op.r.token, loginAt := op.now, expiresAt := op.r.expiresAt)
      else op.r.(loginAt := op.now)
  }

  /** The step that put the session in place that is under the token after the first `n` steps. */
  function Current(ops: seq<Op>, n: nat, t: Token, idle: int): (k: Option<nat>)
    requires n <= |ops|
    ensures k.Some? ==> k.value < n && SetsUp(ops[k.value], t)
    decreases n, 0
  {
    if n == 0 then None
    else if SetsUp(ops[n - 1], t) then Some(n - 1)
    else
      match Current(ops, n - 1, t, idle)
      case None => None
      case Some(k) => if Goes(ops[n - 1], SessionAt(ops, n - 1, k, idle), idle) then None else Some(k)
  }

  lemma {:induction false} RunSnoc(s: Store, ops: seq<Op>, op: Op, idle: int)
    ensures Run(s, ops + [op], idle) == Step(Run(s, ops, idle), op, idle)
    decreases |ops|
  {
    hide Step;
    if ops == [] {
      assert [] + [op] == [op] && [op][1..] == [];
    } else {
      assert (ops + [op])[1..] == ops[1..] + [op];
      RunSnoc(Step(s, ops[0], idle), ops[1..], op, idle);
    }
  }

  /** The store after `n` steps is what the steps say, token by token. */
  ghost predicate ToldAt(ops: seq<Op>, n: nat, idle: int, s: Store, t: Token)
    requires n <= |ops|
  {
    match Current(ops, n, t, idle)
    case None => t !in s
    case Some(k) => t in s && s[t] == SessionAt(ops, n, k, idle)
  }

  /** What a step makes of the row under a token it puts nothing under. */
  lemma OldRows(s: Store, op: Op, idle: int, t: Token)
    requires !SetsUp(op, t)
    ensures t !in s ==> t !in Step(s, op, idle)
    ensures t in s && s[t].token == t ==>
              && (Goes(op, s[t], idle) <==> t !in Step(s, op, idle))
              && (!Goes(op, s[t], idle) ==> Step(s, op, idle)[t] == Going(op, s[t]))
  {
  }

  lemma NewRow(s: Store, op: Op, idle: int)
    requires IsSetUp(op)
    ensures op.r.token in Step(s, op, idle)
    ensures Step(s, op, idle)[op.r.token]
         == if op.Replace? && op.presented in s && s[op.presented].user == op.r.user
            then s[op.presented].(token := op.r.token, loginAt := op.now, expiresAt := op.r.expiresAt)
            else op.r.(loginAt := op.now)
  {
  }

  lemma OneStepMore(ops: seq<Op>, n: nat, idle: int, s: Store, t: Token)
    requires n < |ops| && ToldAt(ops, n, idle, s, t)
    requires ops[n].Replace? ==> ToldAt(ops, n, idle, s, ops[n].presented)
    ensures ToldAt(ops, n + 1, idle, Step(s, ops[n], idle), t)
  {
    hide Step, Goes, Going;
    if SetsUp(ops[n], t) {
      NewRow(s, ops[n], idle);
    } else {
      OldRows(s, ops[n], idle, t);
    }
  }

  lemma {:induction false} RunIsTold(ops: seq<Op>, n: nat, idle: int)
    requires n <= |ops|
    ensures forall t :: ToldAt(ops, n, idle, Run(map[], ops[..n], idle), t)
  {
    hide Step, SessionAt, Goes;
    if n > 0 {
      var s := Run(map[], ops[..n - 1], idle);
      RunIsTold(ops, n - 1, idle);
      assert ops[..n] == ops[..n - 1] + [ops[n - 1]];
      RunSnoc(map[], ops[..n - 1], ops[n - 1], idle);
      hide ToldAt, Run;
      var after := Step(s, ops[n - 1], idle);
      forall t ensures ToldAt(ops, n, idle, after, t) {
        assert ToldAt(ops, n - 1, idle, s, t);
        OneStepMore(ops, n - 1, idle, s, t);
      }
    }
  }

  /** Step `k` put a session under the token, and no later one put another there or took it away. */
  ghost predicate OpenSince(ops: seq<Op>, k: nat, t: Token, idle: int, n: nat)
    requires n <= |ops|
  {
    && k < n && SetsUp(ops[k], t)
    && forall j :: k < j < n ==> !SetsUp(ops[j], t) && !Goes(ops[j], SessionAt(ops, j, k, idle), idle)
  }

  lemma {:induction false} CurrentIsOpen(ops: seq<Op>, n: nat, k: nat, t: Token, idle: int)
    requires n <= |ops|
    ensures Current(ops, n, t, idle) == Some(k) <==> OpenSince(ops, k, t, idle, n)
  {
    hide Goes, SessionAt;
    if n > 0 {
      CurrentIsOpen(ops, n - 1, k, t, idle);
    }
  }

  /**
   Over every run: a session is valid if and only if its token was signed in or put in
   place, and not removed, moved or swept since, it has not expired, and it is a mobile
   one, or the idle timeout is off, or it was last active no longer ago than the timeout.
   */
  lemma ValidIff(ops: seq<Op>, t: Token, idle: int, now: int)
    ensures IsValid(Run(map[], ops, idle), t, idle, now) <==>
              exists k: nat :: OpenSince(ops, k, t, idle, |ops|)
                && (var r := SessionAt(ops, |ops|, k, idle);
                    && now <= r.expiresAt
                    && (r.clientType == "mobile" || r.clientType == "mobile-direct" || idle <= 0 || now - r.loginAt <= idle))
  {
    RunIsTold(ops, |ops|, idle);
    assert ops[..|ops|] == ops;
    var s := Run(map[], ops, idle);
    assert ToldAt(ops, |ops|, idle, s, t);
    forall k: nat ensures Current(ops, |ops|, t, idle) == Some(k) <==> OpenSince(ops, k, t, idle, |ops|) {
      CurrentIsOpen(ops, |ops|, k, t, idle);
    }
    hide Run, Current, OpenSince, SessionAt;
  }

  // ---- The service ----

  /** A session object, edited in place. */
  class Session {
    var r: Record

    constructor (r: Record)
      ensures this.r == r
    {
      this.r := r;
    }
  }

  class SessionService {
    var sessions: map<Token, Session>
    const idle: int
    ghost var objects: set<Session>

    constructor (idle: int)
      ensures Valid() && View() == map[] && this.idle == idle
    {
      sessions, objects := map[], {};
      this.idle := idle;
    }

    /** No session object sits under two tokens, and each knows the token it sits under. */
    ghost predicate Valid()
      reads this, objects
    {
      Separate() && TokenIsKey(View())
    }

    ghost predicate Separate()
      reads this
    {
      && (forall t :: t in sessions ==> sessions[t] in objects)
      && (forall t, u :: t in sessions && u in sessions && t != u ==> sessions[t] != sessions[u])
    }

    ghost function View(): Store
      requires Separate()
      reads this, objects
    {
      map t | t in sessions :: sessions[t].r
    }

    method CreateSession(r: Record, now: int)
      requires Valid()
      modifies this
      ensures Valid() && View() == Step(old(View()), Create(r, now), idle)
      ensures fresh(objects - old(objects))
    {
      StepKeepsTokens(View(), Create(r, now), idle);
      hide TokenIsKey;
      var session := new Session(r.(loginAt := now));
      sessions := sessions[r.token := session];
      objects := objects + {session};
      assert View() == Step(old(View()), Create(r, now), idle);
    }

    method UpdateActivity(t: Token, now: int) returns (found: bool)
      requires Valid()
      modifies objects
      ensures Valid() && View() == Step(old(View()), Op.UpdateActivity(t, now), idle)
      ensures found == (t in old(View()))
    {
      StepKeepsTokens(View(), Op.UpdateActivity(t, now), idle);
      hide TokenIsKey;
      found := t in sessions;
      if found {
        sessions[t].r := sessions[t].r.(loginAt := now);
      }
      assert View() == Step(old(View()), Op.UpdateActivity(t, now), idle);
    }

    /** The old object moves to its new token. */
    method EditInPlace(presented: Token, r: Record, now: int)
      requires Separate() && presented in sessions
      modifies this`sessions, sessions[presented]
      ensures Separate()
      ensures View() == (old(View()) - {presented})
                        [r.token := old(View())[presented].(token := r.token, loginAt := now, expiresAt := r.expiresAt)]
    {
      var session := sessions[presented];
      sessions := sessions - {presented};
      session.r := session.r.(token := r.token, loginAt := now, expiresAt := r.expiresAt);
      sessions := sessions[r.token := session];
    }

    method ReplaceSession(presented: Token, r: Record, now: int)
      requires Valid()
      modifies this, objects
      ensures Valid() && View() == Step(old(View()), Replace(presented, r, now), idle)
      ensures fresh(objects - old(objects))
    {
      StepKeepsTokens(View(), Replace(presented, r, now), idle);
      hide TokenIsKey;
      if presented in sessions && sessions[presented].r.user == r.user {
        EditInPlace(presented, r, now);
      } else {
        CreateSession(r, now);
      }
    }

    method TouchMobileSessions(user: int, ttl: int, now: int)
      requires Valid()
      modifies objects
      ensures Valid() && View() == Step(old(View()), TouchMobile(user, ttl, now), idle)
    {
      StepKeepsTokens(View(), TouchMobile(user, ttl, now), idle);
      hide TokenIsKey;
      var todo := sessions.Keys;
      while todo != {}
        invariant todo <= sessions.Keys
        invariant forall t :: t in todo ==> sessions[t].r == old(sessions[t].r)
        invariant forall t :: t in sessions && t !in todo ==>
                    sessions[t].r == TouchedIf(old(sessions[t].r), user, now, ttl)
        decreases |todo|
      {
        var t :| t in todo;
        todo := todo - {t};
        var session := sessions[t];
        if session.r.user != user || session.r.clientType != MOBILE || !(session.r.expiresAt > now) {
          continue;
        }
        session.r := session.r.(loginAt := now);
        if now + ttl > session.r.expiresAt {
          session.r := session.r.(expiresAt := now + ttl);
        }
      }
      assert View() == Step(old(View()), TouchMobile(user, ttl, now), idle);
    }

    method CleanupExpiredSessions(now: int)
      requires Valid()
      modifies this`sessions
      ensures Valid() && View() == Step(old(View()), Sweep(now), idle)
    {
      StepKeepsTokens(View(), Sweep(now), idle);
      hide TokenIsKey;
      var cutoff := now - idle;
      var todo := sessions.Keys;
      while todo != {}
        invariant todo <= sessions.Keys <= old(sessions).Keys
        invariant forall t :: t in sessions ==> sessions[t] == old(sessions)[t]
        invariant forall t :: t in old(sessions) ==>
                    (t in sessions <==> t in todo || Live(old(sessions)[t].r, idle, now))
        decreases |todo|
      {
        var t :| t in todo;
        todo := todo - {t};
        var session := sessions[t];
        if session.r.expiresAt < now {
          sessions := sessions - {t};
        } else if idle > 0 && session.r.clientType != MOBILE && session.r.clientType != MOBILE_DIRECT
                  && session.r.loginAt < cutoff {
          sessions := sessions - {t};
        }
      }
      assert View() == Step(old(View()), Sweep(now), idle);
    }

    method RemoveOtherSessionsFilter(user: int, keep: set<Token>, now: int)
      requires Valid()
      modifies this`sessions
      ensures Valid() && View() == Step(old(View()), RemoveOthers(user, keep, now), idle)
    {
      StepKeepsTokens(View(), RemoveOthers(user, keep, now), idle);
      hide TokenIsKey;
      var todo := sessions.Keys;
      while todo != {}
        invariant todo <= sessions.Keys <= old(sessions).Keys
        invariant forall t :: t in sessions ==> sessions[t] == old(sessions)[t]
        invariant forall t :: t in old(sessions) ==>
                    (t in sessions <==> t in todo || old(sessions)[t].r.user != user || t in keep)
        decreases |todo|
      {
        var t :| t in todo;
        todo := todo - {t};
        if sessions[t].r.user != user || t in keep {
          continue;
        }
        sessions := sessions - {t};
      }
      assert View() == Step(old(View()), RemoveOthers(user, keep, now), idle);
    }

    method IsSessionValid(t: Token, now: int) returns (valid: bool)
      requires Separate()
      ensures valid == IsValid(View(), t, idle, now)
    {
      if t !in sessions {
        return false;
      }
      var session := sessions[t];
      if session.r.expiresAt < now {
        return false;
      }
      if session.r.clientType != MOBILE && session.r.clientType != MOBILE_DIRECT {
        if idle > 0 && session.r.loginAt < now - idle {
          return false;
        }
      }
      valid := true;
    }
  }
}
