/**
 Refresh-token rotation (internal/domain/auth/refresh.go).

 A table row is keyed by its token hash, which the schema declares UNIQUE; tokens
 and their hashes are identified.  Every operation is one atomic transaction: it
 either commits (`commits`, `Commits`) or leaves the table as it was.

 `World` adds to the table the history no query reads: for every family the hashes
 it ever issued, in order.  The invariant says that the table is always a piece of
 that history, which is what the theorems about whole runs rest on.
 */
module RefreshTokens {
  import opened Common

  type Hash = string
  type Family = string

  // Seconds.
  const REFRESH_TTL: int := 90 * 24 * 3600
  const RETENTION: int := 7 * 24 * 3600

  datatype Row = Row(family: Family, user: int, device: string, expires: int,
                     rotatedFrom: Option<Hash>, rotatedAt: Option<int>, revokedAt: Option<int>)

  type Table = map<Hash, Row>

  /** How the database takes a rotation: a statement fails, only the commit does, or all is well. */
  datatype Db = StatementFails | CommitFails | Commits

  datatype Result =
    | Pair(token: Hash, expires: int)
    | Unknown
    | Expired
    | WrongDevice
    | Reused
    | Failed
    | Done

  // ---- The operations, as functions on the table ----

  function AfterIssue(rows: Table, user: int, device: string, hash: Hash, family: Family, now: int): Table {
    rows[hash := Row(family, user, device, now + REFRESH_TTL, None, None, None)]
  }

  /** What Rotate answers; only `Pair` and `Reused` come with a change of the table. */
  function Verdict(rows: Table, presented: Hash, device: string, drawn: Hash, now: int): Result {
    if presented !in rows then Unknown
    else
      var row := rows[presented];
      if row.revokedAt.Some? || now > row.expires then Expired
      else if device != "" && row.device != device then WrongDevice
      else if row.rotatedAt.Some? then Reused
      else Pair(drawn, now + REFRESH_TTL)
  }

  function Revoked(rows: Table, family: Family, now: int): Table {
    map h | h in rows ::
      if rows[h].family == family then rows[h].(revokedAt := Some(now)) else rows[h]
  }

  function Rotated(rows: Table, presented: Hash, drawn: Hash, now: int): Table
    requires presented in rows
  {
    var row := rows[presented];
    rows[presented := row.(rotatedAt := Some(now))]
        [drawn := Row(row.family, row.user, row.device, now + REFRESH_TTL, Some(presented), None, None)]
  }

  function AfterRotate(rows: Table, presented: Hash, device: string, drawn: Hash, now: int): Table {
    match Verdict(rows, presented, device, drawn, now)
    case Reused => Revoked(rows, rows[presented].family, now)
    case Pair(_, _) => Rotated(rows, presented, drawn, now)
    case _ => rows
  }

  predicate Targets(device: string, user: int, row: Row) {
    row.user == user && (device == "" || row.device == device) && row.revokedAt.None?
  }

  function AfterRevoke(rows: Table, user: int, device: string, now: int): Table {
    map h | h in rows ::
      if Targets(device, user, rows[h]) then rows[h].(revokedAt := Some(now)) else rows[h]
  }

  predicate Stale(row: Row, now: int) {
    || row.expires < now - RETENTION
    || (row.revokedAt.Some? && row.revokedAt.value < now - RETENTION)
  }

  function AfterCleanup(rows: Table, now: int): Table {
    map h | h in rows && !Stale(rows[h], now) :: rows[h]
  }

  // ---- The service object ----

  /** The service over its one table; `commits` is the database's answer to the transaction. */
  class RefreshService {
    var rows: Table

    constructor ()
      ensures rows == map[]
    {
      rows := map[];
    }

    method Issue(user: int, device: string, hash: Hash, family: Family, now: int, commits: bool) returns (r: Result)
      modifies this
      ensures rows == if commits then AfterIssue(old(rows), user, device, hash, family, now) else old(rows)
      ensures r == if commits then Pair(hash, now + REFRESH_TTL) else Failed
    {
      if !commits {
        return Failed;
      }
      rows := rows[hash := Row(family, user, device, now + REFRESH_TTL, None, None, None)];
      r := Pair(hash, now + REFRESH_TTL);
    }

    /** A failed commit turns a new pair into an error, but goes unnoticed when reuse is reported. */
    method Rotate(presented: Hash, device: string, drawn: Hash, now: int, db: Db) returns (r: Result)
      modifies this
      ensures rows == if db.Commits? then AfterRotate(old(rows), presented, device, drawn, now) else old(rows)
      ensures var verdict := Verdict(old(rows), presented, device, drawn, now);
              r == if db.StatementFails? || (db.CommitFails? && verdict.Pair?) then Failed else verdict
    {
      if db.StatementFails? {
        return Failed;
      }
      if presented !in rows {
        return Unknown;
      }
      var row := rows[presented];
      if row.revokedAt.Some? || now > row.expires {
        return Expired;
      }
      if device != "" && row.device != device {
        return WrongDevice;
      }
      if row.rotatedAt.Some? {
        if db.Commits? {
          rows := map h | h in rows ::
            if rows[h].family == row.family then rows[h].(revokedAt := Some(now)) else rows[h];
        }
        return Reused;
      }
      if db.CommitFails? {
        return Failed;
      }
      rows := rows[presented := row.(rotatedAt := Some(now))];
      rows := rows[drawn := Row(row.family, row.user, row.device, now + REFRESH_TTL, Some(presented), None, None)];
      r := Pair(drawn, now + REFRESH_TTL);
    }

    method RevokeFamily(user: int, device: string, now: int, commits: bool)
      modifies this
      ensures rows == if commits then AfterRevoke(old(rows), user, device, now) else old(rows)
    {
      if !commits {
        return;
      }
      if device != "" {
        rows := map h | h in rows ::
          if rows[h].user == user && rows[h].device == device && rows[h].revokedAt.None?
          then rows[h].(revokedAt := Some(now)) else rows[h];
      } else {
        rows := map h | h in rows ::
          if rows[h].user == user && rows[h].revokedAt.None?
          then rows[h].(revokedAt := Some(now)) else rows[h];
      }
    }

    method CleanupExpired(now: int, commits: bool)
      modifies this
      ensures rows == if commits then AfterCleanup(old(rows), now) else old(rows)
    {
      if commits {
        rows := map h | h in rows && !Stale(rows[h], now) :: rows[h];
      }
    }
  }

  // ---- Runs ----

  datatype Op =
    | IssueOp(user: int, device: string, hash: Hash, family: Family, now: int, commits: bool)
    | RotateOp(presented: Hash, device: string, drawn: Hash, now: int, db: Db)
    | RevokeOp(user: int, device: string, now: int, commits: bool)
    | CleanupOp(now: int, commits: bool)

  /** The operation's transaction took effect. */
  predicate Committed(op: Op) {
    if op.RotateOp? then op.db.Commits? else op.commits
  }

  /** The history of one family: the hashes it issued, its owner, and when it was revoked. */
  datatype Chain = Chain(hashes: seq<Hash>, user: int, device: string, revokedAt: Option<int>)

  datatype World = World(rows: Table, chains: map<Family, Chain>)

  const EmptyWorld := World(map[], map[])

  function Answer(w: World, op: Op): Result {
    match op
    case IssueOp(_, _, hash, _, now, commits) => if commits then Pair(hash, now + REFRESH_TTL) else Failed
    case RotateOp(presented, device, drawn, now, db) =>
      var verdict := Verdict(w.rows, presented, device, drawn, now);
      if db.StatementFails? || (db.CommitFails? && verdict.Pair?) then Failed else verdict
    case RevokeOp(_, _, _, commits) => if commits then Done else Failed
    case CleanupOp(_, commits) => if commits then Done else Failed
  }

  function RowsAfter(w: World, op: Op): Table {
    if !Committed(op) then w.rows
    else match op
      case IssueOp(user, device, hash, family, now, _) => AfterIssue(w.rows, user, device, hash, family, now)
      case RotateOp(presented, device, drawn, now, _) => AfterRotate(w.rows, presented, device, drawn, now)
      case RevokeOp(user, device, now, _) => AfterRevoke(w.rows, user, device, now)
      case CleanupOp(now, _) => AfterCleanup(w.rows, now)
  }

  ghost function ChainsAfter(w: World, op: Op): map<Family, Chain> {
    var a := Answer(w, op);
    match op
    case IssueOp(user, device, hash, family, _, _) =>
      if a.Pair? then w.chains[family := Chain([hash], user, device, None)] else w.chains
    case RotateOp(presented, _, drawn, now, _) =>
      if !a.Pair? && !(a.Reused? && Committed(op)) then w.chains
      else
        var family := w.rows[presented].family;
        if family !in w.chains then w.chains
        else
          var chain := w.chains[family];
          w.chains[family := if a.Pair? then chain.(hashes := chain.hashes + [drawn])
                             else chain.(revokedAt := Some(now))]
    case RevokeOp(user, device, now, commits) =>
      if !commits then w.chains
      else map f | f in w.chains ::
             var chain := w.chains[f];
             if chain.user == user && (device == "" || chain.device == device) && chain.revokedAt.None?
             then chain.(revokedAt := Some(now)) else chain
    case CleanupOp(_, _) => w.chains
  }

  ghost function Step(w: World, op: Op): World {
    World(RowsAfter(w, op), ChainsAfter(w, op))
  }

  ghost predicate Ever(w: World, h: Hash) {
    exists f :: f in w.chains && h in w.chains[f].hashes
  }

  /** The random values an operation draws have not been drawn before. */
  ghost predicate Fresh(w: World, op: Op) {
    match op
    case IssueOp(_, _, hash, family, _, _) => !Ever(w, hash) && family !in w.chains
    case RotateOp(_, _, drawn, _, _) => !Ever(w, drawn)
    case _ => true
  }

  ghost function Exec(w: World, ops: seq<Op>): World
    decreases |ops|
  {
    if ops == [] then w else Exec(Step(w, ops[0]), ops[1..])
  }

  ghost predicate FreshRun(w: World, ops: seq<Op>)
    decreases |ops|
  {
    ops == [] || (Fresh(w, ops[0]) && FreshRun(Step(w, ops[0]), ops[1..]))
  }

  /** The row of the i-th hash of a family says exactly what the family's history says. */
  ghost predicate Matches(w: World, f: Family, i: nat)
    requires f in w.chains && i < |w.chains[f].hashes| && w.chains[f].hashes[i] in w.rows
  {
    var chain := w.chains[f];
    var row := w.rows[chain.hashes[i]];
    && row.family == f && row.user == chain.user && row.device == chain.device
    && row.revokedAt == chain.revokedAt
    && row.rotatedFrom == (if i == 0 then None else Some(chain.hashes[i - 1]))
    && (row.rotatedAt.Some? <==> i + 1 < |chain.hashes|)
  }

  ghost predicate Matching(w: World) {
    forall f, i: nat {:trigger w.chains[f].hashes[i]} ::
      f in w.chains && i < |w.chains[f].hashes| && w.chains[f].hashes[i] in w.rows ==> Matches(w, f, i)
  }

  ghost predicate Covered(w: World) {
    forall h :: h in w.rows ==> w.rows[h].family in w.chains && h in w.chains[w.rows[h].family].hashes
  }

  ghost predicate Distinct(chains: map<Family, Chain>) {
    forall f, g, i: nat, j: nat {:trigger chains[f].hashes[i], chains[g].hashes[j]} ::
      (f in chains && g in chains && i < |chains[f].hashes| && j < |chains[g].hashes|
       && chains[f].hashes[i] == chains[g].hashes[j]) ==> f == g && i == j
  }

  ghost predicate Inv(w: World) {
    Matching(w) && Covered(w) && Distinct(w.chains)
  }

  lemma IssueKeepsInv(w: World, op: Op)
    requires Inv(w) && Fresh(w, op) && op.IssueOp? && Committed(op)
    ensures Inv(Step(w, op))
  {
    var v := Step(w, op);
    assert v.chains[op.family].hashes == [op.hash];
    forall f, i: nat | f in v.chains && i < |v.chains[f].hashes| && v.chains[f].hashes[i] in v.rows
      ensures Matches(v, f, i)
    {
      if f != op.family {
        assert v.chains[f] == w.chains[f];
        assert w.chains[f].hashes[i] in w.rows;
      }
    }
  }

  lemma RotateKeepsDistinct(w: World, op: Op)
    requires Inv(w) && Fresh(w, op) && op.RotateOp? && Answer(w, op).Pair?
    ensures Distinct(Step(w, op).chains)
  {
    var chains := Step(w, op).chains;
    forall f, g, i: nat, j: nat | f in chains && g in chains && i < |chains[f].hashes|
      && j < |chains[g].hashes| && chains[f].hashes[i] == chains[g].hashes[j]
      ensures f == g && i == j
    {
      assert i < |w.chains[f].hashes| ==> chains[f].hashes[i] == w.chains[f].hashes[i];
      assert j < |w.chains[g].hashes| ==> chains[g].hashes[j] == w.chains[g].hashes[j];
    }
  }

  /** What a granted rotation comes to. */
  lemma RotatedWorld(w: World, op: Op)
    requires Inv(w) && Fresh(w, op) && op.RotateOp? && Answer(w, op).Pair?
    ensures op.presented in w.rows && w.rows[op.presented].rotatedAt.None?
    ensures var f := w.rows[op.presented].family;
            && f in w.chains
            && Step(w, op) == World(Rotated(w.rows, op.presented, op.drawn, op.now),
                                    w.chains[f := w.chains[f].(hashes := w.chains[f].hashes + [op.drawn])])
  {
    hide Matching, Distinct, Rotated;
  }

  /** An unrotated hash is the last one of its chain, and in no other. */
  lemma UnrotatedIsLast(w: World, h: Hash, f: Family, i: nat)
    requires Inv(w) && h in w.rows && w.rows[h].rotatedAt.None?
    requires f in w.chains && i < |w.chains[f].hashes|
    ensures w.rows[h].family in w.chains && w.chains[w.rows[h].family].hashes != []
    ensures var hashes := w.chains[w.rows[h].family].hashes; hashes[|hashes| - 1] == h
    ensures w.chains[f].hashes[i] == h ==> f == w.rows[h].family && i == |w.chains[f].hashes| - 1
  {
    var g := w.rows[h].family;
    var k :| 0 <= k < |w.chains[g].hashes| && w.chains[g].hashes[k] == h;
    assert Matches(w, g, k);
  }

  /** A row of before, in the world after: only the presented one changes, and its chain grows. */
  lemma OldRowMatches(w: World, v: World, op: Op, f: Family, i: nat)
    requires Inv(w) && op.RotateOp? && !Ever(w, op.drawn) && op.presented in w.rows && w.rows[op.presented].rotatedAt.None?
    requires f in w.chains && i < |w.chains[f].hashes| && w.chains[f].hashes[i] in w.rows
    requires v.rows == Rotated(w.rows, op.presented, op.drawn, op.now) && f in v.chains
    requires v.chains[f] == if f == w.rows[op.presented].family
                            then w.chains[f].(hashes := w.chains[f].hashes + [op.drawn]) else w.chains[f]
    ensures w.chains[f].hashes[i] in v.rows && Matches(v, f, i)
  {
    UnrotatedIsLast(w, op.presented, f, i);
    assert Matches(w, f, i);
    assert w.chains[f].hashes[i] != op.drawn;
    hide Inv, Ever;
    assert v.chains[f].hashes[i] == w.chains[f].hashes[i];
    assert i > 0 ==> v.chains[f].hashes[i - 1] == w.chains[f].hashes[i - 1];
  }

  /** The presented hash is the last one of its chain; the drawn one goes behind it. */
  lemma RotateKeepsMatching(w: World, op: Op, f: Family, i: nat)
    requires Inv(w) && Fresh(w, op) && op.RotateOp? && Answer(w, op).Pair?
    requires var v := Step(w, op);
             f in v.chains && i < |v.chains[f].hashes| && v.chains[f].hashes[i] in v.rows
    ensures Matches(Step(w, op), f, i)
  {
    var v := Step(w, op);
    RotatedWorld(w, op);
    assert f in w.chains && !Ever(w, op.drawn);
    hide Answer, Step, RowsAfter, ChainsAfter, Inv, Fresh;
    if i < |w.chains[f].hashes| {
      assert v.chains[f].hashes[i] == w.chains[f].hashes[i];
      OldHashIsOldRow(w, op, f, i);
      OldRowMatches(w, v, op, f, i);
    } else if 0 < |w.chains[f].hashes| {
      UnrotatedIsLast(w, op.presented, f, 0);
    }
  }

  lemma OldHashIsOldRow(w: World, op: Op, f: Family, i: nat)
    requires op.RotateOp? && op.presented in w.rows && !Ever(w, op.drawn)
    requires f in w.chains && i < |w.chains[f].hashes|
    requires w.chains[f].hashes[i] in Rotated(w.rows, op.presented, op.drawn, op.now)
    ensures w.chains[f].hashes[i] in w.rows
  {
    assert w.chains[f].hashes[i] != op.drawn;
  }

  lemma RotateKeepsInv(w: World, op: Op)
    requires Inv(w) && Fresh(w, op) && op.RotateOp? && Answer(w, op).Pair?
    ensures Inv(Step(w, op))
  {
    hide Distinct, Matches;
    RotateKeepsDistinct(w, op);
    var v := Step(w, op);
    forall f, i: nat | f in v.chains && i < |v.chains[f].hashes| && v.chains[f].hashes[i] in v.rows
      ensures Matches(v, f, i)
    {
      RotateKeepsMatching(w, op, f, i);
    }
  }

  lemma RowAgreesWithChain(w: World, h: Hash)
    requires Matching(w) && Covered(w) && h in w.rows
    ensures var row := w.rows[h];
            var chain := w.chains[row.family];
            row.user == chain.user && row.device == chain.device && row.revokedAt == chain.revokedAt
  {
    var hashes := w.chains[w.rows[h].family].hashes;
    var k :| 0 <= k < |hashes| && hashes[k] == h;
    assert Matches(w, w.rows[h].family, k);
  }

  /** `v` has the rows of `w`, some of them gone or stamped, and the chains of `w`, stamped alike. */
  ghost predicate Stamped(w: World, v: World) {
    && v.chains.Keys == w.chains.Keys
    && (forall f :: f in w.chains ==>
          v.chains[f] == w.chains[f].(revokedAt := v.chains[f].revokedAt))
    && (forall h :: h in v.rows ==> h in w.rows && v.rows[h] == w.rows[h].(revokedAt := v.rows[h].revokedAt))
    && (forall h :: h in v.rows && v.rows[h].family in v.chains ==>
          v.rows[h].revokedAt == v.chains[v.rows[h].family].revokedAt)
  }

  lemma StampedKeepsInv(w: World, v: World)
    requires Inv(w) && Stamped(w, v)
    ensures Inv(v)
  {
    forall f, i: nat | f in v.chains && i < |v.chains[f].hashes| && v.chains[f].hashes[i] in v.rows
      ensures Matches(v, f, i)
    {
      assert w.chains[f].hashes[i] in w.rows;
      assert Matches(w, f, i);
    }
    assert forall f, i: nat {:trigger v.chains[f].hashes[i]} ::
      f in v.chains && i < |v.chains[f].hashes| ==> v.chains[f].hashes[i] == w.chains[f].hashes[i];
  }

  /** What reporting a reused token comes to. */
  lemma ReusedWorld(w: World, op: Op)
    requires Covered(w) && op.RotateOp? && Answer(w, op).Reused?
    ensures op.presented in w.rows && w.rows[op.presented].family in w.chains
    ensures var f := w.rows[op.presented].family;
            Step(w, op) == if Committed(op)
                           then World(Revoked(w.rows, f, op.now), w.chains[f := w.chains[f].(revokedAt := Some(op.now))])
                           else w
  {
    hide Revoked;
  }

  lemma ReuseStamps(w: World, op: Op)
    requires Matching(w) && Covered(w) && op.RotateOp? && Answer(w, op).Reused?
    ensures Stamped(w, Step(w, op))
  {
    hide Matching, Answer, Step, RowsAfter, ChainsAfter;
    ReusedWorld(w, op);
    forall h | h in w.rows ensures w.rows[h].revokedAt == w.chains[w.rows[h].family].revokedAt {
      RowAgreesWithChain(w, h);
    }
  }

  lemma RevokeStamps(w: World, op: Op)
    requires Matching(w) && Covered(w) && op.RevokeOp? && Committed(op)
    ensures Stamped(w, Step(w, op))
  {
    hide Matching;
    forall h | h in w.rows
      ensures var row := w.rows[h];
              var chain := w.chains[row.family];
              row.user == chain.user && row.device == chain.device && row.revokedAt == chain.revokedAt
    {
      RowAgreesWithChain(w, h);
    }
  }

  lemma OthersStamp(w: World, op: Op)
    requires Matching(w) && Covered(w)
    requires op.CleanupOp? || !Committed(op) || (op.RotateOp? && !Answer(w, op).Reused? && !Answer(w, op).Pair?)
    ensures Stamped(w, Step(w, op))
  {
    hide Matching;
    forall h | h in w.rows ensures w.rows[h].revokedAt == w.chains[w.rows[h].family].revokedAt {
      RowAgreesWithChain(w, h);
    }
  }

  lemma StepKeepsInv(w: World, op: Op)
    requires Inv(w) && Fresh(w, op)
    ensures Inv(Step(w, op))
  {
    assert Matching(w) && Covered(w);
    hide Inv, Step, Stamped;
    if op.IssueOp? && Committed(op) {
      IssueKeepsInv(w, op);
    } else if Answer(w, op).Pair? {
      RotateKeepsInv(w, op);
    } else {
      if op.RevokeOp? && Committed(op) {
        RevokeStamps(w, op);
      } else if Answer(w, op).Reused? {
        ReuseStamps(w, op);
      } else {
        OthersStamp(w, op);
      }
      StampedKeepsInv(w, Step(w, op));
    }
  }

  lemma {:induction false} RunKeepsInv(w: World, ops: seq<Op>)
    requires Inv(w) && FreshRun(w, ops)
    ensures Inv(Exec(w, ops))
    decreases |ops|
  {
    if ops != [] {
      StepKeepsInv(w, ops[0]);
      RunKeepsInv(Step(w, ops[0]), ops[1..]);
    }
  }

  lemma {:induction false} RunsCompose(w: World, a: seq<Op>, b: seq<Op>)
    ensures Exec(w, a + b) == Exec(Exec(w, a), b)
    ensures FreshRun(w, a + b) <==> FreshRun(w, a) && FreshRun(Exec(w, a), b)
    decreases |a|
  {
    if a == [] {
      assert a + b == b;
    } else {
      assert (a + b)[1..] == a[1..] + b;
      RunsCompose(Step(w, a[0]), a[1..], b);
    }
  }

  /** Reading a run as `before`, then `op`, then `later`. */
  lemma RunThrough(before: seq<Op>, op: Op, later: seq<Op>)
    requires FreshRun(EmptyWorld, before + [op] + later)
    ensures FreshRun(EmptyWorld, before) && Inv(Exec(EmptyWorld, before)) && Fresh(Exec(EmptyWorld, before), op)
    ensures Exec(EmptyWorld, before + [op]) == Step(Exec(EmptyWorld, before), op)
    ensures FreshRun(Step(Exec(EmptyWorld, before), op), later)
    ensures Exec(EmptyWorld, before + [op] + later) == Exec(Step(Exec(EmptyWorld, before), op), later)
  {
    assert Inv(EmptyWorld);
    hide Step, Fresh, Inv;
    RunsCompose(EmptyWorld, before + [op], later);
    RunsCompose(EmptyWorld, before, [op]);
    RunKeepsInv(EmptyWorld, before);
    assert [op][1..] == [];
  }

  /** A rotation is granted to the newest hash of a live family, on its own device, in time. */
  lemma RotationGrantedIff(w: World, op: Op)
    requires Inv(w) && op.RotateOp?
    ensures Answer(w, op).Pair? <==>
            && Committed(op) && op.presented in w.rows
            && var row := w.rows[op.presented];
               var chain := w.chains[row.family];
               && chain.revokedAt.None? && op.now <= row.expires
               && (op.device == "" || op.device == chain.device)
               && chain.hashes[|chain.hashes| - 1] == op.presented
  {
    if op.presented in w.rows {
      var hashes := w.chains[w.rows[op.presented].family].hashes;
      var k :| 0 <= k < |hashes| && hashes[k] == op.presented;
      assert Matches(w, w.rows[op.presented].family, k);
    }
  }

  ghost predicate Dead(rows: Table, f: Family) {
    forall h :: h in rows && rows[h].family == f ==> rows[h].revokedAt.Some?
  }

  /**
   What the answer "reused" is worth: the family is dead then if and only if the commit,
   whose failure is ignored, went through.
   */
  lemma ReusedMeansDeadIff(w: World, op: Op)
    requires op.RotateOp? && Answer(w, op).Reused?
    ensures op.presented in w.rows
    ensures Dead(RowsAfter(w, op), w.rows[op.presented].family) <==> op.db.Commits?
  {
    var rows, f := RowsAfter(w, op), w.rows[op.presented].family;
    if op.db.Commits? {
      assert rows == Revoked(w.rows, f, op.now);
    } else {
      assert rows == w.rows && rows[op.presented].revokedAt.None?;
    }
  }

  lemma ChainsOnlyGrow(w: World, op: Op)
    requires Inv(w) && Fresh(w, op)
    ensures forall f :: f in w.chains ==>
              f in Step(w, op).chains && w.chains[f].hashes <= Step(w, op).chains[f].hashes
    ensures forall f :: f in w.chains && w.chains[f].revokedAt.Some? ==>
              Step(w, op).chains[f].revokedAt.Some? && w.chains[f].hashes == Step(w, op).chains[f].hashes
  {
    if op.RotateOp? && Answer(w, op).Pair? {
      RotationGrantedIff(w, op);
    }
  }

  lemma {:induction false} ChainsGrowOverRuns(w: World, ops: seq<Op>)
    requires Inv(w) && FreshRun(w, ops)
    ensures forall f :: f in w.chains ==>
              f in Exec(w, ops).chains && w.chains[f].hashes <= Exec(w, ops).chains[f].hashes
    ensures forall f :: f in w.chains && w.chains[f].revokedAt.Some? ==>
              Exec(w, ops).chains[f].revokedAt.Some? && w.chains[f].hashes == Exec(w, ops).chains[f].hashes
    decreases |ops|
  {
    if ops != [] {
      ChainsOnlyGrow(w, ops[0]);
      StepKeepsInv(w, ops[0]);
      ChainsGrowOverRuns(Step(w, ops[0]), ops[1..]);
    }
  }

  /** After a rotation the presented hash is an inner one of its chain, and stays so. */
  ghost predicate Spent(w: World, f: Family, k: nat, h: Hash) {
    f in w.chains && k + 1 < |w.chains[f].hashes| && w.chains[f].hashes[k] == h
  }

  lemma RotationSpends(w: World, op: Op) returns (f: Family, k: nat)
    requires Inv(w) && Fresh(w, op) && op.RotateOp? && Answer(w, op).Pair?
    ensures Spent(Step(w, op), f, k, op.presented)
  {
    RotationGrantedIff(w, op);
    f := w.rows[op.presented].family;
    k := |w.chains[f].hashes| - 1;
    assert Step(w, op).chains[f].hashes == w.chains[f].hashes + [op.drawn];
  }

  lemma SpentNeverRotates(w: World, f: Family, k: nat, op: Op)
    requires Inv(w) && op.RotateOp? && Spent(w, f, k, op.presented)
    ensures !Answer(w, op).Pair?
  {
    RotationGrantedIff(w, op);
  }

  /** Over any run of all four operations, a token rotates successfully at most once. */
  lemma EachTokenRotatesOnce(before: seq<Op>, first: Op, later: seq<Op>, second: Op)
    requires FreshRun(EmptyWorld, before + [first] + later)
    requires first.RotateOp? && second.RotateOp? && first.presented == second.presented
    requires Answer(Exec(EmptyWorld, before), first).Pair?
    ensures !Answer(Exec(EmptyWorld, before + [first] + later), second).Pair?
  {
    hide Step, Fresh, Inv, Answer;
    RunThrough(before, first, later);
    var w := Exec(EmptyWorld, before);
    var f, k := RotationSpends(w, first);
    StepKeepsInv(w, first);
    ChainsGrowOverRuns(Step(w, first), later);
    RunKeepsInv(Step(w, first), later);
    SpentNeverRotates(Exec(EmptyWorld, before + [first] + later), f, k, second);
  }

  /** Once a family is revoked, no later operation of any run rotates any of its tokens. */
  lemma RevokedFamilyStaysDead(before: seq<Op>, later: seq<Op>, f: Family, op: Op)
    requires FreshRun(EmptyWorld, before + later)
    requires f in Exec(EmptyWorld, before).chains && Exec(EmptyWorld, before).chains[f].revokedAt.Some?
    requires f in Exec(EmptyWorld, before + later).chains
    requires op.RotateOp? && op.presented in Exec(EmptyWorld, before + later).chains[f].hashes
    ensures !Answer(Exec(EmptyWorld, before + later), op).Pair?
    ensures Exec(EmptyWorld, before + later).chains[f].hashes == Exec(EmptyWorld, before).chains[f].hashes
  {
    RunsCompose(EmptyWorld, before, later);
    RunKeepsInv(EmptyWorld, before);
    RunKeepsInv(EmptyWorld, before + later);
    ChainsGrowOverRuns(Exec(EmptyWorld, before), later);
    var u := Exec(EmptyWorld, before + later);
    RotationGrantedIff(u, op);
  }

  /**
   Reuse detection: presenting an already rotated, unexpired token from its own device
   is refused and ends its family; whatever follows, every token that ever belonged to
   the family is refused.
   */
  lemma ReuseEndsTheFamily(before: seq<Op>, reuse: Op, later: seq<Op>, op: Op)
    requires FreshRun(EmptyWorld, before + [reuse] + later)
    requires reuse.RotateOp? && Committed(reuse)
    requires var w := Exec(EmptyWorld, before);
             && reuse.presented in w.rows
             && var row := w.rows[reuse.presented];
                && row.rotatedAt.Some? && reuse.now <= row.expires
                && (reuse.device == "" || reuse.device == row.device)
    requires op.RotateOp?
    requires var f := Exec(EmptyWorld, before).rows[reuse.presented].family;
             var u := Exec(EmptyWorld, before + [reuse] + later);
             f in u.chains && op.presented in u.chains[f].hashes
    ensures !Answer(Exec(EmptyWorld, before), reuse).Pair?
    ensures !Answer(Exec(EmptyWorld, before + [reuse] + later), op).Pair?
  {
    var w := Exec(EmptyWorld, before);
    var f := w.rows[reuse.presented].family;
    RunThrough(before, reuse, later);
    hide Matching, Distinct;
    RowAgreesWithChain(w, reuse.presented);
    RevokedFamilyStaysDead(before + [reuse], later, f, op);
  }

  /** Logging a device out ends every family of that user and device in the same way. */
  lemma LogoutEndsTheFamilies(before: seq<Op>, logout: Op, later: seq<Op>, f: Family, op: Op)
    requires FreshRun(EmptyWorld, before + [logout] + later)
    requires logout.RevokeOp? && Committed(logout)
    requires var w := Exec(EmptyWorld, before);
             && f in w.chains && w.chains[f].user == logout.user
             && (logout.device == "" || logout.device == w.chains[f].device)
    requires op.RotateOp?
    requires var u := Exec(EmptyWorld, before + [logout] + later);
             f in u.chains && op.presented in u.chains[f].hashes
    ensures !Answer(Exec(EmptyWorld, before + [logout] + later), op).Pair?
  {
    var w := Exec(EmptyWorld, before);
    RunThrough(before, logout, later);
    RevokedFamilyStaysDead(before + [logout], later, f, op);
  }

  /**
   In every reachable table a family is one chain of one user and one device: it is
   revoked as a whole or not at all, has at most one row that was not rotated, and two
   rows never descend from the same token.
   */
  lemma FamiliesAreChains(ops: seq<Op>, h1: Hash, h2: Hash)
    requires FreshRun(EmptyWorld, ops)
    requires h1 in Exec(EmptyWorld, ops).rows && h2 in Exec(EmptyWorld, ops).rows
    requires Exec(EmptyWorld, ops).rows[h1].family == Exec(EmptyWorld, ops).rows[h2].family
    ensures var r1 := Exec(EmptyWorld, ops).rows[h1];
            var r2 := Exec(EmptyWorld, ops).rows[h2];
            && r1.user == r2.user && r1.device == r2.device
            && r1.revokedAt == r2.revokedAt
            && (r1.rotatedAt.None? && r2.rotatedAt.None? ==> h1 == h2)
            && (r1.rotatedFrom == r2.rotatedFrom ==> h1 == h2)
            && (r1.rotatedFrom == Some(h2) ==> r2.rotatedAt.Some? && h1 != h2)
  {
    RunKeepsInv(EmptyWorld, ops);
    var w := Exec(EmptyWorld, ops);
    var f := w.rows[h1].family;
    var hashes := w.chains[f].hashes;
    var i :| 0 <= i < |hashes| && hashes[i] == h1;
    var j :| 0 <= j < |hashes| && hashes[j] == h2;
    assert Matches(w, f, i) && Matches(w, f, j);
    if i > 0 && j > 0 && hashes[i - 1] == hashes[j - 1] {
      assert i - 1 == j - 1;
    }
    if i > 0 && hashes[i - 1] == h2 {
      assert i - 1 == j;
    }
  }

  /** A token named as a predecessor that still has a row is a rotated member of the same family. */
  lemma PredecessorsAreRotatedMembers(ops: seq<Op>, h: Hash, p: Hash)
    requires FreshRun(EmptyWorld, ops)
    requires h in Exec(EmptyWorld, ops).rows && p in Exec(EmptyWorld, ops).rows
    requires Exec(EmptyWorld, ops).rows[h].rotatedFrom == Some(p)
    ensures Exec(EmptyWorld, ops).rows[p].family == Exec(EmptyWorld, ops).rows[h].family
    ensures Exec(EmptyWorld, ops).rows[p].rotatedAt.Some?
  {
    RunKeepsInv(EmptyWorld, ops);
    var w := Exec(EmptyWorld, ops);
    var f := w.rows[h].family;
    var hashes := w.chains[f].hashes;
    var i :| 0 <= i < |hashes| && hashes[i] == h;
    assert Matches(w, f, i);
    assert Matches(w, f, i - 1);
  }

  // ---- How long a token is good ----

  /**
   What Rotate answers, by the history of the token's family: a token is refused as
   expired once its family is revoked or its time is over, as reused if it is not the
   newest of its family, and a new pair is good for ninety days.
   */
  lemma AnswersAre(w: World, op: Op)
    requires Inv(w) && op.RotateOp?
    ensures op.presented !in w.rows ==> Answer(w, op) == if op.db.StatementFails? then Failed else Unknown
    ensures op.presented in w.rows ==>
              && w.rows[op.presented].family in w.chains && w.chains[w.rows[op.presented].family].hashes != []
              && var chain := w.chains[w.rows[op.presented].family];
                 Answer(w, op) == if op.db.StatementFails? then Failed
                                  else if chain.revokedAt.Some? || w.rows[op.presented].expires < op.now then Expired
                                  else if op.device != "" && op.device != chain.device then WrongDevice
                                  else if chain.hashes[|chain.hashes| - 1] != op.presented then Reused
                                  else if op.db.CommitFails? then Failed
                                  else Pair(op.drawn, op.now + 7776000)
  {
    if op.presented in w.rows {
      var hashes := w.chains[w.rows[op.presented].family].hashes;
      var k :| 0 <= k < |hashes| && hashes[k] == op.presented;
      assert Matches(w, w.rows[op.presented].family, k);
    }
  }

  /** The operation revokes the family: a logout of its user and device, or a token of its used again. */
  ghost predicate Revokes(w: World, op: Op, f: Family)
    requires f in w.chains
  {
    match op
    case RevokeOp(user, device, _, commits) =>
      commits && user == w.chains[f].user && (device == "" || device == w.chains[f].device)
    case RotateOp(presented, _, _, _, db) => db.Commits? && Answer(w, op).Reused? && presented in w.chains[f].hashes
    case IssueOp(_, _, _, _, _, _) => false
    case CleanupOp(_, _) => false
  }

  ghost predicate Rotates(w: World, op: Op, h: Hash) {
    op.RotateOp? && op.presented == h && Answer(w, op).Pair?
  }

  /**
   A family is revoked by a logout of its own user and device and by the reuse of one of its
   tokens, and by nothing else: the families of other users and devices are spared.
   */
  lemma FamilyRevokedIff(w: World, op: Op, f: Family)
    requires Inv(w) && Fresh(w, op) && f in w.chains
    ensures var v := Step(w, op);
            && f in v.chains && v.chains[f].user == w.chains[f].user && v.chains[f].device == w.chains[f].device
            && (v.chains[f].revokedAt.Some? <==> w.chains[f].revokedAt.Some? || Revokes(w, op, f))
  {
    if op.RotateOp? && op.presented in w.rows {
      FamilyOf(w, op.presented, f);
    }
  }

  lemma FamilyOf(w: World, h: Hash, f: Family)
    requires Inv(w) && h in w.rows && f in w.chains
    ensures h in w.chains[f].hashes <==> w.rows[h].family == f
  {
    var g := w.rows[h].family;
    var k :| 0 <= k < |w.chains[g].hashes| && w.chains[g].hashes[k] == h;
    if h in w.chains[f].hashes {
      var i :| 0 <= i < |w.chains[f].hashes| && w.chains[f].hashes[i] == h;
    }
  }

  /** A row is removed once seven days have passed since it expired, or since it was revoked, and no sooner. */
  lemma CleanupRemovesIff(rows: Table, now: int, h: Hash)
    requires h in rows
    ensures var left := AfterCleanup(rows, now);
            && (h !in left <==> rows[h].expires + 604800 < now || (rows[h].revokedAt.Some? && rows[h].revokedAt.value + 604800 < now))
            && (h in left ==> left[h] == rows[h])
  {
  }

  /** The token is the newest of its family, which is not revoked; its row, while it is there, says when it expires. */
  ghost predicate Newest(w: World, f: Family, device: string, h: Hash, expires: int) {
    && f in w.chains && w.chains[f].revokedAt.None? && w.chains[f].device == device
    && w.chains[f].hashes != [] && w.chains[f].hashes[|w.chains[f].hashes| - 1] == h
    && (h in w.rows ==> w.rows[h].expires == expires && w.rows[h].family == f)
  }

  lemma NewestStays(w: World, op: Op, f: Family, device: string, h: Hash, expires: int)
    requires Inv(w) && Fresh(w, op) && Newest(w, f, device, h, expires)
    requires !Revokes(w, op, f) && !Rotates(w, op, h)
    ensures Newest(Step(w, op), f, device, h, expires)
    ensures h in w.rows && op.now <= expires + 604800 ==> h in Step(w, op).rows
  {
    FamilyRevokedIff(w, op, f);
    NewestKeepsItsRow(w, op, f, device, h, expires);
    NewestKeepsItsPlace(w, op, f, device, h, expires);
    hide Step, Revokes, Rotates, Inv;
  }

  lemma NewestKeepsItsPlace(w: World, op: Op, f: Family, device: string, h: Hash, expires: int)
    requires Inv(w) && Fresh(w, op) && Newest(w, f, device, h, expires) && !Rotates(w, op, h)
    ensures f in Step(w, op).chains && Step(w, op).chains[f].hashes == w.chains[f].hashes
  {
    if op.RotateOp? && Answer(w, op).Pair? {
      RotationGrantedIff(w, op);
      RotatedWorld(w, op);
    }
  }

  lemma NewestKeepsItsRow(w: World, op: Op, f: Family, device: string, h: Hash, expires: int)
    requires Inv(w) && Fresh(w, op) && Newest(w, f, device, h, expires)
    requires !Revokes(w, op, f) && !Rotates(w, op, h)
    ensures h in Step(w, op).rows ==> h in w.rows && Step(w, op).rows[h].expires == w.rows[h].expires
                                      && Step(w, op).rows[h].family == w.rows[h].family
    ensures h in w.rows && op.now <= expires + 604800 ==> h in Step(w, op).rows
  {
    assert h in w.chains[f].hashes;
    assert Ever(w, h);
    if h in w.rows {
      RowAgreesWithChain(w, h);
    }
  }

  /** None of the operations, when its turn comes, rotates the token or revokes the family. */
  ghost predicate LeftAlone(w: World, ops: seq<Op>, f: Family, h: Hash)
    decreases |ops|
  {
    ops == [] ||
    (f in w.chains && !Revokes(w, ops[0], f) && !Rotates(w, ops[0], h) && LeftAlone(Step(w, ops[0]), ops[1..], f, h))
  }

  lemma {:induction false} NewestStaysOverRuns(w: World, ops: seq<Op>, f: Family, device: string, h: Hash, expires: int)
    requires Inv(w) && FreshRun(w, ops) && Newest(w, f, device, h, expires) && LeftAlone(w, ops, f, h)
    ensures Newest(Exec(w, ops), f, device, h, expires)
    ensures h in w.rows && (forall i :: 0 <= i < |ops| ==> ops[i].now <= expires + 604800) ==> h in Exec(w, ops).rows
    decreases |ops|
  {
    hide Inv, Step, Newest, Revokes, Rotates, Fresh;
    if ops != [] {
      NewestStays(w, ops[0], f, device, h, expires);
      StepKeepsInv(w, ops[0]);
      NewestStaysOverRuns(Step(w, ops[0]), ops[1..], f, device, h, expires);
      assert forall i :: 0 <= i < |ops[1..]| ==> ops[1..][i] == ops[i + 1];
    }
  }

  /** A granted pair is the newest of its family, and has its row. */
  lemma GrantedIsNewest(w: World, grant: Op)
    requires Inv(w) && Fresh(w, grant) && Answer(w, grant).Pair?
    ensures grant.IssueOp? || grant.RotateOp?
    ensures var (f, device) := if grant.IssueOp? then (grant.family, grant.device)
                               else (w.rows[grant.presented].family, w.rows[grant.presented].device);
            var (token, v) := (Answer(w, grant).token, Step(w, grant));
            Newest(v, f, device, token, grant.now + 7776000) && token in v.rows
    ensures Answer(w, grant).expires == grant.now + 7776000
    ensures grant.RotateOp? ==> grant.presented in w.rows
  {
    if grant.RotateOp? {
      RotatedWorld(w, grant);
      RotationGrantedIff(w, grant);
      RowAgreesWithChain(w, grant.presented);
    }
  }

  lemma NewestIsGranted(u: World, op: Op, f: Family, device: string, expires: int)
    requires Inv(u) && op.RotateOp? && op.db.Commits? && Newest(u, f, device, op.presented, expires)
    requires op.device == "" || op.device == device
    ensures op.presented in u.rows && op.now <= expires ==> Answer(u, op) == Pair(op.drawn, op.now + 7776000)
    ensures op.now > expires ==> !Answer(u, op).Pair?
  {
    AnswersAre(u, op);
    hide Inv, Answer;
  }

  lemma GoodFromThen(w: World, grant: Op, later: seq<Op>, op: Op)
    requires Inv(w) && Fresh(w, grant) && FreshRun(Step(w, grant), later) && Answer(w, grant).Pair?
    requires grant.RotateOp? ==> grant.presented in w.rows
    requires var f := if grant.IssueOp? then grant.family else w.rows[grant.presented].family;
             LeftAlone(Step(w, grant), later, f, Answer(w, grant).token)
    requires op.RotateOp? && op.presented == Answer(w, grant).token && op.db.Commits?
    requires op.device == "" || op.device == if grant.IssueOp? then grant.device else w.rows[grant.presented].device
    requires forall i :: 0 <= i < |later| ==> later[i].now <= op.now
    ensures Answer(w, grant).expires == grant.now + 7776000
    ensures op.now <= grant.now + 7776000 ==> Answer(Exec(Step(w, grant), later), op) == Pair(op.drawn, op.now + 7776000)
    ensures op.now > grant.now + 7776000 ==> !Answer(Exec(Step(w, grant), later), op).Pair?
  {
    hide *;
    GrantedIsNewest(w, grant);
    StepKeepsInv(w, grant);
    var v, expires := Step(w, grant), grant.now + 7776000;
    var f := if grant.IssueOp? then grant.family else w.rows[grant.presented].family;
    var device := if grant.IssueOp? then grant.device else w.rows[grant.presented].device;
    NewestStaysOverRuns(v, later, f, device, op.presented, expires);
    RunKeepsInv(v, later);
    NewestIsGranted(Exec(v, later), op, f, device, expires);
  }

  /**
   A token is good for what was promised: handed out at sign-in or by a rotation, neither
   rotated nor its family revoked since, it is granted on its own device at every instant
   of its ninety days, however often the table is cleaned up, and at none after them.
   */
  lemma HandedOutTokensAreGood(before: seq<Op>, grant: Op, later: seq<Op>, op: Op)
    requires FreshRun(EmptyWorld, before + [grant] + later) && Answer(Exec(EmptyWorld, before), grant).Pair?
    requires grant.RotateOp? ==> grant.presented in Exec(EmptyWorld, before).rows
    requires var w := Exec(EmptyWorld, before);
             var f := if grant.IssueOp? then grant.family else w.rows[grant.presented].family;
             LeftAlone(Step(w, grant), later, f, Answer(w, grant).token)
    requires op.RotateOp? && op.presented == Answer(Exec(EmptyWorld, before), grant).token && op.db.Commits?
    requires op.device == "" ||
             op.device == if grant.IssueOp? then grant.device else Exec(EmptyWorld, before).rows[grant.presented].device
    requires forall i :: 0 <= i < |later| ==> later[i].now <= op.now
    ensures Answer(Exec(EmptyWorld, before), grant).expires == grant.now + 7776000
    ensures op.now <= grant.now + 7776000 ==>
              Answer(Exec(EmptyWorld, before + [grant] + later), op) == Pair(op.drawn, op.now + 7776000)
    ensures op.now > grant.now + 7776000 ==> !Answer(Exec(EmptyWorld, before + [grant] + later), op).Pair?
  {
    hide *;
    RunThrough(before, grant, later);
    GoodFromThen(Exec(EmptyWorld, before), grant, later, op);
  }
}
