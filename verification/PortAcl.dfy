/**
 Exposed-port access control (internal/domain/firewall/port_acl.go, port_acl_repo.go).

 The rows of the port_acl table are the authority; the INPUT chain must carry, for
 each row, one accept rule per allowed source and a final drop rule.  `World` is the
 table together with the listed lines of the chain.
 */
module PortAcl {
  import opened Common
  import opened Nft

  datatype Protocol = Tcp | Udp

  /** An IPv4 network: the first `bits` bits of `base`. */
  datatype Cidr = Cidr(base: nat, bits: nat)

  datatype Packet = Packet(protocol: Protocol, port: int, src: nat)

  datatype Verdict = Accepted | Dropped | Undecided

  /** The rules of this service, and rules of anyone else. */
  datatype Body =
    | Allow(protocol: Protocol, port: int, src: Cidr)
    | Deny(protocol: Protocol, port: int)
    | Other(hits: Packet -> bool, verdict: Verdict)

  type Rules = seq<Line<Body>>

  datatype Acl = Acl(id: nat, port: int, protocol: Protocol, cidrs: seq<Cidr>)

  const ACCEPT_PREFIX := "easyserver-acl-"
  const DENY_PREFIX := "easyserver-acl-deny-"

  function Pow2(k: nat): nat
    ensures Pow2(k) > 0
  {
    if k == 0 then 1 else 2 * Pow2(k - 1)
  }

  predicate InCidr(src: nat, c: Cidr) {
    c.bits <= 32 && src / Pow2(32 - c.bits) == c.base / Pow2(32 - c.bits)
  }

  predicate Allows(cidrs: seq<Cidr>, src: nat) {
    exists i | 0 <= i < |cidrs| :: InCidr(src, cidrs[i])
  }

  predicate Hits(b: Body, p: Packet) {
    match b
    case Allow(protocol, port, src) => p.protocol == protocol && p.port == port && InCidr(p.src, src)
    case Deny(protocol, port) => p.protocol == protocol && p.port == port
    case Other(hits, _) => hits(p)
  }

  function VerdictOf(b: Body): Verdict {
    match b
    case Allow(_, _, _) => Accepted
    case Deny(_, _) => Dropped
    case Other(_, verdict) => verdict
  }

  /** The chain decides a packet by the first rule that hits it with a verdict. */
  function FirstMatch(rules: Rules, p: Packet): Verdict {
    if rules == [] then Undecided
    else if Hits(rules[0].body, p) && VerdictOf(rules[0].body) != Undecided then VerdictOf(rules[0].body)
    else FirstMatch(rules[1..], p)
  }

  // ---- The rules of a row ----

  function Accepts(a: Acl, cidrs: seq<Cidr>): Rules {
    seq(|cidrs|, i requires 0 <= i < |cidrs| =>
      Line(Allow(a.protocol, a.port, cidrs[i]), Comment(ACCEPT_PREFIX, a.id)))
  }

  function RulesOf(a: Acl): Rules {
    Accepts(a, a.cidrs) + [Line(Deny(a.protocol, a.port), Comment(DENY_PREFIX, a.id))]
  }

  function RulesOfAll(rows: seq<Acl>): Rules {
    if rows == [] then [] else RulesOf(rows[0]) + RulesOfAll(rows[1..])
  }

  function Tags(id: nat): seq<string> {
    [Tag(ACCEPT_PREFIX, id), Tag(DENY_PREFIX, id)]
  }

  function Ids(rows: seq<Acl>): seq<nat> {
    seq(|rows|, i requires 0 <= i < |rows| => rows[i].id)
  }

  /** The tags of a row find the rules of that row and of no other. */
  lemma TagsFindOneRow(a: Acl, l: Line<Body>, id: nat)
    requires l in RulesOf(a)
    ensures HasTag(l, Tags(id)) <==> id == a.id
  {
    var tags := Tags(id);
    assert HasTag(l, tags) <==> Contains(l.comment, tags[0]) || Contains(l.comment, tags[1]);
    var quotedAccept, quotedDeny := "\"" + ACCEPT_PREFIX, "\"" + DENY_PREFIX;
    assert quotedAccept[1..] == ACCEPT_PREFIX && quotedDeny[1..] == DENY_PREFIX;
    if l.comment == Comment(ACCEPT_PREFIX, a.id) {
      TagHitsOneId(ACCEPT_PREFIX, ACCEPT_PREFIX, a.id, id);
      TagHitsOneId(ACCEPT_PREFIX, DENY_PREFIX, a.id, id);
    } else {
      TagHitsOneId(DENY_PREFIX, DENY_PREFIX, a.id, id);
      TagHitsOneId(DENY_PREFIX, ACCEPT_PREFIX, a.id, id);
      assert quotedDeny[|quotedDeny| - |ACCEPT_PREFIX|..] == "easyserver-acl-deny-"[5..];
    }
  }

  lemma {:induction false} RulesOfAllOwned(rows: seq<Acl>, l: Line<Body>)
    requires l in RulesOfAll(rows)
    ensures exists a :: a in rows && l in RulesOf(a)
  {
    if l in RulesOf(rows[0]) {
      assert rows[0] in rows;
    } else {
      RulesOfAllOwned(rows[1..], l);
      var a :| a in rows[1..] && l in RulesOf(a);
      assert a in rows;
    }
  }

  lemma OwnedByRow(l: Line<Body>, rows: seq<Acl>)
    ensures Owned(l, Ids(rows), Tags) <==> exists i :: 0 <= i < |rows| && HasTag(l, Tags(rows[i].id))
  {
    hide HasTag, Tags;
    if i :| 0 <= i < |rows| && HasTag(l, Tags(rows[i].id)) {
      assert HasTag(l, Tags(Ids(rows)[i]));
    }
  }

  /** Generated rules are found by the tags of the rows they come from. */
  lemma GeneratedRules(rows: seq<Acl>, l: Line<Body>)
    requires l in RulesOfAll(rows)
    ensures Tagged(l, Tags) && Owned(l, Ids(rows), Tags)
  {
    RulesOfAllOwned(rows, l);
    var a :| a in rows && l in RulesOf(a);
    TagsFindOneRow(a, l, a.id);
    var k :| 0 <= k < |rows| && rows[k] == a;
    OwnedByRow(l, rows);
  }

  lemma {:induction false} RulesOfAllAppend(a: seq<Acl>, b: seq<Acl>)
    ensures RulesOfAll(a + b) == RulesOfAll(a) + RulesOfAll(b)
  {
    if a == [] {
      assert a + b == b;
    } else {
      assert (a + b)[1..] == a[1..] + b;
      RulesOfAllAppend(a[1..], b);
    }
  }

  lemma RulesOfAllSnoc(rows: seq<Acl>, a: Acl)
    ensures RulesOfAll(rows + [a]) == RulesOfAll(rows) + RulesOf(a)
  {
    RulesOfAllAppend(rows, [a]);
    assert [a][1..] == [];
    assert RulesOfAll([a]) == RulesOf(a) + RulesOfAll([]);
  }

  // ---- The operations ----

  datatype World = World(rows: seq<Acl>, nextId: nat, rules: Rules)

  const EmptyWorld := World([], 1, [])

  /** The row of a port and protocol, by position; the table keeps at most one. */
  function Find(rows: seq<Acl>, port: int, protocol: Protocol): Option<nat> {
    if rows == [] then None
    else if rows[0].port == port && rows[0].protocol == protocol then Some(0)
    else
      match Find(rows[1..], port, protocol)
      case None => None
      case Some(i) => Some(i + 1)
  }

  lemma {:induction false} FindFinds(rows: seq<Acl>, port: int, protocol: Protocol)
    ensures match Find(rows, port, protocol)
            case Some(i) => i < |rows| && rows[i].port == port && rows[i].protocol == protocol
            case None => forall a :: a in rows ==> a.port != port || a.protocol != protocol
  {
    if rows != [] {
      FindFinds(rows[1..], port, protocol);
      assert rows == [rows[0]] + rows[1..];
    }
  }

  /** The row Upsert writes, and the table after it. */
  function Upserted(w: World, port: int, protocol: Protocol, cidrs: seq<Cidr>): (r: (Acl, World))
    ensures r.1.rules == w.rules
  {
    FindFinds(w.rows, port, protocol);
    match Find(w.rows, port, protocol)
    case Some(i) =>
      var a := w.rows[i].(cidrs := cidrs);
      (a, w.(rows := w.rows[i := a]))
    case None =>
      var a := Acl(w.nextId, port, protocol, cidrs);
      (a, w.(rows := w.rows + [a], nextId := w.nextId + 1))
  }

  function Exposed(w: World, port: int, protocol: Protocol, cidrs: seq<Cidr>): World {
    var (a, v) := Upserted(w, port, protocol, cidrs);
    v.(rules := v.rules + RulesOf(a))
  }

  function Revoked(w: World, port: int, protocol: Protocol): World {
    FindFinds(w.rows, port, protocol);
    match Find(w.rows, port, protocol)
    case None => w
    case Some(i) =>
      w.(rows := w.rows[..i] + w.rows[i + 1..],
         rules := Filter(w.rules, Untagged(Tags(w.rows[i].id))))
  }

  function Reapplied(w: World): World {
    w.(rules := Filter(w.rules, NotOwned(Ids(w.rows), Tags)) + RulesOfAll(w.rows))
  }

  // ---- The table ----

  /** AUTOINCREMENT ids, listed in order; UNIQUE(port, protocol). */
  ghost predicate TableInv(w: World) {
    && (forall i, j :: 0 <= i < j < |w.rows| ==> w.rows[i].id < w.rows[j].id)
    && (forall a :: a in w.rows ==> a.id < w.nextId)
    && (forall i, j :: 0 <= i < j < |w.rows| ==>
          w.rows[i].port != w.rows[j].port || w.rows[i].protocol != w.rows[j].protocol)
  }

  lemma ExposeKeepsTable(w: World, port: int, protocol: Protocol, cidrs: seq<Cidr>)
    requires TableInv(w)
    ensures TableInv(Exposed(w, port, protocol, cidrs))
  {
    FindFinds(w.rows, port, protocol);
  }

  lemma CutKeepsTable(w: World, i: nat)
    requires TableInv(w) && i < |w.rows|
    ensures TableInv(w.(rows := w.rows[..i] + w.rows[i + 1..]))
  {
    CutOut(w.rows, i);
    var left := w.rows[..i] + w.rows[i + 1..];
    forall x, y | 0 <= x < y < |left|
      ensures left[x].id < left[y].id && (left[x].port != left[y].port || left[x].protocol != left[y].protocol)
    {
      var m, n := if x < i then x else x + 1, if y < i then y else y + 1;
      assert left[x] == w.rows[m] && left[y] == w.rows[n];
    }
  }

  lemma CutMembers(w: World, i: nat)
    requires TableInv(w) && i < |w.rows|
    ensures forall a :: a in w.rows[..i] + w.rows[i + 1..] <==>
              a in w.rows && (a.port != w.rows[i].port || a.protocol != w.rows[i].protocol)
  {
    CutOut(w.rows, i);
    var left := w.rows[..i] + w.rows[i + 1..];
    forall k: nat | k < |w.rows| && k != i
      ensures w.rows[k].port != w.rows[i].port || w.rows[k].protocol != w.rows[i].protocol
    {
      var x, y := if k < i then k else i, if k < i then i else k;
      assert w.rows[x].port != w.rows[y].port || w.rows[x].protocol != w.rows[y].protocol;
    }
    hide TableInv;
    forall a | a in left ensures a.port != w.rows[i].port || a.protocol != w.rows[i].protocol {
      var k :| 0 <= k < |left| && left[k] == a;
      assert left[k] == w.rows[if k < i then k else k + 1];
    }
  }

  lemma RevokeKeepsTable(w: World, port: int, protocol: Protocol)
    requires TableInv(w)
    ensures TableInv(Revoked(w, port, protocol))
    ensures forall a :: a in Revoked(w, port, protocol).rows <==> a in w.rows && (a.port != port || a.protocol != protocol)
  {
    FindFinds(w.rows, port, protocol);
    if Find(w.rows, port, protocol).Some? {
      CutKeepsTable(w, Find(w.rows, port, protocol).value);
      CutMembers(w, Find(w.rows, port, protocol).value);
    }
  }

  // ---- Table and chain agree ----

  /** The tagged rules of the chain are those of the rows, in the order of the rows. */
  ghost predicate Synced(w: World) {
    Filter(w.rules, IsTagged(Tags)) == RulesOfAll(w.rows)
  }

  /** Every tagged rule belongs to some row. */
  ghost predicate NoOrphans(w: World) {
    Nft.NoOrphans(w.rules, Ids(w.rows), Tags)
  }

  lemma SyncedHasNoOrphans(w: World)
    requires Synced(w)
    ensures NoOrphans(w)
  {
    forall l | l in w.rules && Tagged(l, Tags) ensures Owned(l, Ids(w.rows), Tags) {
      FilterMembers(w.rules, IsTagged(Tags));
      GeneratedRules(w.rows, l);
    }
  }

  /** Replaying the table brings chain and table to agree exactly when no tagged rule is an orphan. */
  lemma ReapplySyncsIff(w: World)
    ensures Synced(Reapplied(w)) <==> NoOrphans(w)
    ensures Filter(Reapplied(w).rules, IsForeign(Tags)) == Filter(w.rules, IsForeign(Tags))
  {
    forall l | l in RulesOfAll(w.rows) ensures Tagged(l, Tags) {
      GeneratedRules(w.rows, l);
    }
    hide Tagged, Owned, NotOwned, RulesOfAll;
    ReplaySyncsIff(w.rules, Ids(w.rows), Tags, RulesOfAll(w.rows));
  }

  lemma FirstExposeKeepsSync(w: World, port: int, protocol: Protocol, cidrs: seq<Cidr>)
    requires Synced(w) && Find(w.rows, port, protocol).None?
    ensures Synced(Exposed(w, port, protocol, cidrs))
    ensures Filter(Exposed(w, port, protocol, cidrs).rules, IsForeign(Tags)) == Filter(w.rules, IsForeign(Tags))
  {
    var a := Acl(w.nextId, port, protocol, cidrs);
    RulesOfAllSnoc(w.rows, a);
    AddingRules(w.rules, a);
  }

  /** Appending the rules of a row adds tagged rules, and no others. */
  lemma AddingRules(rules: Rules, a: Acl)
    ensures Filter(rules + RulesOf(a), IsTagged(Tags)) == Filter(rules, IsTagged(Tags)) + RulesOf(a)
    ensures Filter(rules + RulesOf(a), IsForeign(Tags)) == Filter(rules, IsForeign(Tags))
  {
    forall l | l in RulesOf(a) ensures Tagged(l, Tags) {
      TagsFindOneRow(a, l, a.id);
    }
    AddingTagged(rules, RulesOf(a), Tags);
  }

  lemma OwnRulesGo(a: Acl)
    ensures Filter(RulesOf(a), Untagged<Body>(Tags(a.id))) == []
  {
    forall k | 0 <= k < |RulesOf(a)| ensures !Untagged<Body>(Tags(a.id))(RulesOf(a)[k]) {
      TagsFindOneRow(a, RulesOf(a)[k], a.id);
    }
    FilterNone(RulesOf(a), Untagged<Body>(Tags(a.id)));
  }

  /** Without the rules tagged by a row, the generated rules are those of the other rows. */
  lemma RulesWithoutRow(before: seq<Acl>, a: Acl, after: seq<Acl>)
    requires forall b :: b in before + after ==> b.id != a.id
    ensures Filter(RulesOfAll(before + [a] + after), Untagged<Body>(Tags(a.id))) == RulesOfAll(before + after)
  {
    hide *;
    var untagged := Untagged<Body>(Tags(a.id));
    RulesOfAllAppend(before + [a], after);
    RulesOfAllSnoc(before, a);
    RulesOfAllAppend(before, after);
    FilterAppend(RulesOfAll(before) + RulesOf(a), RulesOfAll(after), untagged);
    FilterAppend(RulesOfAll(before), RulesOf(a), untagged);
    RulesOfOthers(before, a.id);
    RulesOfOthers(after, a.id);
    OwnRulesGo(a);
  }

  lemma OthersHaveOtherIds(w: World, i: nat)
    requires TableInv(w) && i < |w.rows|
    ensures forall b :: b in w.rows[..i] + w.rows[i + 1..] ==> b.id != w.rows[i].id
  {
    CutOut(w.rows, i);
  }

  lemma RevokeKeepsSync(w: World, port: int, protocol: Protocol)
    requires Synced(w) && TableInv(w)
    ensures Synced(Revoked(w, port, protocol))
    ensures Filter(Revoked(w, port, protocol).rules, IsForeign(Tags)) == Filter(w.rules, IsForeign(Tags))
  {
    hide Find, RulesOfAll, Filter, HasTag, Tagged, TableInv;
    FindFinds(w.rows, port, protocol);
    if Find(w.rows, port, protocol).Some? {
      var i := Find(w.rows, port, protocol).value;
      assert w.rows == w.rows[..i] + [w.rows[i]] + w.rows[i + 1..];
      OthersHaveOtherIds(w, i);
      RemovingByTag(w.rules, w.rows[i].id, Tags);
      RulesWithoutRow(w.rows[..i], w.rows[i], w.rows[i + 1..]);
    }
  }

  lemma RulesOfOthers(rows: seq<Acl>, id: nat)
    requires forall a :: a in rows ==> a.id != id
    ensures Filter(RulesOfAll(rows), Untagged<Body>(Tags(id))) == RulesOfAll(rows)
  {
    var all := RulesOfAll(rows);
    forall k | 0 <= k < |all| ensures Untagged<Body>(Tags(id))(all[k]) {
      RulesOfAllOwned(rows, all[k]);
      var a :| a in rows && all[k] in RulesOf(a);
      TagsFindOneRow(a, all[k], id);
    }
    FilterAll(all, Untagged<Body>(Tags(id)));
  }

  // ---- Verdicts ----

  predicate Decides(l: Line<Body>, p: Packet) {
    Hits(l.body, p) && VerdictOf(l.body) != Undecided
  }

  lemma {:induction false} FirstMatchAppend(a: Rules, b: Rules, p: Packet)
    ensures FirstMatch(a + b, p) == if FirstMatch(a, p) != Undecided then FirstMatch(a, p) else FirstMatch(b, p)
  {
    if a == [] {
      assert a + b == b;
    } else {
      assert (a + b)[1..] == a[1..] + b;
      FirstMatchAppend(a[1..], b, p);
    }
  }

  lemma {:induction false} IdleRulesDoNotMatter(rules: Rules, keep: Line<Body> -> bool, p: Packet)
    requires forall l :: l in rules && !keep(l) ==> !Decides(l, p)
    ensures FirstMatch(rules, p) == FirstMatch(Filter(rules, keep), p)
  {
    if rules != [] {
      assert rules[0] in rules;
      IdleRulesDoNotMatter(rules[1..], keep, p);
    }
  }

  lemma {:induction false} AcceptsDecide(a: Acl, cidrs: seq<Cidr>, p: Packet)
    ensures FirstMatch(Accepts(a, cidrs), p)
         == if p.port == a.port && p.protocol == a.protocol && Allows(cidrs, p.src) then Accepted else Undecided
  {
    if cidrs != [] {
      assert Accepts(a, cidrs)[1..] == Accepts(a, cidrs[1..]);
      AcceptsDecide(a, cidrs[1..], p);
      assert Allows(cidrs, p.src) <==> InCidr(p.src, cidrs[0]) || Allows(cidrs[1..], p.src) by {
        if Allows(cidrs, p.src) && !InCidr(p.src, cidrs[0]) {
          var i :| 0 <= i < |cidrs| && InCidr(p.src, cidrs[i]);
          assert InCidr(p.src, cidrs[1..][i - 1]);
        }
        if Allows(cidrs[1..], p.src) {
          var i :| 0 <= i < |cidrs[1..]| && InCidr(p.src, cidrs[1..][i]);
          assert InCidr(p.src, cidrs[i + 1]);
        }
      }
    }
  }

  lemma RowDecides(a: Acl, p: Packet)
    ensures FirstMatch(RulesOf(a), p)
         == if p.port != a.port || p.protocol != a.protocol then Undecided
            else if Allows(a.cidrs, p.src) then Accepted else Dropped
  {
    var deny := [Line(Deny(a.protocol, a.port), Comment(DENY_PREFIX, a.id))];
    AcceptsDecide(a, a.cidrs, p);
    FirstMatchAppend(Accepts(a, a.cidrs), deny, p);
    assert deny[1..] == [];
    assert FirstMatch(deny[1..], p) == Undecided;
  }

  lemma {:induction false} OnlyItsRowDecides(rows: seq<Acl>, i: nat, p: Packet)
    requires i < |rows| && rows[i].port == p.port && rows[i].protocol == p.protocol
    requires forall j :: 0 <= j < |rows| && j != i ==> rows[j].port != p.port || rows[j].protocol != p.protocol
    ensures FirstMatch(RulesOfAll(rows), p) == FirstMatch(RulesOf(rows[i]), p)
  {
    FirstMatchAppend(RulesOf(rows[0]), RulesOfAll(rows[1..]), p);
    RowDecides(rows[0], p);
    if i > 0 {
      OnlyItsRowDecides(rows[1..], i - 1, p);
    }
  }

  /** No foreign rule decides a packet for this port. */
  ghost predicate ForeignStandAside(rules: Rules, port: int, protocol: Protocol) {
    forall l, p: Packet :: l in rules && !Tagged(l, Tags) && p.port == port && p.protocol == protocol ==> !Decides(l, p)
  }

  /**
   When table and chain agree, a packet for a managed port is accepted if and only if its
   source lies in one of the row's networks, and dropped otherwise.
   */
  lemma ManagedPortVerdict(w: World, a: Acl, p: Packet)
    requires TableInv(w) && Synced(w) && a in w.rows && p.port == a.port && p.protocol == a.protocol
    requires ForeignStandAside(w.rules, a.port, a.protocol)
    ensures FirstMatch(w.rules, p) == if Allows(a.cidrs, p.src) then Accepted else Dropped
  {
    hide Tagged;
    IdleRulesDoNotMatter(w.rules, IsTagged(Tags), p);
    var i :| 0 <= i < |w.rows| && w.rows[i] == a;
    OnlyItsRowDecides(w.rows, i, p);
    RowDecides(a, p);
  }

  lemma {:induction false} NoRowDecides(rows: seq<Acl>, p: Packet)
    requires forall j :: 0 <= j < |rows| ==> rows[j].port != p.port || rows[j].protocol != p.protocol
    ensures FirstMatch(RulesOfAll(rows), p) == Undecided
  {
    if rows != [] {
      FirstMatchAppend(RulesOf(rows[0]), RulesOfAll(rows[1..]), p);
      RowDecides(rows[0], p);
      NoRowDecides(rows[1..], p);
    }
  }

  /** A port that is not managed, or not any more, is decided by none of the rules. */
  lemma UnmanagedPortVerdict(w: World, p: Packet)
    requires Synced(w) && ForeignStandAside(w.rules, p.port, p.protocol)
    requires forall a :: a in w.rows ==> a.port != p.port || a.protocol != p.protocol
    ensures FirstMatch(w.rules, p) == Undecided
  {
    hide Tagged;
    IdleRulesDoNotMatter(w.rules, IsTagged(Tags), p);
    NoRowDecides(w.rows, p);
  }

  /** The port exposed once more with each of the lists, in turn. */
  function ExposedAll(w: World, port: int, protocol: Protocol, lists: seq<seq<Cidr>>): World {
    if lists == [] then w
    else Exposed(ExposedAll(w, port, protocol, lists[..|lists| - 1]), port, protocol, lists[|lists| - 1])
  }

  /** What a chain decides it still decides after rules are appended. */
  lemma {:induction false} DecidedStaysDecided(w: World, port: int, protocol: Protocol, lists: seq<seq<Cidr>>, p: Packet)
    requires FirstMatch(w.rules, p) != Undecided
    ensures FirstMatch(ExposedAll(w, port, protocol, lists).rules, p) == FirstMatch(w.rules, p)
    decreases |lists|
  {
    hide FirstMatch, RulesOf, Find;
    if lists != [] {
      var before := ExposedAll(w, port, protocol, lists[..|lists| - 1]);
      DecidedStaysDecided(w, port, protocol, lists[..|lists| - 1], p);
      FirstMatchAppend(before.rules, RulesOf(Upserted(before, port, protocol, lists[|lists| - 1]).0), p);
    }
  }

  /**
   Exposing a managed port again appends to the rules already there, whose drop rule
   comes first: however often it is done, the verdicts stay those of the old networks.
   */
  lemma RepeatedExposeChangesNoVerdict(w: World, a: Acl, lists: seq<seq<Cidr>>, p: Packet)
    requires TableInv(w) && Synced(w) && a in w.rows && p.port == a.port && p.protocol == a.protocol
    requires ForeignStandAside(w.rules, a.port, a.protocol)
    ensures FirstMatch(ExposedAll(w, a.port, a.protocol, lists).rules, p) == if Allows(a.cidrs, p.src) then Accepted else Dropped
  {
    ManagedPortVerdict(w, a, p);
    DecidedStaysDecided(w, a.port, a.protocol, lists, p);
  }

  /** So the last of the lists takes effect exactly if it allows the same sources as the first networks. */
  lemma RepeatedExposeWorksIff(w: World, a: Acl, lists: seq<seq<Cidr>>, cidrs: seq<Cidr>)
    requires TableInv(w) && Synced(w) && a in w.rows
    requires ForeignStandAside(w.rules, a.port, a.protocol)
    ensures (forall src: nat :: FirstMatch(ExposedAll(w, a.port, a.protocol, lists + [cidrs]).rules, Packet(a.protocol, a.port, src))
                             == if Allows(cidrs, src) then Accepted else Dropped)
       <==> (forall src: nat :: Allows(cidrs, src) <==> Allows(a.cidrs, src))
  {
    hide Allows, FirstMatch, ForeignStandAside, ExposedAll, Synced, TableInv;
    forall src: nat
      ensures FirstMatch(ExposedAll(w, a.port, a.protocol, lists + [cidrs]).rules, Packet(a.protocol, a.port, src))
           == if Allows(a.cidrs, src) then Accepted else Dropped
    {
      RepeatedExposeChangesNoVerdict(w, a, lists + [cidrs], Packet(a.protocol, a.port, src));
    }
  }

  // ---- Runs ----

  /**
   The operations and how they end: whether the row was written or deleted, how many of
   its rules the kernel took, and which rules a removal left.
   */
  datatype Op =
    | ExposeOp(port: int, protocol: Protocol, cidrs: seq<Cidr>, written: bool, laid: nat)
    | RevokeOp(port: int, protocol: Protocol, deleted: bool, left: Rules)
    | ReapplyOp(after: Rules)

  /** One removal after the other, each of which may leave tagged rules. */
  ghost predicate ThinnedAll(rules: Rules, rows: seq<Acl>, left: Rules)
    decreases |rows|
  {
    if rows == [] then left == rules
    else exists most :: ThinnedAll(rules, Front(rows), most) && Thinned(most, left, Tags(rows[|rows| - 1].id))
  }

  function Front(rows: seq<Acl>): seq<Acl>
    requires rows != []
  {
    rows[..|rows| - 1]
  }

  /** ReapplyAll: nothing if the table cannot be read; else removals, then rows applied until the kernel refuses. */
  ghost predicate Reapplies(w: World, after: Rules) {
    || after == w.rules
    || exists left, m: nat, k: nat :: ThinnedAll(w.rules, w.rows, left) && AppliedPart(w.rows, left, m, k, after)
  }

  ghost predicate AppliedPart(rows: seq<Acl>, left: Rules, m: nat, k: nat, after: Rules) {
    && m <= |rows| && (if m < |rows| then k < |RulesOf(rows[m])| else k == 0)
    && after == left + RulesOfAll(rows[..m]) + (if m < |rows| then RulesOf(rows[m])[..k] else [])
  }

  ghost predicate Possible(w: World, op: Op) {
    match op
    case ExposeOp(port, protocol, cidrs, _, laid) => laid <= |RulesOf(Upserted(w, port, protocol, cidrs).0)|
    case RevokeOp(port, protocol, _, left) =>
      var at := Find(w.rows, port, protocol);
      at.Some? ==> at.value < |w.rows| && Thinned(w.rules, left, Tags(w.rows[at.value].id))
    case ReapplyOp(after) => Reapplies(w, after)
  }

  function Step(w: World, op: Op): World {
    match op
    case ExposeOp(port, protocol, cidrs, written, laid) =>
      var (a, v) := Upserted(w, port, protocol, cidrs);
      if !written then w
      else v.(rules := v.rules + if laid <= |RulesOf(a)| then RulesOf(a)[..laid] else RulesOf(a))
    case RevokeOp(port, protocol, deleted, left) =>
      FindFinds(w.rows, port, protocol);
      var at := Find(w.rows, port, protocol);
      if at.None? then w
      else w.(rows := if deleted then w.rows[..at.value] + w.rows[at.value + 1..] else w.rows, rules := left)
    case ReapplyOp(after) => w.(rules := after)
  }

  function Run(w: World, ops: seq<Op>): World {
    if ops == [] then w else Step(Run(w, ops[..|ops| - 1]), ops[|ops| - 1])
  }

  ghost predicate PossibleRun(w: World, ops: seq<Op>) {
    forall i :: 0 <= i < |ops| ==> Possible(Run(w, ops[..i]), ops[i])
  }

  /** No rule carries a tag of an id that is still to be given out. */
  ghost predicate NoFutureTags(w: World) {
    forall l, id: nat :: l in w.rules && HasTag(l, Tags(id)) ==> id < w.nextId
  }

  ghost predicate Inv(w: World) {
    TableInv(w) && NoFutureTags(w)
  }

  /** Revoke deletes the row although a rule that only this row owns was not removed. */
  ghost predicate Orphaning(w: World, op: Op) {
    op.RevokeOp? && op.deleted &&
    (var at := Find(w.rows, op.port, op.protocol);
     && at.Some? && at.value < |w.rows|
     && exists l :: l in op.left && HasTag(l, Tags(w.rows[at.value].id))
                 && !Owned(l, Ids(w.rows[..at.value] + w.rows[at.value + 1..]), Tags))
  }

  lemma StillOwned(l: Line<Body>, rows: seq<Acl>, i: nat)
    requires i < |rows| && Owned(l, Ids(rows), Tags) && !HasTag(l, Tags(rows[i].id))
    ensures Owned(l, Ids(rows[..i] + rows[i + 1..]), Tags)
  {
    var left := rows[..i] + rows[i + 1..];
    OwnedByRow(l, rows);
    OwnedByRow(l, left);
    hide HasTag, Owned, Tags, Ids;
    var k :| 0 <= k < |rows| && HasTag(l, Tags(rows[k].id));
    assert left[if k < i then k else k - 1] == rows[k];
  }

  // One step: the table, the tags in use, the orphans, the foreign rules.

  lemma StepKeepsTable(w: World, op: Op)
    requires TableInv(w)
    ensures TableInv(Step(w, op))
  {
    hide TableInv, Find, RulesOf, Filter;
    match op
    case ExposeOp(port, protocol, cidrs, written, _) =>
      ExposeKeepsTable(w, port, protocol, cidrs);
      SameTable(if written then Exposed(w, port, protocol, cidrs) else w, Step(w, op));
    case RevokeOp(port, protocol, deleted, _) =>
      RevokeKeepsTable(w, port, protocol);
      SameTable(if deleted then Revoked(w, port, protocol) else w, Step(w, op));
    case ReapplyOp(_) => SameTable(w, Step(w, op));
  }

  lemma SameTable(w: World, v: World)
    requires TableInv(w) && v.rows == w.rows && v.nextId == w.nextId
    ensures TableInv(v)
  {
  }

  lemma {:induction false} ThinnedAllMembers(rules: Rules, rows: seq<Acl>, left: Rules, l: Line<Body>)
    requires ThinnedAll(rules, rows, left)
    ensures l in left ==> l in rules
    ensures l in rules && !Owned(l, Ids(rows), Tags) ==> l in left
    decreases |rows|
  {
    hide HasTag, Tags, Owned;
    if rows != [] {
      var n := |rows| - 1;
      var most :| ThinnedAll(rules, Front(rows), most) && Thinned(most, left, Tags(rows[n].id));
      ThinnedAllMembers(rules, rows[..n], most, l);
      OwnedByRow(l, rows);
      OwnedByRow(l, rows[..n]);
      assert HasTag(l, Tags(rows[n].id)) ==> Owned(l, Ids(rows), Tags);
      assert Owned(l, Ids(rows[..n]), Tags) ==> Owned(l, Ids(rows), Tags) by {
        if Owned(l, Ids(rows[..n]), Tags) {
          var i :| 0 <= i < n && HasTag(l, Tags(rows[..n][i].id));
          assert HasTag(l, Tags(rows[i].id));
        }
      }
      ThinnedKeepsOthers(most, left, Tags(rows[n].id), l);
    }
  }

  lemma ThinnedKeepsOthers(before: Rules, after: Rules, tags: seq<string>, l: Line<Body>)
    requires Thinned(before, after, tags)
    ensures l in after ==> l in before
    ensures l in before && !HasTag(l, tags) ==> l in after
  {
    hide Thinned;
    if l in after {
      ThinnedMembers(before, after, tags, l);
    }
    ThinnedSelects(before, after, tags, Untagged<Body>(tags));
    FilterMembers(before, Untagged<Body>(tags));
    FilterMembers(after, Untagged<Body>(tags));
  }

  /** What a step may add to the chain, and what it may take away. */
  lemma StepRules(w: World, op: Op, l: Line<Body>)
    requires Possible(w, op)
    ensures l in Step(w, op).rules && l !in w.rules ==> exists a :: a in Step(w, op).rows && l in RulesOf(a)
    ensures l in w.rules && !Owned(l, Ids(w.rows), Tags) ==> l in Step(w, op).rules
  {
    hide RulesOf, Owned, Tags, HasTag, RulesOfAll;
    match op
    case ExposeOp(port, protocol, cidrs, written, laid) =>
      FindFinds(w.rows, port, protocol);
      var (a, v) := Upserted(w, port, protocol, cidrs);
      assert v.rows[match Find(w.rows, port, protocol) case Some(i) => i case None => |w.rows|] == a;
    case RevokeOp(port, protocol, deleted, left) =>
      FindFinds(w.rows, port, protocol);
      var at := Find(w.rows, port, protocol);
      if at.Some? {
        ThinnedKeepsOthers(w.rules, left, Tags(w.rows[at.value].id), l);
        OwnedByRow(l, w.rows);
      }
    case ReapplyOp(after) => ReapplyRules(w, after, l);
  }

  lemma ReapplyRules(w: World, after: Rules, l: Line<Body>)
    requires Reapplies(w, after)
    ensures l in after && l !in w.rules ==> exists a :: a in w.rows && l in RulesOf(a)
    ensures l in w.rules && !Owned(l, Ids(w.rows), Tags) ==> l in after
  {
    hide RulesOf, Owned, Tags, RulesOfAll;
    if after != w.rules {
      var left, m: nat, k: nat :| ThinnedAll(w.rules, w.rows, left) && AppliedPart(w.rows, left, m, k, after);
      ThinnedAllMembers(w.rules, w.rows, left, l);
      if l in after && l !in left {
        if l in RulesOfAll(w.rows[..m]) {
          RulesOfAllOwned(w.rows[..m], l);
          var a :| a in w.rows[..m] && l in RulesOf(a);
          assert a in w.rows;
        } else {
          assert w.rows[m] in w.rows;
        }
      }
    }
  }

  lemma StepKeepsTags(w: World, op: Op)
    requires Inv(w) && Possible(w, op)
    ensures NoFutureTags(Step(w, op))
  {
    StepKeepsTable(w, op);
    var v := Step(w, op);
    assert v.nextId >= w.nextId;
    hide Step, Possible, HasTag, Tags;
    forall l, id: nat | l in v.rules && HasTag(l, Tags(id)) ensures id < v.nextId {
      StepRules(w, op, l);
      if l !in w.rules {
        var a :| a in v.rows && l in RulesOf(a);
        TagsFindOneRow(a, l, id);
      }
    }
  }

  /** An orphan: a rule with a tag, but not with that of a row. */
  ghost predicate IsOrphan(w: World, l: Line<Body>) {
    l in w.rules && Tagged(l, Tags) && !Owned(l, Ids(w.rows), Tags)
  }

  lemma NoOrphansIs(w: World)
    ensures NoOrphans(w) <==> forall l :: !IsOrphan(w, l)
  {
    if NoOrphans(w) {
      forall l ensures !IsOrphan(w, l) {
      }
    } else {
      var l :| l in w.rules && Tagged(l, Tags) && !Owned(l, Ids(w.rows), Tags);
      assert IsOrphan(w, l);
    }
  }

  /** Rows keep their ids, a new one has a new id, and only Revoke lets one go. */
  lemma StepOwners(w: World, op: Op, l: Line<Body>)
    requires Inv(w) && l in w.rules
    ensures Owned(l, Ids(Step(w, op).rows), Tags) ==> Owned(l, Ids(w.rows), Tags)
    ensures Owned(l, Ids(w.rows), Tags) && !(op.RevokeOp? && op.deleted) ==> Owned(l, Ids(Step(w, op).rows), Tags)
  {
    var v := Step(w, op);
    OwnedByRow(l, w.rows);
    OwnedByRow(l, v.rows);
    hide HasTag, Tags, Owned;
    match op
    case ExposeOp(port, protocol, cidrs, written, _) =>
      FindFinds(w.rows, port, protocol);
      if written {
        assert |v.rows| >= |w.rows| && forall i :: 0 <= i < |w.rows| ==> v.rows[i].id == w.rows[i].id;
        if i :| 0 <= i < |v.rows| && HasTag(l, Tags(v.rows[i].id)) {
          assert i < |w.rows|;
        }
        if i :| 0 <= i < |w.rows| && HasTag(l, Tags(w.rows[i].id)) {
          assert HasTag(l, Tags(v.rows[i].id));
        }
      }
    case RevokeOp(port, protocol, deleted, _) =>
      FindFinds(w.rows, port, protocol);
      var at := Find(w.rows, port, protocol);
      if at.Some? && deleted {
        CutOut(w.rows, at.value);
      }
    case ReapplyOp(_) =>
  }

  /** Once there, an orphan stays: no operation has its tag to look for. */
  lemma OrphansStay(w: World, op: Op, l: Line<Body>)
    requires Inv(w) && Possible(w, op) && IsOrphan(w, l)
    ensures IsOrphan(Step(w, op), l)
  {
    StepRules(w, op, l);
    StepOwners(w, op, l);
  }

  /** And only an orphaning step makes one. */
  lemma OrphansAreMade(w: World, op: Op)
    requires Inv(w) && Possible(w, op) && NoOrphans(w)
    ensures NoOrphans(Step(w, op)) <==> !Orphaning(w, op)
  {
    NoOrphansIs(w);
    NoOrphansIs(Step(w, op));
    hide NoOrphans;
    if Orphaning(w, op) {
      OrphaningMakesOne(w, op);
    } else {
      forall l ensures !IsOrphan(Step(w, op), l) {
        assert !IsOrphan(w, l);
        NoNewOrphan(w, op, l);
      }
    }
  }

  lemma OrphaningMakesOne(w: World, op: Op)
    requires Orphaning(w, op)
    ensures exists l :: IsOrphan(Step(w, op), l)
  {
    hide HasTag, Tags, Owned, Ids;
    var at := Find(w.rows, op.port, op.protocol);
    var l :| l in op.left && HasTag(l, Tags(w.rows[at.value].id))
             && !Owned(l, Ids(w.rows[..at.value] + w.rows[at.value + 1..]), Tags);
    assert Tagged(l, Tags);
    assert IsOrphan(Step(w, op), l);
  }

  lemma OwnRowOwns(rows: seq<Acl>, a: Acl, l: Line<Body>)
    requires a in rows && l in RulesOf(a)
    ensures Owned(l, Ids(rows), Tags)
  {
    TagsFindOneRow(a, l, a.id);
    hide HasTag, Tags, RulesOf;
    OwnedByRow(l, rows);
    var k :| 0 <= k < |rows| && rows[k] == a;
    assert HasTag(l, Tags(rows[k].id));
  }

  lemma NoNewOrphan(w: World, op: Op, l: Line<Body>)
    requires Inv(w) && Possible(w, op) && !IsOrphan(w, l) && !Orphaning(w, op)
    ensures !IsOrphan(Step(w, op), l)
  {
    var v := Step(w, op);
    hide HasTag, Tags, Owned, Tagged, RulesOf, TableInv, Ids;
    if l in v.rules && Tagged(l, Tags) {
      StepRules(w, op, l);
      if l !in w.rules {
        var a :| a in v.rows && l in RulesOf(a);
        OwnRowOwns(v.rows, a, l);
      } else if op.RevokeOp? && op.deleted {
        FindFinds(w.rows, op.port, op.protocol);
        var at := Find(w.rows, op.port, op.protocol);
        if at.Some? && !HasTag(l, Tags(w.rows[at.value].id)) {
          StillOwned(l, w.rows, at.value);
        }
      } else {
        StepOwners(w, op, l);
      }
    }
  }

  lemma {:induction false} RunsKeepInv(w: World, ops: seq<Op>)
    requires Inv(w) && PossibleRun(w, ops)
    ensures Inv(Run(w, ops))
    decreases |ops|
  {
    if ops != [] {
      var n := |ops| - 1;
      PossiblePrefix(w, ops);
      RunsKeepInv(w, ops[..n]);
      hide Step, Possible, TableInv, NoFutureTags;
      StepKeepsTable(Run(w, ops[..n]), ops[n]);
      StepKeepsTags(Run(w, ops[..n]), ops[n]);
    }
  }

  lemma PossiblePart(w: World, ops: seq<Op>, n: nat)
    requires PossibleRun(w, ops) && n <= |ops|
    ensures PossibleRun(w, ops[..n])
  {
    hide Possible, Run;
    forall i | 0 <= i < n ensures Possible(Run(w, ops[..n][..i]), ops[..n][i]) {
      assert ops[..n][..i] == ops[..i] && ops[..n][i] == ops[i];
    }
  }

  lemma PossiblePrefix(w: World, ops: seq<Op>)
    requires PossibleRun(w, ops) && ops != []
    ensures PossibleRun(w, ops[..|ops| - 1]) && Possible(Run(w, ops[..|ops| - 1]), ops[|ops| - 1])
  {
    hide Possible, Run;
    PossiblePart(w, ops, |ops| - 1);
  }

  ghost predicate NeverOrphaning(w: World, ops: seq<Op>) {
    forall i :: 0 <= i < |ops| ==> !Orphaning(Run(w, ops[..i]), ops[i])
  }

  lemma {:induction false} OrphansIffMade(w: World, ops: seq<Op>)
    requires Inv(w) && NoOrphans(w) && PossibleRun(w, ops)
    ensures NoOrphans(Run(w, ops)) <==> NeverOrphaning(w, ops)
    decreases |ops|
  {
    if ops != [] {
      var n := |ops| - 1;
      var before, op := Run(w, ops[..n]), ops[n];
      PossiblePrefix(w, ops);
      RunsKeepInv(w, ops[..n]);
      OrphansIffMade(w, ops[..n]);
      NeverOrphaningSnoc(w, ops);
      hide Step, Possible, Inv, NoOrphans, Orphaning, NeverOrphaning;
      if NoOrphans(before) {
        OrphansAreMade(before, op);
      } else {
        NoOrphansIs(before);
        NoOrphansIs(Step(before, op));
        var l :| IsOrphan(before, l);
        OrphansStay(before, op, l);
      }
    }
  }

  lemma NeverOrphaningSnoc(w: World, ops: seq<Op>)
    requires ops != []
    ensures NeverOrphaning(w, ops) <==>
              NeverOrphaning(w, ops[..|ops| - 1]) && !Orphaning(Run(w, ops[..|ops| - 1]), ops[|ops| - 1])
  {
    hide Orphaning, Run;
    var n := |ops| - 1;
    forall i | 0 <= i < n ensures ops[..n][..i] == ops[..i] && ops[..n][i] == ops[i] {
    }
    if NeverOrphaning(w, ops[..n]) && !Orphaning(Run(w, ops[..n]), ops[n]) {
      forall i | 0 <= i < |ops| ensures !Orphaning(Run(w, ops[..i]), ops[i]) {
        assert i < n ==> !Orphaning(Run(w, ops[..n][..i]), ops[..n][i]);
      }
    }
    if NeverOrphaning(w, ops) {
      forall i | 0 <= i < n ensures !Orphaning(Run(w, ops[..n][..i]), ops[..n][i]) {
        assert !Orphaning(Run(w, ops[..i]), ops[i]);
      }
    }
  }

  /**
   After any run, with any faults, an exact replay brings table and chain to agree if and
   only if no Revoke of the run deleted its row while a rule of the row was left behind.
   */
  lemma ReapplySyncsUnlessOrphaned(w: World, ops: seq<Op>)
    requires Inv(w) && NoOrphans(w) && PossibleRun(w, ops)
    ensures Synced(Reapplied(Run(w, ops))) <==> NeverOrphaning(w, ops)
  {
    OrphansIffMade(w, ops);
    ReapplySyncsIff(Run(w, ops));
  }

  lemma OneRowSynced(a: Acl)
    ensures TableInv(World([a], a.id + 1, RulesOf(a))) && Synced(World([a], a.id + 1, RulesOf(a)))
  {
    AddingRules([], a);
    RulesOfAllSnoc([], a);
    hide RulesOf, Tags;
    assert [] + RulesOf(a) == RulesOf(a) && [] + [a] == [a];
    assert Filter<Line<Body>>([], IsTagged(Tags)) == [] && RulesOfAll([]) == [];
  }

  /** A Revoke whose removal fails while its row goes: no replay ever removes what is left. */
  lemma FailedRemovalLeavesOrphans(a: Acl)
    ensures var w := World([a], a.id + 1, RulesOf(a));
            var op := RevokeOp(a.port, a.protocol, true, RulesOf(a));
            TableInv(w) && Synced(w) && Possible(w, op) && Orphaning(w, op) && !Synced(Reapplied(Step(w, op)))
  {
    OneRowSynced(a);
    var w := World([a], a.id + 1, RulesOf(a));
    var op := RevokeOp(a.port, a.protocol, true, RulesOf(a));
    ThinnedRefl(w.rules, Tags(a.id));
    var l := LastRule(a);
    TagsFindOneRow(a, l, a.id);
    assert Find(w.rows, a.port, a.protocol) == Some(0);
    hide RulesOf, Thinned, HasTag, Tags, RulesOfAll, Synced, TableInv, Find, Reapplied, NoOrphans, Filter;
    assert Ids(w.rows[..0] + w.rows[1..]) == [];
    assert !Owned(l, [], Tags);
    assert Orphaning(w, op);
    OrphaningMakesOne(w, op);
    NoOrphansIs(Step(w, op));
    ReapplySyncsIff(Step(w, op));
  }

  lemma LastRule(a: Acl) returns (l: Line<Body>)
    ensures l in RulesOf(a)
  {
    l := RulesOf(a)[|RulesOf(a)| - 1];
  }

  /**
   Nor does a replay that reports no error mean an exact one: removals fail silently, and
   then the rules of the rows are there twice.  FullReplaySyncsIff says when it is exact.
   */
  lemma SilentReplayMayDouble(w: World)
    requires Synced(w) && w.rows != []
    ensures Possible(w, ReapplyOp(w.rules + RulesOfAll(w.rows)))
    ensures AppliedPart(w.rows, w.rules, |w.rows|, 0, w.rules + RulesOfAll(w.rows))
    ensures !Synced(Step(w, ReapplyOp(w.rules + RulesOfAll(w.rows))))
  {
    var all, after := RulesOfAll(w.rows), w.rules + RulesOfAll(w.rows);
    assert w.rows[..|w.rows|] == w.rows;
    assert after + [] == after;
    AllThinnedRefl(w.rules, w.rows);
    assert AppliedPart(w.rows, w.rules, |w.rows|, 0, after);
    forall l | l in all ensures Tagged(l, Tags) {
      GeneratedRules(w.rows, l);
    }
    AddingTagged(w.rules, all, Tags);
    assert |RulesOf(w.rows[0])| > 0;
  }

  lemma {:induction false} AllThinnedRefl(rules: Rules, rows: seq<Acl>)
    ensures ThinnedAll(rules, rows, rules)
    decreases |rows|
  {
    if rows != [] {
      AllThinnedRefl(rules, Front(rows));
      ThinnedRefl(rules, Tags(rows[|rows| - 1].id));
    }
  }

  // ---- Runs that stay in agreement ----

  /**
   A first Expose laid down in full; a repeated one that changes nothing; a Revoke in which
   row and rules both go or both stay; an exact replay; or a step that does nothing.
   */
  ghost predicate Agreeable(w: World, op: Op) {
    match op
    case ExposeOp(port, protocol, cidrs, written, laid) =>
      !written ||
      (match Find(w.rows, port, protocol)
       case None => laid == |RulesOf(Upserted(w, port, protocol, cidrs).0)|
       case Some(i) => laid == 0 && i < |w.rows| && cidrs == w.rows[i].cidrs)
    case RevokeOp(port, protocol, deleted, left) =>
      var at := Find(w.rows, port, protocol);
      at.None? || (at.value < |w.rows| && left == if deleted then Filter(w.rules, Untagged(Tags(w.rows[at.value].id))) else w.rules)
    case ReapplyOp(after) => after == w.rules || after == Reapplied(w).rules
  }

  lemma AgreeableStep(w: World, op: Op)
    requires TableInv(w) && Synced(w) && Possible(w, op) && Agreeable(w, op)
    ensures Synced(Step(w, op))
  {
    hide TableInv, Synced, Filter;
    match op
    case ExposeOp(port, protocol, cidrs, written, laid) =>
      if written && Find(w.rows, port, protocol).Some? {
        RepeatedExposeSyncsIff(w, op);
      } else if written {
        FirstExposeKeepsSync(w, port, protocol, cidrs);
        var a := Upserted(w, port, protocol, cidrs).0;
        assert RulesOf(a)[..|RulesOf(a)|] == RulesOf(a);
      }
    case RevokeOp(port, protocol, deleted, left) =>
      RevokeKeepsSync(w, port, protocol);
    case ReapplyOp(after) =>
      SyncedHasNoOrphans(w);
      ReapplySyncsIff(w);
  }

  /** A Revoke that finds its row keeps the agreement if and only if it is agreeable. */
  lemma RevokeSyncsIff(w: World, op: Op)
    requires TableInv(w) && Synced(w) && op.RevokeOp? && Possible(w, op)
    ensures Synced(Step(w, op)) <==> Agreeable(w, op)
  {
    FindFinds(w.rows, op.port, op.protocol);
    var at := Find(w.rows, op.port, op.protocol);
    if Agreeable(w, op) {
      AgreeableStep(w, op);
    } else {
      var i := at.value;
      var id, own := w.rows[i].id, RulesOf(w.rows[i]);
      assert w.rows == w.rows[..i] + [w.rows[i]] + w.rows[i + 1..];
      if Synced(Step(w, op)) {
        if op.deleted {
          OthersHaveOtherIds(w, i);
          OwnRulesAreGone(w.rules, op.left, w.rows[..i] + w.rows[i + 1..], id);
        } else {
          ThinnedToAll(w.rules, op.left, Tags(id), IsTagged(Tags));
        }
      }
    }
  }

  /** So does a first Expose: exactly if nothing was written, or everything laid down. */
  lemma FirstExposeSyncsIff(w: World, op: Op)
    requires TableInv(w) && Synced(w) && op.ExposeOp? && Possible(w, op) && Find(w.rows, op.port, op.protocol).None?
    ensures Synced(Step(w, op)) <==> Agreeable(w, op)
  {
    if Agreeable(w, op) {
      AgreeableStep(w, op);
    } else {
      var a := Acl(w.nextId, op.port, op.protocol, op.cidrs);
      PartTagged(w.rules, a, op.laid);
      RulesOfAllSnoc(w.rows, a);
    }
  }

  lemma PartTagged(rules: Rules, a: Acl, k: nat)
    requires k <= |RulesOf(a)|
    ensures Filter(rules + RulesOf(a)[..k], IsTagged(Tags)) == Filter(rules, IsTagged(Tags)) + RulesOf(a)[..k]
  {
    forall l | l in RulesOf(a)[..k] ensures Tagged(l, Tags) {
      TagsFindOneRow(a, l, a.id);
    }
    AddingTagged(rules, RulesOf(a)[..k], Tags);
  }

  /** A repeated Expose keeps it only if it changes nothing: the same networks, and no rule laid down. */
  lemma RepeatedExposeSyncsIff(w: World, op: Op)
    requires TableInv(w) && Synced(w) && op.ExposeOp? && Possible(w, op) && op.written
    requires Find(w.rows, op.port, op.protocol).Some?
    ensures var at := Find(w.rows, op.port, op.protocol).value;
            at < |w.rows| && (Synced(Step(w, op)) <==> op.laid == 0 && op.cidrs == w.rows[at].cidrs)
  {
    FindFinds(w.rows, op.port, op.protocol);
    RepeatedAt(w, op, Find(w.rows, op.port, op.protocol).value);
    hide Synced, Step, Find, Possible, TableInv;
  }

  lemma RepeatedAt(w: World, op: Op, i: nat)
    requires TableInv(w) && Synced(w) && op.ExposeOp? && op.written && Possible(w, op)
    requires i < |w.rows| && Find(w.rows, op.port, op.protocol) == Some(i)
    ensures Synced(Step(w, op)) <==> op.laid == 0 && op.cidrs == w.rows[i].cidrs
  {
    hide *;
    var a, before, after := w.rows[i], w.rows[..i], w.rows[i + 1..];
    var b := a.(cidrs := op.cidrs);
    OthersHaveOtherIds(w, i);
    assert forall c :: c in after ==> c in before + after;
    ExposedAgain(w, op, i);
    AroundRow(before, a, after);
    AroundRow(before, b, after);
    assert w.rows == before + [a] + after && w.rows[i := b] == before + [b] + after;
    TheSameRules(RulesOfAll(before), a, b, after, op.laid);
  }

  lemma ExposedAgain(w: World, op: Op, i: nat)
    requires Synced(w) && op.ExposeOp? && op.written && Possible(w, op)
    requires i < |w.rows| && Find(w.rows, op.port, op.protocol) == Some(i)
    ensures var b := w.rows[i].(cidrs := op.cidrs);
            && op.laid <= |RulesOf(b)|
            && (Synced(Step(w, op)) <==> RulesOfAll(w.rows) + RulesOf(b)[..op.laid] == RulesOfAll(w.rows[i := b]))
  {
    hide Find, RulesOf, RulesOfAll, Filter;
    PartTagged(w.rules, w.rows[i].(cidrs := op.cidrs), op.laid);
  }

  lemma AroundRow(before: seq<Acl>, a: Acl, after: seq<Acl>)
    ensures RulesOfAll(before + [a] + after) == RulesOfAll(before) + RulesOf(a) + RulesOfAll(after)
  {
    hide RulesOf;
    RulesOfAllAppend(before + [a], after);
    RulesOfAllSnoc(before, a);
  }

  lemma TheSameRules(front: Rules, a: Acl, b: Acl, after: seq<Acl>, k: nat)
    requires b == a.(cidrs := b.cidrs) && k <= |RulesOf(b)| && forall c :: c in after ==> c.id != a.id
    ensures front + RulesOf(a) + RulesOfAll(after) + RulesOf(b)[..k] == front + RulesOf(b) + RulesOfAll(after)
       <==> k == 0 && a.cidrs == b.cidrs
  {
    var A, B, Y := RulesOf(a), RulesOf(b), RulesOfAll(after);
    var left, right := front + A + Y + B[..k], front + B + Y;
    if k > 0 {
      if |left| == |right| {
        if Y != [] {
          NotOfOthers(after, b, B[k - 1]);
          assert left[|left| - 1] == B[k - 1] && right[|right| - 1] == Y[|Y| - 1];
        } else {
          var m := |front| + |A| - 1;
          assert left[m] == A[|A| - 1] && right[m] == B[|A| - 1];
        }
      }
    } else if left == right {
      assert |a.cidrs| == |b.cidrs|;
      assert forall x :: 0 <= x < |a.cidrs| ==> left[|front| + x] == A[x] && right[|front| + x] == B[x];
      assert forall x :: 0 <= x < |a.cidrs| ==> A[x].body.Allow? && A[x].body.src == a.cidrs[x];
      assert forall x :: 0 <= x < |a.cidrs| ==> B[x].body.Allow? && B[x].body.src == b.cidrs[x];
    } else {
      assert B[..0] == [];
    }
  }

  lemma NotOfOthers(rows: seq<Acl>, b: Acl, l: Line<Body>)
    requires l in RulesOf(b) && forall c :: c in rows ==> c.id != b.id
    ensures l !in RulesOfAll(rows)
  {
    if l in RulesOfAll(rows) {
      RulesOfAllOwned(rows, l);
      var c :| c in rows && l in RulesOf(c);
      TagsFindOneRow(b, l, b.id);
      TagsFindOneRow(c, l, b.id);
    }
  }

  /** If the tagged rules left are those of rows with other ids, all rules of the id are gone. */
  lemma OwnRulesAreGone(rules: Rules, left: Rules, rows: seq<Acl>, id: nat)
    requires Thinned(rules, left, Tags(id)) && Filter(left, IsTagged(Tags)) == RulesOfAll(rows)
    requires forall b :: b in rows ==> b.id != id
    ensures left == Filter(rules, Untagged(Tags(id)))
  {
    hide Thinned, RulesOfAll, RulesOf, Tags, HasTag;
    forall l | l in left ensures !HasTag(l, Tags(id)) {
      if HasTag(l, Tags(id)) {
        FilterMembers(left, IsTagged(Tags));
        assert Tagged(l, Tags);
        RulesOfAllOwned(rows, l);
        var a :| a in rows && l in RulesOf(a);
        TagsFindOneRow(a, l, id);
        assert false;
      }
    }
    ThinnedToNone(rules, left, Tags(id));
  }

  // Which replays bring agreement.

  lemma {:induction false} ThinnedAllSelects(rules: Rules, rows: seq<Acl>, left: Rules, p: Line<Body> -> bool)
    requires ThinnedAll(rules, rows, left)
    requires forall l, i :: 0 <= i < |rows| && p(l) ==> !HasTag(l, Tags(rows[i].id))
    ensures Filter(left, p) == Filter(rules, p)
    decreases |rows|
  {
    hide HasTag, Tags, Thinned, Filter;
    if rows != [] {
      var most :| ThinnedAll(rules, Front(rows), most) && Thinned(most, left, Tags(rows[|rows| - 1].id));
      ThinnedAllSelects(rules, Front(rows), most, p);
      ThinnedSelects(most, left, Tags(rows[|rows| - 1].id), p);
    }
  }

  /** If as many tagged rules are left as there were, no removal removed any. */
  lemma {:induction false} ThinnedAllCounts(rules: Rules, rows: seq<Acl>, left: Rules)
    requires ThinnedAll(rules, rows, left)
    ensures |Filter(left, IsTagged(Tags))| <= |Filter(rules, IsTagged(Tags))|
    ensures |Filter(left, IsTagged(Tags))| == |Filter(rules, IsTagged(Tags))| ==> left == rules
    decreases |rows|
  {
    hide HasTag, Tags, Thinned, Filter;
    if rows != [] {
      var tags := Tags(rows[|rows| - 1].id);
      var most :| ThinnedAll(rules, Front(rows), most) && Thinned(most, left, tags);
      ThinnedAllCounts(rules, Front(rows), most);
      ThinnedCounts(most, left, tags, IsTagged(Tags));
      if |Filter(left, IsTagged(Tags))| == |Filter(rules, IsTagged(Tags))| {
        ThinnedToAll(most, left, tags, IsTagged(Tags));
      }
    }
  }

  lemma RowTags(l: Line<Body>, rows: seq<Acl>)
    requires NotOwned<Body>(Ids(rows), Tags)(l)
    ensures forall i :: 0 <= i < |rows| ==> !HasTag(l, Tags(rows[i].id))
  {
    hide HasTag, Tags;
    assert forall i :: 0 <= i < |rows| ==> Ids(rows)[i] == rows[i].id;
  }

  /** The removals left no tagged rule: there was no orphan, and they were exact. */
  lemma NoneLeftIff(w: World, left: Rules)
    requires ThinnedAll(w.rules, w.rows, left)
    ensures (forall l :: l in left ==> !Tagged(l, Tags)) <==>
              NoOrphans(w) && left == Filter(w.rules, NotOwned(Ids(w.rows), Tags))
  {
    var unowned := NotOwned<Body>(Ids(w.rows), Tags);
    forall l, i | 0 <= i < |w.rows| && unowned(l) ensures !HasTag(l, Tags(w.rows[i].id)) {
      RowTags(l, w.rows);
    }
    hide HasTag, Tags, Tagged, Owned, Filter, ThinnedAll;
    ThinnedAllSelects(w.rules, w.rows, left, unowned);
    FilterMembers(w.rules, unowned);
    forall l: Line<Body> ensures Owned(l, Ids(w.rows), Tags) ==> Tagged(l, Tags) {
      OwnedIsTagged(l, Ids(w.rows), Tags);
    }
    if forall l :: l in left ==> !Tagged(l, Tags) {
      forall i | 0 <= i < |left| ensures unowned(left[i]) {
        assert left[i] in left;
      }
      FilterAll(left, unowned);
    }
  }

  lemma TaggedMember(rules: Rules, l: Line<Body>)
    ensures l in Filter(rules, IsTagged(Tags)) <==> l in rules && Tagged(l, Tags)
  {
    FilterMembers(rules, IsTagged(Tags));
  }

  lemma TaggedBehind(rules: Rules, part: Rules)
    requires forall l :: l in part ==> exists a :: l in RulesOf(a)
    ensures Filter(rules + part, IsTagged(Tags)) == Filter(rules, IsTagged(Tags)) + part
  {
    forall l | l in part ensures Tagged(l, Tags) {
      var a :| l in RulesOf(a);
      TagsFindOneRow(a, l, a.id);
    }
    hide HasTag, Tags, Filter, RulesOf, Tagged;
    AddingTagged(rules, part, Tags);
  }

  /**
   A replay that applied every row brings agreement if and only if its removals left no
   tagged rule, that is, if there was no orphan and every removal was exact.
   */
  lemma FullReplaySyncsIff(w: World, left: Rules)
    requires ThinnedAll(w.rules, w.rows, left)
    ensures var v := w.(rules := left + RulesOfAll(w.rows));
            && (Synced(v) <==> forall l :: l in left ==> !Tagged(l, Tags))
            && (Synced(v) <==> NoOrphans(w) && left == Filter(w.rules, NotOwned(Ids(w.rows), Tags)))
  {
    var all, tagged := RulesOfAll(w.rows), Filter(left, IsTagged(Tags));
    NoneLeftIff(w, left);
    forall l | l in all ensures exists a :: l in RulesOf(a) {
      RulesOfAllOwned(w.rows, l);
    }
    hide *;
    TaggedBehind(left, all);
    SyncedIs(w, left + all);
    assert |tagged + all| == |tagged| + |all|;
    if tagged != [] {
      TaggedMember(left, tagged[0]);
    } else {
      forall l | l in left ensures !Tagged(l, Tags) {
        TaggedMember(left, l);
      }
    }
  }

  /** A replay that stopped early never brings agreement, unless it laid nothing and there was agreement without. */
  lemma StoppedReplaySyncsIff(w: World, left: Rules, m: nat, k: nat, after: Rules)
    requires TableInv(w) && AppliedPart(w.rows, left, m, k, after) && m < |w.rows|
    ensures Synced(w.(rules := after)) <==> m == 0 && k == 0 && Synced(w.(rules := left))
  {
    var first, next := RulesOfAll(w.rows[..m]), RulesOf(w.rows[m])[..k];
    var part := first + next;
    forall l | l in part ensures exists a :: l in RulesOf(a) {
      if l in first {
        RulesOfAllOwned(w.rows[..m], l);
      } else {
        assert l in RulesOf(w.rows[m]);
      }
    }
    NothingLaid(w.rows, m, k);
    LastRuleIsMissing(w, m, k);
    hide *;
    TaggedBehind(left, part);
    assert after == left + part;
    LastOfPart(Filter(left, IsTagged(Tags)), part, RulesOfAll(w.rows));
    SyncedIs(w, after);
    SyncedIs(w, left);
  }

  lemma SyncedIs(w: World, rules: Rules)
    ensures Synced(w.(rules := rules)) <==> Filter(rules, IsTagged(Tags)) == RulesOfAll(w.rows)
  {
  }

  lemma LastOfPart(tagged: Rules, part: Rules, all: Rules)
    requires all != [] && all[|all| - 1] !in part
    ensures tagged + part == all ==> part == []
    ensures part == [] ==> tagged + part == tagged
  {
    if part != [] {
      assert (tagged + part)[|tagged + part| - 1] == part[|part| - 1];
    }
  }

  lemma NothingLaid(rows: seq<Acl>, m: nat, k: nat)
    requires m < |rows| && k < |RulesOf(rows[m])|
    ensures RulesOfAll(rows[..m]) + RulesOf(rows[m])[..k] == [] <==> m == 0 && k == 0
  {
    if m > 0 {
      assert RulesOfAll(rows[..m]) == RulesOf(rows[..m][0]) + RulesOfAll(rows[..m][1..]);
    }
  }

  /** The drop rule of the last row stands at the very end, and only there. */
  lemma LastRuleIsMissing(w: World, m: nat, k: nat)
    requires TableInv(w) && m < |w.rows| && k < |RulesOf(w.rows[m])|
    ensures RulesOfAll(w.rows) != []
    ensures RulesOfAll(w.rows)[|RulesOfAll(w.rows)| - 1] !in RulesOfAll(w.rows[..m]) + RulesOf(w.rows[m])[..k]
  {
    var n := |w.rows| - 1;
    var last := w.rows[n];
    var drop := RulesOf(last)[|RulesOf(last)| - 1];
    RulesOfAllSnoc(w.rows[..n], last);
    assert w.rows == w.rows[..n] + [last];
    NotOfOthers(w.rows[..m], last, drop);
    if m == n {
      assert forall i :: 0 <= i < k ==> RulesOf(last)[i].body.Allow?;
    } else if drop in RulesOf(w.rows[m]) {
      TagsFindOneRow(w.rows[m], drop, last.id);
      TagsFindOneRow(last, drop, last.id);
      assert false;
    }
  }

  /** How a replay ends, whatever fails in it: exactly when table and chain agree afterwards. */
  lemma ReplayOutcomeIff(w: World, left: Rules, m: nat, k: nat, after: Rules)
    requires TableInv(w) && ThinnedAll(w.rules, w.rows, left) && AppliedPart(w.rows, left, m, k, after)
    ensures Synced(w.(rules := after)) <==>
              if m == |w.rows| then NoOrphans(w) && left == Filter(w.rules, NotOwned(Ids(w.rows), Tags))
              else m == 0 && k == 0 && Synced(w.(rules := left))
  {
    hide TableInv, ThinnedAll, NoOrphans, RulesOf, RulesOfAll, Filter;
    if m == |w.rows| {
      assert w.rows[..m] == w.rows && after == left + RulesOfAll(w.rows);
      FullReplaySyncsIff(w, left);
    } else {
      StoppedReplaySyncsIff(w, left, m, k, after);
    }
  }

  /** A replay keeps the agreement if and only if it does nothing or is exact. */
  lemma ReplayKeepsSyncIff(w: World, op: Op)
    requires TableInv(w) && Synced(w) && op.ReapplyOp? && Possible(w, op)
    ensures Synced(Step(w, op)) <==> Agreeable(w, op)
  {
    hide TableInv, Reapplied, ThinnedAll, AppliedPart, RulesOfAll, Filter, NoOrphans;
    if Agreeable(w, op) {
      AgreeableStep(w, op);
    } else {
      var left, m: nat, k: nat :| ThinnedAll(w.rules, w.rows, left) && AppliedPart(w.rows, left, m, k, op.after);
      ReplayOutcomeIff(w, left, m, k, op.after);
      ThinnedAllCounts(w.rules, w.rows, left);
      ReplayIs(w, left, m, k, op.after);
    }
  }

  lemma ReplayIs(w: World, left: Rules, m: nat, k: nat, after: Rules)
    requires AppliedPart(w.rows, left, m, k, after)
    ensures m == |w.rows| && left == Filter(w.rules, NotOwned(Ids(w.rows), Tags)) ==> after == Reapplied(w).rules
    ensures m == 0 && k == 0 && m < |w.rows| ==> after == left
  {
    assert m == |w.rows| ==> w.rows[..m] == w.rows;
  }

  /** Whatever fails, a step keeps the agreement if and only if it is agreeable. */
  lemma StepSyncsIff(w: World, op: Op)
    requires TableInv(w) && Synced(w) && Possible(w, op)
    ensures Synced(Step(w, op)) <==> Agreeable(w, op)
  {
    hide TableInv, Synced, Possible, Reapplies;
    match op
    case ExposeOp(port, protocol, cidrs, written, _) =>
      if written && Find(w.rows, port, protocol).Some? {
        RepeatedExposeSyncsIff(w, op);
      } else if written {
        FirstExposeSyncsIff(w, op);
      }
    case RevokeOp(_, _, _, _) => RevokeSyncsIff(w, op);
    case ReapplyOp(_) => ReplayKeepsSyncIff(w, op);
  }

  ghost predicate AllAgreeable(w: World, ops: seq<Op>) {
    forall i :: 0 <= i < |ops| ==> Agreeable(Run(w, ops[..i]), ops[i])
  }

  lemma StepOfRun(w: World, ops: seq<Op>, n: nat)
    requires Inv(w) && PossibleRun(w, ops) && n < |ops| && Synced(Run(w, ops[..n]))
    ensures Synced(Run(w, ops[..n + 1])) <==> Agreeable(Run(w, ops[..n]), ops[n])
  {
    assert ops[..n + 1][..n] == ops[..n];
    PossiblePart(w, ops, n);
    RunsKeepInv(w, ops[..n]);
    hide Step, Agreeable, Synced, Possible, TableInv;
    StepSyncsIff(Run(w, ops[..n]), ops[n]);
  }

  lemma {:induction false} AgreeableRunsSync(w: World, ops: seq<Op>, n: nat)
    requires Inv(w) && Synced(w) && PossibleRun(w, ops) && AllAgreeable(w, ops) && n <= |ops|
    ensures Synced(Run(w, ops[..n]))
  {
    hide Agreeable, Synced, Inv, PossibleRun;
    if n > 0 {
      AgreeableRunsSync(w, ops, n - 1);
      StepOfRun(w, ops, n - 1);
    } else {
      assert Run(w, ops[..0]) == w;
    }
  }

  /** Table and chain agree throughout a run, faults and all, if and only if every step is agreeable. */
  lemma RunsStaySyncedIff(w: World, ops: seq<Op>)
    requires Inv(w) && Synced(w) && PossibleRun(w, ops)
    ensures (forall n :: 0 <= n <= |ops| ==> Synced(Run(w, ops[..n]))) <==> AllAgreeable(w, ops)
  {
    hide Agreeable, Synced, Inv, PossibleRun, Run;
    if AllAgreeable(w, ops) {
      forall n | 0 <= n <= |ops| ensures Synced(Run(w, ops[..n])) {
        AgreeableRunsSync(w, ops, n);
      }
    }
    if forall n :: 0 <= n <= |ops| ==> Synced(Run(w, ops[..n])) {
      forall i | 0 <= i < |ops| ensures Agreeable(Run(w, ops[..i]), ops[i]) {
        assert Synced(Run(w, ops[..i + 1]));
        StepOfRun(w, ops, i);
      }
    }
  }

  ghost function ForeignOf(rules: Rules): Rules {
    Filter(rules, IsForeign(Tags))
  }

  lemma StepKeepsForeign(w: World, op: Op)
    requires Possible(w, op)
    ensures ForeignOf(Step(w, op).rules) == ForeignOf(w.rules)
  {
    match op
    case ExposeOp(port, protocol, cidrs, written, laid) =>
      PartlyAdded(w.rules, Upserted(w, port, protocol, cidrs).0, laid);
    case RevokeOp(port, protocol, deleted, left) =>
      var at := Find(w.rows, port, protocol);
      if at.Some? {
        PartlyRemoved(w.rules, left, w.rows[at.value].id);
      }
    case ReapplyOp(after) => ReapplyKeepsForeign(w, after);
  }

  /** Whatever is done and whatever fails, the rules of others stay as they are. */
  lemma {:induction false} RunsKeepForeign(w: World, ops: seq<Op>)
    requires PossibleRun(w, ops)
    ensures ForeignOf(Run(w, ops).rules) == ForeignOf(w.rules)
    decreases |ops|
  {
    if ops != [] {
      PossiblePrefix(w, ops);
      hide Step, Possible, ForeignOf;
      RunsKeepForeign(w, ops[..|ops| - 1]);
      StepKeepsForeign(Run(w, ops[..|ops| - 1]), ops[|ops| - 1]);
    }
  }

  lemma PartlyAdded(rules: Rules, a: Acl, k: nat)
    requires k <= |RulesOf(a)|
    ensures ForeignOf(rules + RulesOf(a)[..k]) == ForeignOf(rules)
  {
    var added := RulesOf(a)[..k];
    forall l | l in added ensures Tagged(l, Tags) {
      TagsFindOneRow(a, l, a.id);
    }
    AddingTagged(rules, added, Tags);
  }

  lemma PartlyRemoved(before: Rules, after: Rules, id: nat)
    requires Thinned(before, after, Tags(id))
    ensures ForeignOf(after) == ForeignOf(before)
  {
    forall i | 0 <= i < |before| ensures IsForeign<Body>(Tags)(before[i]) ==> !HasTag(before[i], Tags(id)) {
    }
    hide Thinned, Tags, HasTag;
    ThinnedSelects(before, after, Tags(id), IsForeign(Tags));
  }

  lemma ThinnedAllKeepsForeign(rules: Rules, rows: seq<Acl>, left: Rules)
    requires ThinnedAll(rules, rows, left)
    ensures ForeignOf(left) == ForeignOf(rules)
  {
    forall l, i | 0 <= i < |rows| && IsForeign<Body>(Tags)(l) ensures !HasTag(l, Tags(rows[i].id)) {
    }
    hide Tags, HasTag, ThinnedAll, Filter;
    ThinnedAllSelects(rules, rows, left, IsForeign(Tags));
  }

  lemma ReapplyKeepsForeign(w: World, after: Rules)
    requires Reapplies(w, after)
    ensures ForeignOf(after) == ForeignOf(w.rules)
  {
    if after != w.rules {
      var left, m: nat, k: nat :| ThinnedAll(w.rules, w.rows, left) && AppliedPart(w.rows, left, m, k, after);
      ThinnedAllKeepsForeign(w.rules, w.rows, left);
      var all := RulesOfAll(w.rows[..m]);
      forall l | l in all ensures Tagged(l, Tags) {
        GeneratedRules(w.rows[..m], l);
      }
      AddingTagged(left, all, Tags);
      if m < |w.rows| {
        PartlyAdded(left + all, w.rows[m], k);
      } else {
        assert after == left + all;
      }
    }
  }

  // ---- Sources as they are submitted ----

  /** A submitted source after trimming: empty, unreadable, one address, or a network. */
  datatype Source = Blank | Bad | Host(address: nat) | Network(cidr: Cidr)

  function Normal(s: Source): Cidr
    requires s.Host? || s.Network?
  {
    match s
    case Host(address) => Cidr(address, 32)
    case Network(cidr) => cidr
  }

  function Readable(sources: seq<Source>): seq<Cidr> {
    if sources == [] then []
    else
      var n := |sources| - 1;
      Readable(sources[..n])
      + (if sources[n].Host? || sources[n].Network? then [Normal(sources[n])] else [])
  }

  lemma ReadableStep(sources: seq<Source>, i: nat)
    requires i < |sources|
    ensures Readable(sources[..i + 1]) == if sources[i].Host? || sources[i].Network?
                                          then Readable(sources[..i]) + [Normal(sources[i])]
                                          else Readable(sources[..i])
    ensures Bad in sources[..i + 1] <==> Bad in sources[..i] || sources[i].Bad?
  {
    assert sources[..i + 1][..i] == sources[..i];
    assert sources[..i + 1] == sources[..i] + [sources[i]];
  }

  /** normalizeCIDRs. */
  method NormalizeCidrs(sources: seq<Source>) returns (r: Option<seq<Cidr>>)
    ensures r.None? <==> Bad in sources || Readable(sources) == []
    ensures r.Some? ==> r.value == Firsts(Readable(sources))
  {
    var clean: seq<Cidr> := [];
    var seen: set<Cidr> := {};
    FirstsKeepAll(Readable(sources));
    assert Readable(sources[..0]) == [] && Firsts<Cidr>([]) == [];
    hide Readable, Firsts;
    var i := 0;
    while i < |sources|
      invariant 0 <= i <= |sources|
      invariant Bad !in sources[..i]
      invariant clean == Firsts(Readable(sources[..i]))
      invariant forall c :: c in seen <==> c in Readable(sources[..i])
    {
      var s := sources[i];
      ReadableStep(sources, i);
      if s.Bad? {
        assert sources[i] in sources;
        return None;
      }
      if !s.Blank? {
        var c := Normal(s);
        FirstsStep(Readable(sources[..i]), c);
        if c !in seen {
          seen := seen + {c};
          clean := clean + [c];
        }
      }
      i := i + 1;
    }
    assert sources[..i] == sources;
    if |clean| == 0 {
      return None;
    }
    r := Some(clean);
  }

  /** The source admits the address. */
  predicate Admits(s: Source, src: nat) {
    match s
    case Host(address) => src == address
    case Network(cidr) => InCidr(src, cidr)
    case Blank => false
    case Bad => false
  }

  /** A network is a block of addresses: those that share its first bits. */
  lemma NetworkIsABlock(src: nat, c: Cidr)
    ensures Pow2(0) == 1 && Pow2(8) == 256 && Pow2(16) == 65536
    ensures InCidr(src, c) <==>
              c.bits <= 32 && var size := Pow2(32 - c.bits); c.base / size * size <= src < c.base / size * size + size
  {
    assert Pow2(8) == 256 && Pow2(16) == 65536 by {
      assert Pow2(4) == 16 && Pow2(8) == 16 * Pow2(4) && Pow2(12) == 16 * Pow2(8) && Pow2(16) == 16 * Pow2(12);
    }
    if c.bits <= 32 {
      Block(src, c.base, Pow2(32 - c.bits));
    }
  }

  lemma Block(src: nat, base: nat, size: nat)
    requires size > 0
    ensures src / size == base / size <==> base / size * size <= src < base / size * size + size
  {
    var q, k := src / size, base / size;
    assert q * size <= src < q * size + size;
    if q < k {
      assert (q + 1) * size <= k * size;
    } else if k < q {
      assert (k + 1) * size <= q * size;
    }
  }

  lemma {:induction false} ReadableAdmits(sources: seq<Source>, src: nat)
    ensures Allows(Readable(sources), src) <==> exists i :: 0 <= i < |sources| && Admits(sources[i], src)
    decreases |sources|
  {
    if sources != [] {
      var n := |sources| - 1;
      ReadableAdmits(sources[..n], src);
      NormalAdmits(sources[n], src);
      hide InCidr, Admits;
      var last := if sources[n].Host? || sources[n].Network? then [Normal(sources[n])] else [];
      AllowsEither(Readable(sources[..n]), last, src);
      assert forall i :: 0 <= i < n ==> sources[..n][i] == sources[i];
      if exists i :: 0 <= i < n && Admits(sources[..n][i], src) {
        var i :| 0 <= i < n && Admits(sources[..n][i], src);
        assert Admits(sources[i], src);
      }
    }
  }

  lemma NormalAdmits(s: Source, src: nat)
    ensures Admits(s, src) <==> (s.Host? || s.Network?) && Allows([Normal(s)], src)
  {
    assert Pow2(0) == 1;
    if s.Host? || s.Network? {
      assert InCidr(src, [Normal(s)][0]) <==> Admits(s, src);
    }
  }

  lemma AllowsEither(a: seq<Cidr>, b: seq<Cidr>, src: nat)
    ensures Allows(a + b, src) <==> Allows(a, src) || Allows(b, src)
  {
    hide InCidr;
    if Allows(a, src) {
      var i :| 0 <= i < |a| && InCidr(src, a[i]);
      assert InCidr(src, (a + b)[i]);
    }
    if Allows(b, src) {
      var i :| 0 <= i < |b| && InCidr(src, b[i]);
      assert InCidr(src, (a + b)[|a| + i]);
    }
  }

  /** Dropping repetitions changes nobody's admission: the list admits whom one of the sources admits. */
  lemma ListAdmits(sources: seq<Source>, src: nat)
    ensures Allows(Firsts(Readable(sources)), src) <==> exists i :: 0 <= i < |sources| && Admits(sources[i], src)
  {
    ReadableAdmits(sources, src);
    FirstsKeepAll(Readable(sources));
    hide InCidr, Readable, Firsts;
    var all, once := Readable(sources), Firsts(Readable(sources));
    if Allows(all, src) {
      var i :| 0 <= i < |all| && InCidr(src, all[i]);
      assert all[i] in once;
      var k :| 0 <= k < |once| && once[k] == all[i];
    }
    if Allows(once, src) {
      var i :| 0 <= i < |once| && InCidr(src, once[i]);
      assert once[i] in all;
      var k :| 0 <= k < |all| && all[k] == once[i];
    }
  }

  /** Nothing can be read if and only if every source is blank or unreadable. */
  lemma {:induction false} NothingReadableIff(sources: seq<Source>)
    ensures Readable(sources) == [] <==> forall i :: 0 <= i < |sources| ==> sources[i].Blank? || sources[i].Bad?
    decreases |sources|
  {
    if sources != [] {
      NothingReadableIff(sources[..|sources| - 1]);
      assert forall i :: 0 <= i < |sources| - 1 ==> sources[..|sources| - 1][i] == sources[i];
    }
  }

  /**
   A port exposed for the first time, all rules laid, is open to the sources that were
   submitted and closed to everyone else.
   */
  lemma ExposedPortVerdict(w: World, port: int, protocol: Protocol, sources: seq<Source>, src: nat)
    requires TableInv(w) && Synced(w) && Find(w.rows, port, protocol).None? && ForeignStandAside(w.rules, port, protocol)
    ensures FirstMatch(Exposed(w, port, protocol, Firsts(Readable(sources))).rules, Packet(protocol, port, src))
         == if exists i :: 0 <= i < |sources| && Admits(sources[i], src) then Accepted else Dropped
  {
    var cidrs := Firsts(Readable(sources));
    var v, a := Exposed(w, port, protocol, cidrs), Acl(w.nextId, port, protocol, cidrs);
    ListAdmits(sources, src);
    ExposeKeepsTable(w, port, protocol, cidrs);
    FirstExposeKeepsSync(w, port, protocol, cidrs);
    assert v.rows[|w.rows|] == a && v.rules == w.rules + RulesOf(a);
    forall l | l in RulesOf(a) ensures Tagged(l, Tags) {
      TagsFindOneRow(a, l, a.id);
    }
    hide Tags, Tagged, HasTag, RulesOf, Readable, Firsts, Allows, Admits, FirstMatch, TableInv, Synced, Decides;
    ManagedPortVerdict(v, a, Packet(protocol, port, src));
  }

  // ---- The service ----

  lemma ReapplyIsPossible(w: World, left: Rules, m: nat, k: nat, after: Rules)
    requires ThinnedAll(w.rules, w.rows, left) && AppliedPart(w.rows, left, m, k, after)
    ensures Possible(w, ReapplyOp(after)) && Step(w, ReapplyOp(after)) == w.(rules := after)
  {
  }

  class PortAclService {
    var rows: seq<Acl>
    var nextId: nat
    const chain: Chain<Body>
    ghost var failures: nat // steps that failed, those of the kernel aside

    constructor (chain: Chain<Body>)
      ensures rows == [] && nextId == 1 && this.chain == chain && failures == 0
    {
      rows, nextId, failures := [], 1, 0;
      this.chain := chain;
    }

    ghost function View(): World
      reads this, chain
    {
      World(rows, nextId, Lines(chain.rules))
    }

    /** How many steps have failed so far, silently or not. */
    ghost function Faults(): nat
      reads this, chain
    {
      failures + chain.faults
    }

    /** The kernel rules of one row, accepts first; the first refusal ends it. */
    method Apply(a: Acl) returns (ok: bool, ghost laid: nat)
      requires chain.Valid()
      modifies chain, this`failures
      ensures chain.Valid() && Faults() == if ok then old(Faults()) else old(Faults()) + 1
      ensures laid <= |RulesOf(a)| && (ok <==> laid == |RulesOf(a)|)
      ensures Lines(chain.rules) == Lines(old(chain.rules)) + RulesOf(a)[..laid]
    {
      ghost var before, rules := Lines(chain.rules), RulesOf(a);
      assert before == before + rules[..0];
      laid := 0;
      if * {
        failures := failures + 1;
        return false, 0; // the chain does not exist and cannot be made
      }
      var i := 0;
      while i < |a.cidrs|
        invariant 0 <= i <= |a.cidrs| && chain.Valid() && Faults() == old(Faults())
        invariant Lines(chain.rules) == before + rules[..i]
      {
        var line := Line(Allow(a.protocol, a.port, a.cidrs[i]), Comment(ACCEPT_PREFIX, a.id));
        assert rules[..i + 1] == rules[..i] + [line];
        ok := chain.Add(line);
        if !ok {
          return false, i;
        }
        i := i + 1;
      }
      assert rules == rules[..i] + [Line(Deny(a.protocol, a.port), Comment(DENY_PREFIX, a.id))];
      assert rules[..|rules|] == rules;
      ok := chain.Add(Line(Deny(a.protocol, a.port), Comment(DENY_PREFIX, a.id)));
      laid := if ok then |rules| else i;
    }

    method Remove(id: nat)
      requires chain.Valid()
      modifies chain`rules, chain`faults
      ensures chain.Valid() && chain.faults >= old(chain.faults)
      ensures chain.faults == old(chain.faults) ==>
                Lines(chain.rules) == Filter(Lines(old(chain.rules)), Untagged(Tags(id)))
      ensures Thinned(Lines(old(chain.rules)), Lines(chain.rules), Tags(id))
    {
      chain.RemoveTagged(Tags(id));
    }

    /**
     `op` tells how it ended.  Refused input changes nothing; without a fault valid input
     is exposed in full; no rule of anyone else is touched.
     */
    method Expose(port: int, protocol: Protocol, sources: seq<Source>) returns (ok: bool, ghost op: Op)
      requires chain.Valid()
      modifies this, chain
      ensures chain.Valid() && Faults() >= old(Faults())
      ensures !(1 <= port <= 65535) || Bad in sources || (forall i :: 0 <= i < |sources| ==> sources[i].Blank?) ==>
                !ok && View() == old(View()) && Faults() == old(Faults())
      ensures 1 <= port <= 65535 && Bad !in sources && !(forall i :: 0 <= i < |sources| ==> sources[i].Blank?) ==>
                && op.ExposeOp? && op.port == port && op.protocol == protocol && op.cidrs == Firsts(Readable(sources))
                && Possible(old(View()), op) && View() == Step(old(View()), op)
                && (ok <==> Faults() == old(Faults()))
                && (ok ==> View() == Exposed(old(View()), port, protocol, op.cidrs))
      ensures ForeignOf(View().rules) == ForeignOf(old(View()).rules)
    {
      hide ForeignOf, RulesOf;
      op := ReapplyOp([]);
      FirstsKeepAll(Readable(sources));
      NothingReadableIff(sources);
      assert Bad !in sources ==> forall i :: 0 <= i < |sources| ==> !sources[i].Bad?;
      if port < 1 || port > 65535 {
        return false, op;
      }
      var cidrs := NormalizeCidrs(sources);
      if cidrs.None? {
        return false, op;
      }
      ghost var w := View();
      if * {
        failures := failures + 1;
        op := ExposeOp(port, protocol, cidrs.value, false, 0);
        return false, op; // the table cannot be written
      }
      var a;
      FindFinds(rows, port, protocol);
      match Find(rows, port, protocol) {
        case Some(i) =>
          a := rows[i].(cidrs := cidrs.value);
          rows := rows[i := a];
        case None =>
          a := Acl(nextId, port, protocol, cidrs.value);
          rows, nextId := rows + [a], nextId + 1;
      }
      ghost var laid;
      ok, laid := Apply(a);
      op := ExposeOp(port, protocol, cidrs.value, true, laid);
      assert RulesOf(a)[..|RulesOf(a)|] == RulesOf(a);
      StepKeepsForeign(w, op);
    }

    /** `ok` says nothing of the removal, whose failures go unnoticed. */
    method Revoke(port: int, protocol: Protocol) returns (ok: bool, ghost op: Op)
      requires chain.Valid()
      modifies this, chain
      ensures chain.Valid() && Faults() >= old(Faults())
      ensures op.RevokeOp? && op.port == port && op.protocol == protocol
      ensures Possible(old(View()), op) && View() == Step(old(View()), op)
      ensures ok <==> failures == old(failures)
      ensures ok && Find(old(rows), port, protocol).Some? ==> op.deleted
      ensures Faults() == old(Faults()) ==> View() == Revoked(old(View()), port, protocol)
      ensures ForeignOf(View().rules) == ForeignOf(old(View()).rules)
    {
      hide ForeignOf;
      ghost var w := View();
      op := RevokeOp(port, protocol, false, w.rules);
      var found := Find(rows, port, protocol);
      FindFinds(rows, port, protocol);
      if found.Some? {
        ThinnedRefl(w.rules, Tags(rows[found.value].id));
      }
      hide Thinned, Find, Tags;
      if * {
        failures := failures + 1;
        return false, op; // the table cannot be read
      }
      if found.None? {
        return true, op;
      }
      Remove(rows[found.value].id);
      if * {
        failures := failures + 1;
        op := RevokeOp(port, protocol, false, Lines(chain.rules));
        StepKeepsForeign(w, op);
        return false, op; // the row cannot be deleted
      }
      rows := rows[..found.value] + rows[found.value + 1..];
      op := RevokeOp(port, protocol, true, Lines(chain.rules));
      StepKeepsForeign(w, op);
      ok := true;
    }

    /** `ok` says that the table was read and every row applied; a failed removal does not show. */
    method ReapplyAll() returns (ok: bool)
      requires chain.Valid()
      modifies chain, this`failures
      ensures chain.Valid() && Faults() >= old(Faults())
      ensures Possible(old(View()), ReapplyOp(View().rules)) && View() == Step(old(View()), ReapplyOp(View().rules))
      ensures Faults() == old(Faults()) ==> ok && View() == Reapplied(old(View()))
      ensures ok ==> exists left :: ThinnedAll(Lines(old(chain.rules)), rows, left)
                                 && Lines(chain.rules) == left + RulesOfAll(rows)
      ensures ForeignOf(View().rules) == ForeignOf(old(View()).rules)
    {
      ghost var w := View();
      hide ForeignOf, Owned, ThinnedAll, Thinned;
      if * {
        failures := failures + 1;
        return false; // the table cannot be read
      }
      RemoveAll();
      ghost var left := Lines(chain.rules);
      ghost var m, k;
      ok, m, k := ApplyAll();
      hide AppliedPart, RulesOfAll, Step, Possible;
      ReapplyIsPossible(w, left, m, k, Lines(chain.rules));
      StepKeepsForeign(w, ReapplyOp(Lines(chain.rules)));
    }

    method ApplyAll() returns (ok: bool, ghost m: nat, ghost k: nat)
      requires chain.Valid()
      modifies chain, this`failures
      ensures chain.Valid() && Faults() >= old(Faults())
      ensures AppliedPart(rows, Lines(old(chain.rules)), m, k, Lines(chain.rules))
      ensures ok <==> Faults() == old(Faults())
      ensures ok ==> Lines(chain.rules) == Lines(old(chain.rules)) + RulesOfAll(rows)
    {
      hide RulesOf;
      ghost var left := Lines(chain.rules);
      assert left == left + RulesOfAll(rows[..0]);
      var i := 0;
      while i < |rows|
        invariant 0 <= i <= |rows| && chain.Valid()
        invariant Faults() == old(Faults())
        invariant Lines(chain.rules) == left + RulesOfAll(rows[..i])
      {
        ghost var laid;
        ok, laid := Apply(rows[i]);
        if !ok {
          return false, i, laid;
        }
        assert RulesOf(rows[i])[..laid] == RulesOf(rows[i]);
        assert rows[..i + 1] == rows[..i] + [rows[i]];
        RulesOfAllSnoc(rows[..i], rows[i]);
        assert left + RulesOfAll(rows[..i]) + RulesOf(rows[i]) == left + (RulesOfAll(rows[..i]) + RulesOf(rows[i]));
        i := i + 1;
      }
      assert rows[..i] == rows;
      assert Lines(chain.rules) + [] == Lines(chain.rules);
      return true, i, 0;
    }

    method RemoveAll()
      requires chain.Valid()
      modifies chain`rules, chain`faults
      ensures chain.Valid() && chain.faults >= old(chain.faults)
      ensures ThinnedAll(Lines(old(chain.rules)), rows, Lines(chain.rules))
      ensures chain.faults == old(chain.faults) ==>
                Lines(chain.rules) == Filter(Lines(old(chain.rules)), NotOwned(Ids(rows), Tags))
    {
      ghost var before := Lines(chain.rules);
      hide Owned, Thinned;
      NobodyOwns(before, Ids(rows), Tags);
      var i := 0;
      while i < |rows|
        invariant 0 <= i <= |rows| && chain.Valid() && chain.faults >= old(chain.faults)
        invariant ThinnedAll(before, rows[..i], Lines(chain.rules))
        invariant chain.faults == old(chain.faults) ==>
                    Lines(chain.rules) == Filter(before, NotOwned(Ids(rows)[..i], Tags))
      {
        RemovedOneMore(before, Ids(rows), i, Tags);
        ghost var most := Lines(chain.rules);
        Remove(rows[i].id);
        assert Front(rows[..i + 1]) == rows[..i] && rows[..i + 1][i] == rows[i];
        assert ThinnedAll(before, rows[..i + 1], Lines(chain.rules));
        i := i + 1;
      }
      assert rows[..i] == rows && Ids(rows)[..i] == Ids(rows);
    }
  }
}
