/**
 The kernel side of port forwarding (internal/domain/firewall/port_forward.go): which
 rules the three chains carry for the rows of the table, and where a packet goes.
 */
module ForwardChains {
  import opened Common
  import opened Nft
  import opened PortSpan
  import opened PortForward

  datatype Hook = Prerouting | Filtering | Postrouting

  datatype Body =
    | Dnat(iface: string, source: Source, protocol: string, dport: string, target: string)
    | AcceptTo(dest: string, protocol: string, dport: string)
    | Masquerade(dest: string, protocol: string, dport: string)
    | Other(hits: Packet -> bool, target: string)

  type Rules = seq<Line<Body>>

  const DNAT_PREFIX := "easyserver-pf-"
  const FORWARD_PREFIX := "easyserver-pf-fwd-"
  const MASQUERADE_PREFIX := "easyserver-pf-masq-"

  function Prefix(h: Hook): string {
    match h
    case Prerouting => DNAT_PREFIX
    case Filtering => FORWARD_PREFIX
    case Postrouting => MASQUERADE_PREFIX
  }

  /** What removeForward searches the listed lines for. */
  function Tags(id: nat): seq<string> {
    [Tag(DNAT_PREFIX, id), Tag(FORWARD_PREFIX, id), Tag(MASQUERADE_PREFIX, id)]
  }

  function DnatTarget(r: Forward): string {
    if r.destPort != "" && r.destPort != r.listen then r.dest.text + ":" + r.destPort else r.dest.text
  }

  function DestPortOrListen(r: Forward): string {
    if r.destPort != "" then r.destPort else r.listen
  }

  function BodyOf(h: Hook, r: Forward): Body {
    match h
    case Prerouting => Dnat(r.iface, r.source, r.protocol, r.listen, DnatTarget(r))
    case Filtering => AcceptTo(r.dest.text, r.protocol, DestPortOrListen(r))
    case Postrouting => Masquerade(r.dest.text, r.protocol, DestPortOrListen(r))
  }

  /** The rules of a row in one chain; only private destinations are masqueraded. */
  function Gen(h: Hook, r: Forward): Rules {
    if h.Postrouting? && !r.dest.isPrivate then [] else [Line(BodyOf(h, r), Comment(Prefix(h), r.id))]
  }

  function Shown(h: Hook, r: Forward): Rules {
    if r.enabled then Gen(h, r) else []
  }

  function ShownAll(h: Hook, rows: seq<Forward>): Rules {
    if |rows| == 0 then [] else ShownAll(h, rows[..|rows| - 1]) + Shown(h, rows[|rows| - 1])
  }

  function Ids(rows: seq<Forward>): seq<nat> {
    seq(|rows|, i requires 0 <= i < |rows| => rows[i].id)
  }

  function Mine(id: nat): Line<Body> -> bool {
    (l: Line<Body>) => HasTag(l, Tags(id))
  }

  /** The rules of a chain that the tags of an id find. */
  function Own(rules: Rules, id: nat): Rules {
    Filter(rules, Mine(id))
  }

  // ---- Tags ----

  lemma TagsFindOneRow(h: Hook, r: Forward, l: Line<Body>, id: nat)
    requires l in Gen(h, r)
    ensures HasTag(l, Tags(id)) <==> id == r.id
  {
    var tags, p := Tags(id), Prefix(h);
    assert l.comment == Comment(p, r.id);
    assert HasTag(l, tags) <==> Contains(l.comment, tags[0]) || Contains(l.comment, tags[1]) || Contains(l.comment, tags[2]);
    TagHitsOneId(p, DNAT_PREFIX, r.id, id);
    TagHitsOneId(p, FORWARD_PREFIX, r.id, id);
    TagHitsOneId(p, MASQUERADE_PREFIX, r.id, id);
    assert ("\"" + p)[1..] == p;
  }

  /** No rule carries the tags of two ids. */
  ghost predicate OneTag(rules: Rules) {
    forall l, i: nat, j: nat :: l in rules && HasTag(l, Tags(i)) && HasTag(l, Tags(j)) ==> i == j
  }

  lemma GenHasOneTag(h: Hook, r: Forward)
    ensures OneTag(Gen(h, r))
    ensures forall l :: l in Gen(h, r) ==> Tagged(l, Tags)
  {
    forall l, i: nat, j: nat | l in Gen(h, r) && HasTag(l, Tags(i)) && HasTag(l, Tags(j)) ensures i == j {
      TagsFindOneRow(h, r, l, i);
      TagsFindOneRow(h, r, l, j);
    }
    forall l | l in Gen(h, r) ensures Tagged(l, Tags) {
      TagsFindOneRow(h, r, l, r.id);
    }
  }

  // ---- Removing and adding the rules of one id ----

  lemma OwnAfterStrip(rules: Rules, id: nat, j: nat)
    requires OneTag(rules)
    ensures Own(Filter(rules, Untagged<Body>(Tags(id))), j) == if j == id then [] else Own(rules, j)
  {
    var untagged := Untagged<Body>(Tags(id));
    assert forall l: Line<Body> :: untagged(l) == !HasTag(l, Tags(id));
    hide HasTag, Tags;
    if j == id {
      FilterFilter(rules, untagged, Mine(id), (l: Line<Body>) => false);
      FilterNone(rules, (l: Line<Body>) => false);
    } else {
      forall i | 0 <= i < |rules| ensures Mine(j)(rules[i]) ==> untagged(rules[i]) {
        assert rules[i] in rules;
      }
      FilterFilter(rules, untagged, Mine(j), Mine(j));
    }
  }

  lemma OwnAfterAdd(rules: Rules, h: Hook, r: Forward, j: nat)
    ensures Own(rules + Gen(h, r), j) == Own(rules, j) + (if j == r.id then Gen(h, r) else [])
  {
    var added := Gen(h, r);
    FilterAppend(rules, added, Mine(j));
    forall i | 0 <= i < |added| ensures Mine(j)(added[i]) == (j == r.id) {
      assert added[i] in added;
      TagsFindOneRow(h, r, added[i], j);
    }
    if j == r.id {
      FilterAll(added, Mine(j));
    } else {
      FilterNone(added, Mine(j));
    }
  }

  lemma AddKeepsOneTag(rules: Rules, h: Hook, r: Forward)
    requires OneTag(rules)
    ensures OneTag(rules + Gen(h, r))
  {
    hide HasTag, Tags, Gen;
    GenHasOneTag(h, r);
  }

  // ---- The world ----

  datatype World = World(table: Table, pre: Rules, fwd: Rules, post: Rules)

  function At(w: World, h: Hook): Rules {
    match h
    case Prerouting => w.pre
    case Filtering => w.fwd
    case Postrouting => w.post
  }

  /** removeForward, when nothing fails. */
  function Stripped(w: World, id: nat): World {
    w.(pre := Filter(w.pre, Untagged(Tags(id))),
       fwd := Filter(w.fwd, Untagged(Tags(id))),
       post := Filter(w.post, Untagged(Tags(id))))
  }

  /** applyForward, when nothing fails. */
  function Laid(w: World, r: Forward): World {
    w.(pre := w.pre + Gen(Prerouting, r), fwd := w.fwd + Gen(Filtering, r), post := w.post + Gen(Postrouting, r))
  }

  function Created(w: World, r: Forward, reserved: nat -> bool): World {
    var v, t := Admitted(w.table, r, reserved), AfterCreate(w.table, r, reserved, Clean);
    if v.None? then w else Laid(w.(table := t), v.value.(id := w.table.nextId))
  }

  function Updated(w: World, r: Forward, reserved: nat -> bool): World {
    var v := Admitted(w.table, r, reserved);
    if IndexOf(w.table.rows, r.id).None? || v.None? then w
    else
      var u := Stripped(w.(table := AfterUpdate(w.table, r, reserved, Clean)), r.id);
      if r.enabled then Laid(u, v.value) else u
  }

  function Switched(w: World, id: nat, enabled: bool, reserved: nat -> bool): World {
    var at := IndexOf(w.table.rows, id);
    if at.None? then w
    else
      var row, u := w.table.rows[at.value], w.(table := AfterSetEnabled(w.table, id, enabled, reserved, Clean));
      if !enabled then Stripped(u, id)
      else
        match Admitted(w.table, row, reserved)
        case None => w
        case Some(v) => Laid(u, v)
  }

  function Deleted(w: World, id: nat): World {
    Stripped(w.(table := AfterDelete(w.table, id, Clean)), id)
  }

  function Replayed(h: Hook, rules: Rules, rows: seq<Forward>): Rules {
    Filter(rules, NotOwned(Ids(rows), Tags)) + ShownAll(h, rows)
  }

  function Reapplied(w: World): World {
    var rows := w.table.rows;
    w.(pre := Replayed(Prerouting, w.pre, rows),
       fwd := Replayed(Filtering, w.fwd, rows),
       post := Replayed(Postrouting, w.post, rows))
  }

  // ---- Table and chains agree ----

  /** What the chain should carry for an id. */
  function Wanted(h: Hook, rows: seq<Forward>, id: nat): Rules {
    match IndexOf(rows, id)
    case Some(i) => Shown(h, rows[i])
    case None => []
  }

  ghost predicate SyncedAt(w: World, h: Hook, id: nat) {
    Own(At(w, h), id) == Wanted(h, w.table.rows, id)
  }

  /** Under every id the chains carry the rules of the enabled row with that id, once, and nothing else. */
  ghost predicate Synced(w: World) {
    forall h, id: nat :: SyncedAt(w, h, id)
  }

  ghost predicate OneTagEach(w: World) {
    OneTag(w.pre) && OneTag(w.fwd) && OneTag(w.post)
  }

  lemma WantedIs(h: Hook, t: Table, i: nat)
    requires TableInv(t) && i < |t.rows|
    ensures Wanted(h, t.rows, t.rows[i].id) == Shown(h, t.rows[i])
  {
    IndexIs(t.rows, i);
  }

  /** The tables agree on what is wanted for `id`. */
  lemma WantedSame(h: Hook, t: Table, u: Table, id: nat)
    requires TableInv(t) && TableInv(u)
    requires forall i :: 0 <= i < |t.rows| && t.rows[i].id == id ==> t.rows[i] in u.rows
    requires forall i :: 0 <= i < |u.rows| && u.rows[i].id == id ==> u.rows[i] in t.rows
    ensures Wanted(h, t.rows, id) == Wanted(h, u.rows, id)
  {
    hide Shown;
    IndexFinds(t.rows, id);
    IndexFinds(u.rows, id);
    match IndexOf(t.rows, id) {
      case Some(i) =>
        var j :| 0 <= j < |u.rows| && u.rows[j] == t.rows[i];
        IndexIs(u.rows, j);
      case None =>
    }
  }

  lemma StripSyncs(w: World, id: nat, h: Hook, j: nat)
    requires OneTag(At(w, h))
    ensures Own(At(Stripped(w, id), h), j) == if j == id then [] else Own(At(w, h), j)
  {
    hide Own, Tags;
    OwnAfterStrip(At(w, h), id, j);
  }

  lemma LaySyncs(w: World, r: Forward, h: Hook, j: nat)
    ensures Own(At(Laid(w, r), h), j) == Own(At(w, h), j) + (if j == r.id then Gen(h, r) else [])
  {
    hide Own, Tags, Gen;
    OwnAfterAdd(At(w, h), h, r, j);
  }

  /** Only what is wanted for `id` changed. */
  lemma WantedReplaced(h: Hook, t: Table, u: Table, at: nat, r: Forward, j: nat)
    requires TableInv(t) && TableInv(u) && at < |t.rows| && r.id == t.rows[at].id && u.rows == t.rows[at := r]
    ensures Wanted(h, u.rows, j) == if j == r.id then Shown(h, r) else Wanted(h, t.rows, j)
  {
    hide Wanted, Shown;
    WantedIs(h, u, at);
    if j != r.id {
      assert forall i :: 0 <= i < |t.rows| && i != at ==> u.rows[i] == t.rows[i];
      WantedSame(h, t, u, j);
    }
  }

  lemma WantedAfterCreate(h: Hook, t: Table, r: Forward, reserved: nat -> bool, j: nat)
    requires TableInv(t) && Admitted(t, r, reserved).Some?
    ensures Wanted(h, t.rows, t.nextId) == []
    ensures Wanted(h, AfterCreate(t, r, reserved, Clean).rows, j)
         == if j == t.nextId then Shown(h, Admitted(t, r, reserved).value.(id := t.nextId)) else Wanted(h, t.rows, j)
  {
    hide Shown, Admitted;
    var u := AfterCreate(t, r, reserved, Clean);
    CreateKeepsTable(t, r, reserved, Clean);
    RowIdsAreOld(t, t.nextId);
    WantedIs(h, u, |t.rows|);
    hide TableInv, IndexOf;
    if j != t.nextId {
      WantedSame(h, t, u, j);
    }
  }

  lemma CreateAt(w: World, r: Forward, reserved: nat -> bool, h: Hook, j: nat)
    requires TableInv(w.table) && SyncedAt(w, h, j) && Admitted(w.table, r, reserved).Some?
    ensures SyncedAt(Created(w, r, reserved), h, j)
       <==> j != w.table.nextId || r.enabled || Gen(h, Admitted(w.table, r, reserved).value.(id := w.table.nextId)) == []
  {
    var row := Admitted(w.table, r, reserved).value.(id := w.table.nextId);
    var u := w.(table := AfterCreate(w.table, r, reserved, Clean));
    NormalKeeps(r);
    WantedAfterCreate(h, w.table, r, reserved, j);
    hide Admitted, IndexOf, Own, Gen, TableInv, Wanted;
    LaySyncs(u, row, h, j);
  }

  /**
   Creating a rule applies it to the kernel even when it is submitted disabled: table and
   chains still agree afterwards exactly if it was refused or enabled.
   */
  lemma CreateSyncsIff(w: World, r: Forward, reserved: nat -> bool)
    requires TableInv(w.table) && Synced(w)
    ensures Synced(Created(w, r, reserved)) <==> Admitted(w.table, r, reserved).None? || r.enabled
  {
    hide TableInv, Admitted, SyncedAt;
    var v := Admitted(w.table, r, reserved);
    if v.Some? {
      var row, x := v.value.(id := w.table.nextId), Created(w, r, reserved);
      forall h, j: nat ensures SyncedAt(x, h, j) <==> j != row.id || r.enabled || Gen(h, row) == [] {
        assert SyncedAt(w, h, j);
        hide Created, Gen;
        CreateAt(w, r, reserved, h, j);
      }
      assert Gen(Prerouting, row) != [];
      assert Synced(x) ==> SyncedAt(x, Prerouting, row.id);
    }
  }

  lemma UpdateAt(w: World, r: Forward, reserved: nat -> bool, h: Hook, j: nat)
    requires TableInv(w.table) && OneTagEach(w) && SyncedAt(w, h, j)
    ensures SyncedAt(Updated(w, r, reserved), h, j)
  {
    var at, v := IndexOf(w.table.rows, r.id), Admitted(w.table, r, reserved);
    if at.Some? && v.Some? {
      var u := w.(table := AfterUpdate(w.table, r, reserved, Clean));
      NormalKeeps(r);
      UpdateKeepsTable(w.table, r, reserved, Clean);
      WantedReplaced(h, w.table, u.table, at.value, v.value, j);
      hide TableInv, Admitted, IndexOf, Own, Gen, Wanted;
      assert At(u, h) == At(w, h);
      StripSyncs(u, r.id, h, j);
      LaySyncs(Stripped(u, r.id), v.value, h, j);
    }
  }

  lemma UpdateKeepsSync(w: World, r: Forward, reserved: nat -> bool)
    requires TableInv(w.table) && OneTagEach(w) && Synced(w)
    ensures Synced(Updated(w, r, reserved))
  {
    hide TableInv, OneTagEach, SyncedAt, Updated;
    forall h, j: nat ensures SyncedAt(Updated(w, r, reserved), h, j) {
      assert SyncedAt(w, h, j);
      UpdateAt(w, r, reserved, h, j);
    }
  }

  /** The switch is turned on, the rule passes the checks again, and it was on before. */
  predicate OnTwice(t: Table, id: nat, enabled: bool, reserved: nat -> bool) {
    var at := IndexOf(t.rows, id);
    enabled && at.Some? && t.rows[at.value].enabled && Admitted(t, t.rows[at.value], reserved).Some?
  }

  lemma SwitchedIs(w: World, id: nat, enabled: bool, reserved: nat -> bool)
    requires TableInv(w.table) && IndexOf(w.table.rows, id).Some?
    ensures var row := w.table.rows[IndexOf(w.table.rows, id).value];
            var u := w.(table := AfterSetEnabled(w.table, id, enabled, reserved, Clean));
            && (OnTwice(w.table, id, enabled, reserved) <==>
                  enabled && row.enabled && Admitted(w.table, row, reserved).Some?)
            && Switched(w, id, enabled, reserved)
               == if !enabled then Stripped(u, id)
                  else if Admitted(w.table, row, reserved).None? then w
                  else Laid(u, row)
  {
    RowIsAdmittedAsItIs(w.table, IndexOf(w.table.rows, id).value, reserved);
    hide Admitted, TableInv;
  }

  /** What is wanted for the ids, a row being switched. */
  lemma WantedAfterSwitch(h: Hook, t: Table, id: nat, enabled: bool, reserved: nat -> bool, j: nat)
    requires TableInv(t) && IndexOf(t.rows, id).Some?
    requires !enabled || Admitted(t, t.rows[IndexOf(t.rows, id).value], reserved).Some?
    ensures var row := t.rows[IndexOf(t.rows, id).value];
            && Wanted(h, t.rows, id) == Shown(h, row)
            && Wanted(h, AfterSetEnabled(t, id, enabled, reserved, Clean).rows, j)
               == if j == id then (if enabled then Gen(h, row) else []) else Wanted(h, t.rows, j)
  {
    hide Admitted;
    var at := IndexOf(t.rows, id).value;
    var row := t.rows[at];
    SetEnabledKeepsTable(t, id, enabled, reserved, Clean);
    WantedIs(h, t, at);
    WantedReplaced(h, t, AfterSetEnabled(t, id, enabled, reserved, Clean), at, row.(enabled := enabled), j);
    GenIsOnlyTheRow(h, row, enabled);
  }

  lemma SwitchAt(w: World, id: nat, enabled: bool, reserved: nat -> bool, h: Hook, j: nat)
    requires TableInv(w.table) && OneTagEach(w) && SyncedAt(w, h, j)
    ensures SyncedAt(Switched(w, id, enabled, reserved), h, j)
       <==> !(OnTwice(w.table, id, enabled, reserved) && j == id
              && Gen(h, w.table.rows[IndexOf(w.table.rows, id).value]) != [])
  {
    var at := IndexOf(w.table.rows, id);
    if at.Some? {
      var row, u := w.table.rows[at.value], w.(table := AfterSetEnabled(w.table, id, enabled, reserved, Clean));
      SwitchedIs(w, id, enabled, reserved);
      assert At(u, h) == At(w, h);
      hide Switched, OnTwice, TableInv, Admitted, IndexOf, Own, Wanted, Gen, AfterSetEnabled;
      if !enabled || Admitted(w.table, row, reserved).Some? {
        WantedAfterSwitch(h, w.table, id, enabled, reserved, j);
        if enabled {
          LaySyncs(u, row, h, j);
        } else {
          StripSyncs(u, id, h, j);
        }
      }
    }
  }

  /** Switching a rule on that is on already applies it twice; nothing else spoils the agreement. */
  lemma SwitchSyncsIff(w: World, id: nat, enabled: bool, reserved: nat -> bool)
    requires TableInv(w.table) && OneTagEach(w) && Synced(w)
    ensures Synced(Switched(w, id, enabled, reserved)) <==> !OnTwice(w.table, id, enabled, reserved)
  {
    hide TableInv, OneTagEach, SyncedAt, Switched, Admitted;
    var x := Switched(w, id, enabled, reserved);
    forall h, j: nat
      ensures SyncedAt(x, h, j) <==> !(OnTwice(w.table, id, enabled, reserved) && j == id
                                       && Gen(h, w.table.rows[IndexOf(w.table.rows, id).value]) != [])
    {
      assert SyncedAt(w, h, j);
      SwitchAt(w, id, enabled, reserved, h, j);
    }
    if OnTwice(w.table, id, enabled, reserved) {
      assert Gen(Prerouting, w.table.rows[IndexOf(w.table.rows, id).value]) != [];
      assert !SyncedAt(x, Prerouting, id);
    }
  }

  lemma RowIsAdmittedAsItIs(t: Table, i: nat, reserved: nat -> bool)
    requires TableInv(t) && i < |t.rows|
    ensures Admitted(t, t.rows[i], reserved).Some? ==> Admitted(t, t.rows[i], reserved).value == t.rows[i]
  {
    hide Acceptable, Blocked, Lower, Trim;
    assert IsNormal(t.rows[i]);
  }

  lemma GenIsOnlyTheRow(h: Hook, r: Forward, enabled: bool)
    ensures Gen(h, r.(enabled := enabled)) == Gen(h, r)
  {
  }

  lemma DeleteAt(w: World, id: nat, h: Hook, j: nat)
    requires TableInv(w.table) && OneTagEach(w) && SyncedAt(w, h, j)
    ensures SyncedAt(Deleted(w, id), h, j)
  {
    WantedAfterDelete(h, w.table, id, j);
    hide TableInv, IndexOf, Own, Wanted, AfterDelete;
    var u := w.(table := AfterDelete(w.table, id, Clean));
    assert At(u, h) == At(w, h);
    StripSyncs(u, id, h, j);
  }

  lemma DeleteKeepsSync(w: World, id: nat)
    requires TableInv(w.table) && OneTagEach(w) && Synced(w)
    ensures Synced(Deleted(w, id))
  {
    hide TableInv, OneTagEach, SyncedAt, Deleted;
    forall h, j: nat ensures SyncedAt(Deleted(w, id), h, j) {
      assert SyncedAt(w, h, j);
      DeleteAt(w, id, h, j);
    }
  }

  lemma WantedAfterDelete(h: Hook, t: Table, id: nat, j: nat)
    requires TableInv(t)
    ensures Wanted(h, AfterDelete(t, id, Clean).rows, j) == if j == id then [] else Wanted(h, t.rows, j)
  {
    var u := AfterDelete(t, id, Clean);
    DeleteKeepsTable(t, id, Clean);
    hide Shown;
    IndexFinds(t.rows, id);
    IndexFinds(u.rows, id);
    if IndexOf(t.rows, id).Some? {
      CutOut(t.rows, IndexOf(t.rows, id).value);
      if j != id {
        hide Wanted;
        WantedSame(h, t, u, j);
      }
    }
  }

  // ---- Replaying the table ----

  lemma {:induction false} ShownAllIsTagged(h: Hook, rows: seq<Forward>)
    ensures forall l :: l in ShownAll(h, rows) ==> Tagged(l, Tags)
    decreases |rows|
  {
    hide Tagged, Gen, Tags;
    if |rows| > 0 {
      ShownAllIsTagged(h, rows[..|rows| - 1]);
      GenHasOneTag(h, rows[|rows| - 1]);
    }
  }

  lemma {:induction false} IndexOfSnoc(rows: seq<Forward>, r: Forward, id: nat)
    ensures IndexOf(rows + [r], id)
         == if IndexOf(rows, id).Some? then IndexOf(rows, id) else if r.id == id then Some(|rows|) else None
  {
    if rows == [] {
      assert rows + [r] == [r] && [r][1..] == [];
    } else {
      assert (rows + [r])[1..] == rows[1..] + [r];
      IndexOfSnoc(rows[1..], r, id);
    }
  }

  /** Of all the rules of the table, an id's tags find exactly what is wanted for the id. */
  lemma {:induction false} OwnShownAll(h: Hook, rows: seq<Forward>, id: nat)
    requires forall i, j :: 0 <= i < j < |rows| ==> rows[i].id < rows[j].id
    ensures Own(ShownAll(h, rows), id) == Wanted(h, rows, id)
    decreases |rows|
  {
    if |rows| > 0 {
      var before, r := rows[..|rows| - 1], rows[|rows| - 1];
      assert rows == before + [r];
      IndexOfSnoc(before, r, id);
      IndexFinds(before, id);
      hide IndexOf, Own, Gen;
      OwnShownAll(h, before, id);
      OwnAfterAdd(ShownAll(h, before), h, r, id);
      assert ShownAll(h, before) + [] == ShownAll(h, before);
      assert Own(ShownAll(h, before), id) + [] == Own(ShownAll(h, before), id);
      assert IndexOf(before, id).None? ==> [] + Gen(h, r) == Gen(h, r);
    }
  }

  lemma IdsHave(rows: seq<Forward>, id: nat)
    ensures id in Ids(rows) <==> IndexOf(rows, id).Some?
  {
    IndexFinds(rows, id);
    if IndexOf(rows, id).Some? {
      assert Ids(rows)[IndexOf(rows, id).value] == id;
    }
  }

  lemma OwnAfterDrop(rules: Rules, ids: seq<nat>, id: nat)
    requires OneTag(rules)
    ensures Own(Filter(rules, NotOwned(ids, Tags)), id) == if id in ids then [] else Own(rules, id)
  {
    forall i | 0 <= i < |rules| ensures Mine(id)(rules[i]) ==> (NotOwned(ids, Tags)(rules[i]) <==> id !in ids) {
      assert rules[i] in rules;
      if Mine(id)(rules[i]) && id in ids {
        var k :| 0 <= k < |ids| && ids[k] == id;
        assert HasTag(rules[i], Tags(ids[k]));
      }
    }
    hide HasTag, Tags, Owned;
    if id in ids {
      FilterFilter(rules, NotOwned(ids, Tags), Mine(id), (l: Line<Body>) => false);
      FilterNone(rules, (l: Line<Body>) => false);
    } else {
      FilterFilter(rules, NotOwned(ids, Tags), Mine(id), Mine(id));
    }
  }

  /** After the replay every id of the table has its rules, whatever was there; the others keep theirs. */
  lemma ReappliedAt(w: World, h: Hook, id: nat)
    requires TableInv(w.table) && OneTagEach(w)
    ensures Own(At(Reapplied(w), h), id)
         == if IndexOf(w.table.rows, id).Some? then Wanted(h, w.table.rows, id) else Own(At(w, h), id)
  {
    var rows := w.table.rows;
    var left := Filter(At(w, h), NotOwned(Ids(rows), Tags));
    OwnShownAll(h, rows, id);
    hide TableInv, Tags, NotOwned;
    OwnAfterDrop(At(w, h), Ids(rows), id);
    IdsHave(rows, id);
    assert At(Reapplied(w), h) == left + ShownAll(h, rows);
    FilterAppend(left, ShownAll(h, rows), Mine(id));
  }

  /** Every tag found in the chain is that of a row. */
  ghost predicate Homed(rules: Rules, rows: seq<Forward>) {
    forall l, id: nat :: l in rules && HasTag(l, Tags(id)) ==> IndexOf(rows, id).Some?
  }

  ghost predicate HomedEach(w: World) {
    Homed(w.pre, w.table.rows) && Homed(w.fwd, w.table.rows) && Homed(w.post, w.table.rows)
  }

  lemma OwnMember(rules: Rules, id: nat, l: Line<Body>)
    ensures l in Own(rules, id) <==> l in rules && HasTag(l, Tags(id))
  {
    FilterMembers(rules, Mine(id));
  }

  lemma HomedIffNothingElse(rules: Rules, rows: seq<Forward>)
    ensures Homed(rules, rows) <==> forall id: nat :: IndexOf(rows, id).None? ==> Own(rules, id) == []
  {
    hide HasTag, IndexOf, Own, Tags;
    if Homed(rules, rows) {
      forall id: nat | IndexOf(rows, id).None? ensures Own(rules, id) == [] {
        if Own(rules, id) != [] {
          OwnMember(rules, id, Own(rules, id)[0]);
          assert false;
        }
      }
    }
    if forall id: nat :: IndexOf(rows, id).None? ==> Own(rules, id) == [] {
      forall l, id: nat | l in rules && HasTag(l, Tags(id)) ensures IndexOf(rows, id).Some? {
        OwnMember(rules, id, l);
      }
    }
  }

  lemma ReapplySyncsHook(w: World, h: Hook)
    requires TableInv(w.table) && OneTagEach(w)
    ensures (forall id: nat :: SyncedAt(Reapplied(w), h, id)) <==> Homed(At(w, h), w.table.rows)
  {
    HomedIffNothingElse(At(w, h), w.table.rows);
    hide Own, IndexOf, OneTag, TableInv, Homed;
    forall id: nat
      ensures SyncedAt(Reapplied(w), h, id) <==> (IndexOf(w.table.rows, id).None? ==> Own(At(w, h), id) == [])
    {
      ReappliedAt(w, h, id);
    }
  }

  /** Replaying the table makes table and chains agree exactly when no rule has an orphaned tag. */
  lemma ReapplySyncsIff(w: World)
    requires TableInv(w.table) && OneTagEach(w)
    ensures Synced(Reapplied(w)) <==> HomedEach(w)
  {
    hide SyncedAt, Homed, TableInv, OneTagEach, Reapplied;
    var u := Reapplied(w);
    ReapplySyncsHook(w, Prerouting);
    ReapplySyncsHook(w, Filtering);
    ReapplySyncsHook(w, Postrouting);
    if Synced(u) {
      assert forall h, id: nat :: SyncedAt(u, h, id);
    }
    if HomedEach(w) {
      forall h, id: nat ensures SyncedAt(u, h, id) {
        match h {
          case Prerouting =>
          case Filtering =>
          case Postrouting =>
        }
      }
    }
  }

  lemma HomedMeansNoOrphans(rules: Rules, rows: seq<Forward>)
    requires Homed(rules, rows)
    ensures NoOrphans(rules, Ids(rows), Tags)
  {
    hide HasTag, Tags, IndexOf;
    forall l | l in rules && Tagged(l, Tags) ensures Owned(l, Ids(rows), Tags) {
      var id: nat :| HasTag(l, Tags(id));
      IdsHave(rows, id);
      var k :| 0 <= k < |Ids(rows)| && Ids(rows)[k] == id;
    }
  }

  /** And then the tagged rules stand in the order of the rows; foreign rules are as before. */
  lemma ReapplyInOrder(w: World, h: Hook)
    ensures HomedEach(w) ==> Filter(At(Reapplied(w), h), IsTagged(Tags)) == ShownAll(h, w.table.rows)
    ensures Filter(At(Reapplied(w), h), IsForeign(Tags)) == Filter(At(w, h), IsForeign(Tags))
  {
    var rows := w.table.rows;
    if HomedEach(w) {
      HomedMeansNoOrphans(At(w, h), rows);
    }
    ShownAllIsTagged(h, rows);
    hide Homed, Tagged, NotOwned, Owned;
    ReplaySyncsIff(At(w, h), Ids(rows), Tags, ShownAll(h, rows));
  }

  // ---- Where a packet goes ----

  predicate Admits(s: Source, src: nat) {
    s.text == "" || s.holds(src)
  }

  /** The rule rewrites the packet's destination. */
  predicate Redirects(b: Body, p: Packet) {
    match b
    case Dnat(iface, source, protocol, dport, target) =>
      && p.protocol == protocol
      && Parse(dport).Some? && In(p.port, Parse(dport).value)
      && (iface == "" || iface == p.iface)
      && Admits(source, p.src)
    case Other(hits, target) => hits(p)
    case AcceptTo(_, _, _) => false
    case Masquerade(_, _, _) => false
  }

  /** Where a packet is sent. */
  datatype Goal = Goal(address: string, port: int)

  /** The text before the first colon, and after it. */
  function ColonCut(s: string): (string, Option<string>) {
    if s == [] then ([], None)
    else if s[0] == ':' then ([], Some(s[1..]))
    else (([s[0]] + ColonCut(s[1..]).0), ColonCut(s[1..]).1)
  }

  lemma {:induction false} ColonCutAt(a: string, b: string)
    requires ':' !in a
    ensures ColonCut(a) == (a, None) && ColonCut(a + ":" + b) == (a, Some(b))
  {
    if a == [] {
      assert a + ":" + b == ":" + b && (":" + b)[1..] == b;
    } else {
      assert a == [a[0]] + a[1..];
      assert a + ":" + b == [a[0]] + (a[1..] + ":" + b);
      ColonCutAt(a[1..], b);
    }
  }

  /**
   How the kernel reads `dnat to target` for a packet that came for one of the ports
   `dport`: without ports in the target the packet keeps its own, a span takes it port for port.
   */
  function Rewritten(target: string, dport: string, p: Packet): Goal {
    var (address, ports) := ColonCut(target);
    if ports.None? || Parse(ports.value).None? || Parse(dport).None? then Goal(address, p.port)
    else Goal(address, Parse(ports.value).value.first + (p.port - Parse(dport).value.first))
  }

  function GoalOf(b: Body, p: Packet): Goal {
    match b
    case Dnat(_, _, _, dport, target) => Rewritten(target, dport, p)
    case Other(_, target) => Rewritten(target, "", p)
    case AcceptTo(_, _, _) => Goal("", p.port)
    case Masquerade(_, _, _) => Goal("", p.port)
  }

  /** The first rule that redirects a packet decides where it goes. */
  function FirstGoal(rules: Rules, p: Packet): Option<Goal> {
    if rules == [] then None
    else if Redirects(rules[0].body, p) then Some(GoalOf(rules[0].body, p))
    else FirstGoal(rules[1..], p)
  }

  lemma {:induction false} FirstGoalIs(rules: Rules, p: Packet, goal: Goal)
    requires forall l :: l in rules && Redirects(l.body, p) ==> GoalOf(l.body, p) == goal
    ensures FirstGoal(rules, p) == if exists l :: l in rules && Redirects(l.body, p) then Some(goal) else None
  {
    hide Redirects, GoalOf;
    if rules != [] {
      assert rules == [rules[0]] + rules[1..];
      FirstGoalIs(rules[1..], p, goal);
      if Redirects(rules[0].body, p) {
        assert rules[0] in rules;
      }
    }
  }

  /** A rule of the filter or the postrouting chain hits a packet already on its way to `g`. */
  predicate HitsAfter(b: Body, protocol: string, g: Goal) {
    match b
    case AcceptTo(dest, proto, dport) =>
      g.address == dest && protocol == proto && Parse(dport).Some? && In(g.port, Parse(dport).value)
    case Masquerade(dest, proto, dport) =>
      g.address == dest && protocol == proto && Parse(dport).Some? && In(g.port, Parse(dport).value)
    case Dnat(_, _, _, _, _) => false
    case Other(_, _) => false
  }

  /** Where the user wants a packet to go: to the destination, at the port as far into its span as the packet's is. */
  function Intended(r: Forward, p: Packet): Goal
    requires WellFormed(r)
  {
    Goal(r.dest.text,
         if r.destPort == "" then p.port
         else Parse(r.destPort).value.first + (p.port - Parse(r.listen).value.first))
  }

  /** The rule laid for a row sends its packets where they are wanted; the address is in dotted form. */
  lemma RowsGoal(r: Forward, p: Packet)
    requires WellFormed(r) && ':' !in r.dest.text
    ensures GoalOf(BodyOf(Prerouting, r), p)
         == Goal(r.dest.text,
                 if r.destPort == "" then p.port else Parse(r.destPort).value.first + (p.port - Parse(r.listen).value.first))
  {
    hide Parse, ColonCut;
    ColonCutAt(r.dest.text, r.destPort);
  }

  /**
   The accept rule of a row, and its masquerade rule, hit exactly the packets that are on
   their way from the row's listening ports to where the row sends them.
   */
  lemma RowsRulesHitItsGoals(h: Hook, r: Forward, protocol: string, g: Goal)
    requires WellFormed(r) && !h.Prerouting?
    ensures HitsAfter(BodyOf(h, r), protocol, g) <==>
              exists p: Packet :: p.protocol == protocol && Matches(r, p) && Intended(r, p) == g
  {
    ParsedInOrder(r.listen);
    ParsedInOrder(r.destPort);
    hide Parse;
    if HitsAfter(BodyOf(h, r), protocol, g) {
      var l := Parse(r.listen).value;
      var port: int := if r.destPort == "" then g.port else l.first + (g.port - Parse(r.destPort).value.first);
      var p := Packet(protocol, port, r.iface, 0);
      assert Matches(r, p) && Intended(r, p) == g;
    }
  }

  /** No rule of anyone else redirects the packet. */
  ghost predicate ForeignStandAside(rules: Rules, p: Packet) {
    forall l :: l in rules && !Tagged(l, Tags) ==> !Redirects(l.body, p)
  }

  /** In agreeing chains a redirecting rule is that of an enabled row the packet is meant for. */
  lemma RedirectingRule(w: World, p: Packet, l: Line<Body>)
    requires Synced(w) && ForeignStandAside(w.pre, p) && l in w.pre && Redirects(l.body, p)
    ensures exists i :: 0 <= i < |w.table.rows| && l in Shown(Prerouting, w.table.rows[i])
    ensures forall i :: 0 <= i < |w.table.rows| && l in Shown(Prerouting, w.table.rows[i]) ==>
              w.table.rows[i].enabled && Matches(w.table.rows[i], p) && Admits(w.table.rows[i].source, p.src)
              && l.body == BodyOf(Prerouting, w.table.rows[i])
  {
    hide Parse, Tags, HasTag, Own, DnatTarget;
    var id: nat :| HasTag(l, Tags(id));
    OwnMember(w.pre, id, l);
    assert SyncedAt(w, Prerouting, id);
    assert l in Wanted(Prerouting, w.table.rows, id);
  }

  lemma RowIsInChain(w: World, h: Hook, i: nat)
    requires TableInv(w.table) && Synced(w) && i < |w.table.rows| && w.table.rows[i].enabled
    ensures Own(At(w, h), w.table.rows[i].id) == Gen(h, w.table.rows[i])
    ensures !h.Postrouting? || w.table.rows[i].dest.isPrivate ==>
              Line(BodyOf(h, w.table.rows[i]), Comment(Prefix(h), w.table.rows[i].id)) in At(w, h)
  {
    var row := w.table.rows[i];
    WantedIs(h, w.table, i);
    assert SyncedAt(w, h, row.id);
    hide Own, Tags, HasTag, Wanted, BodyOf;
    if Gen(h, row) != [] {
      assert Gen(h, row)[0] in Own(At(w, h), row.id);
      OwnMember(At(w, h), row.id, Gen(h, row)[0]);
    }
  }

  /** Of all rules only that of its row redirects a packet, whatever their order. */
  lemma OnlyItsRuleRedirects(w: World, p: Packet, i: nat)
    requires TableInv(w.table) && ConflictFree(w.table.rows) && Synced(w) && ForeignStandAside(w.pre, p)
    requires i < |w.table.rows| && w.table.rows[i].enabled && Matches(w.table.rows[i], p)
    ensures FirstGoal(w.pre, p)
         == if Admits(w.table.rows[i].source, p.src) then Some(GoalOf(BodyOf(Prerouting, w.table.rows[i]), p)) else None
  {
    var row := w.table.rows[i];
    RowIsInChain(w, Prerouting, i);
    var own := Line(BodyOf(Prerouting, row), Comment(DNAT_PREFIX, row.id));
    assert Redirects(own.body, p) <==> Admits(row.source, p.src);
    hide Parse, Tags, Synced, TableInv, Matches, Redirects, Admits, Shown, DnatTarget, ForeignStandAside, GoalOf, BodyOf, Gen;
    forall l | l in w.pre && Redirects(l.body, p)
      ensures l.body == BodyOf(Prerouting, row) && Admits(row.source, p.src)
    {
      RedirectingRule(w, p, l);
      var k :| 0 <= k < |w.table.rows| && l in Shown(Prerouting, w.table.rows[k]);
      AtMostOneMatches(w.table.rows, i, k, p);
    }
    FirstGoalIs(w.pre, p, GoalOf(own.body, p));
  }

  /**
   When table and chains agree and the table is free of conflicts, a packet meant for an
   enabled row is sent to the row's destination, at the port as far into its span as the
   packet's own, if the row's source restriction admits it, and is left alone otherwise.
   */
  lemma WhereAPacketGoes(w: World, p: Packet, i: nat)
    requires TableInv(w.table) && ConflictFree(w.table.rows) && Synced(w) && ForeignStandAside(w.pre, p)
    requires i < |w.table.rows| && w.table.rows[i].enabled && Matches(w.table.rows[i], p)
    requires WellFormed(w.table.rows[i]) && ':' !in w.table.rows[i].dest.text
    ensures FirstGoal(w.pre, p)
         == if Admits(w.table.rows[i].source, p.src)
            then Some(Goal(w.table.rows[i].dest.text,
                           if w.table.rows[i].destPort == "" then p.port
                           else Parse(w.table.rows[i].destPort).value.first
                                + (p.port - Parse(w.table.rows[i].listen).value.first)))
            else None
  {
    hide *;
    OnlyItsRuleRedirects(w, p, i);
    RowsGoal(w.table.rows[i], p);
  }

  /**
   And it gets there: the filter chain has a rule of the row's that accepts it, and, if the
   destination is private, the postrouting chain one that masquerades it; for any other
   destination it has none of the row's.
   */
  lemma ThePacketIsLetThrough(w: World, p: Packet, i: nat)
    requires TableInv(w.table) && Synced(w) && i < |w.table.rows| && w.table.rows[i].enabled
    requires WellFormed(w.table.rows[i]) && Matches(w.table.rows[i], p)
    ensures var row := w.table.rows[i];
            && (exists l :: l in w.fwd && l.body.AcceptTo? && HitsAfter(l.body, p.protocol, Intended(row, p)))
            && (if row.dest.isPrivate
                then exists l :: l in w.post && l.body.Masquerade? && HitsAfter(l.body, p.protocol, Intended(row, p))
                else Own(w.post, row.id) == [])
  {
    var row := w.table.rows[i];
    RowIsInChain(w, Filtering, i);
    RowIsInChain(w, Postrouting, i);
    RowsRulesHitItsGoals(Filtering, row, p.protocol, Intended(row, p));
    RowsRulesHitItsGoals(Postrouting, row, p.protocol, Intended(row, p));
    hide HitsAfter, Matches, WellFormed, Synced, TableInv, Own;
    assert BodyOf(Filtering, row).AcceptTo? && BodyOf(Postrouting, row).Masquerade?;
  }

  /** A packet that no enabled row is meant for is not redirected. */
  lemma OtherPacketsStay(w: World, p: Packet)
    requires Synced(w) && ForeignStandAside(w.pre, p)
    requires forall i :: 0 <= i < |w.table.rows| ==> !(w.table.rows[i].enabled && Matches(w.table.rows[i], p))
    ensures FirstGoal(w.pre, p) == None
  {
    hide Synced, Matches, Redirects, Shown, ForeignStandAside, GoalOf, BodyOf;
    forall l | l in w.pre ensures !Redirects(l.body, p) {
      if Redirects(l.body, p) {
        RedirectingRule(w, p, l);
        assert false;
      }
    }
    FirstGoalIs(w.pre, p, Goal("", 0));
  }

  // ---- Steps and how they end ----

  datatype Act = Do(op: Op, fault: Fault) | Replay

  /** One operation in which nothing fails. */
  function Stepped(w: World, op: Op): World {
    match op
    case CreateOp(rule, reserved) => Created(w, rule, reserved)
    case UpdateOp(rule, reserved) => Updated(w, rule, reserved)
    case SetEnabledOp(id, enabled, reserved) => Switched(w, id, enabled, reserved)
    case DeleteOp(id) => Deleted(w, id)
  }

  /** removeForward, which goes on after a failure and tells nobody: some of the id's rules are gone. */
  ghost predicate Thin(w: World, u: World, id: nat) {
    && u.table == w.table
    && Thinned(w.pre, u.pre, Tags(id)) && Thinned(w.fwd, u.fwd, Tags(id)) && Thinned(w.post, u.post, Tags(id))
  }

  /** How many rules applyForward adds. */
  function Parts(r: Forward): nat {
    if r.dest.isPrivate then 3 else 2
  }

  /** applyForward, ended after `k` rules. */
  function LaidPart(w: World, r: Forward, k: nat): World {
    w.(pre := if k >= 1 then w.pre + Gen(Prerouting, r) else w.pre,
       fwd := if k >= 2 then w.fwd + Gen(Filtering, r) else w.fwd,
       post := if k >= 3 then w.post + Gen(Postrouting, r) else w.post)
  }

  /** applyForward failed: some rules, but not all, were added. */
  ghost predicate PartlyLaid(w: World, r: Forward, v: World) {
    exists k: nat :: k < Parts(r) && v == LaidPart(w, r, k)
  }

  ghost predicate Replays(w: World, rows: seq<Forward>, v: World)
    decreases |rows|
  {
    if rows == [] then v == w
    else exists u, x :: Replays(w, Front(rows), u) && RowReplayed(u, Last(rows), x, v)
  }

  function Front(rows: seq<Forward>): seq<Forward>
    requires rows != []
  {
    rows[..|rows| - 1]
  }

  function Last(rows: seq<Forward>): Forward
    requires rows != []
  {
    rows[|rows| - 1]
  }

  /** One row of a replay: removed, and applied if it is enabled. */
  ghost predicate RowReplayed(u: World, r: Forward, x: World, v: World) {
    Thin(u, x, r.id) && if r.enabled then v == Laid(x, r) || PartlyLaid(x, r, v) else v == x
  }

  /** What a step may lead to, given which of its visible parts failed. */
  ghost predicate Next(w: World, act: Act, v: World) {
    match act
    case Do(op, fault) => v.table == TableStep(w.table, op, fault) && ChainsNext(w.(table := v.table), w.table, op, fault, v)
    case Replay => v == w || Replays(w, w.table.rows, v)
  }

  /** The same for the chains; `t` is the table before, `u` has the new one. */
  ghost predicate ChainsNext(u: World, t: Table, op: Op, fault: Fault, v: World) {
    match op
    case CreateOp(r, reserved) =>
      var a := Admitted(t, r, reserved);
      if a.None? || fault.ReadFails? || fault.WriteFails? then v == u
      else if fault.Clean? then v == Laid(u, a.value.(id := t.nextId))
      else PartlyLaid(u, a.value.(id := t.nextId), v)
    case UpdateOp(r, reserved) =>
      var a := Admitted(t, r, reserved);
      if IndexOf(t.rows, r.id).None? || a.None? || fault.ReadFails? then v == u
      else
        exists x :: Thin(u, x, r.id)
                 && if fault.WriteFails? || (fault.Clean? && !r.enabled) then v == x
                    else if fault.Clean? then v == Laid(x, a.value)
                    else r.enabled && PartlyLaid(x, a.value, v)
    case SetEnabledOp(id, enabled, reserved) =>
      var at := IndexOf(t.rows, id);
      if at.None? || fault.ReadFails? then v == u
      else if !enabled then Thin(u, v, id)
      else
        var a := Admitted(t, t.rows[at.value], reserved);
        if a.None? then v == u
        else if fault.Clean? || fault.WriteFails? then v == Laid(u, a.value)
        else PartlyLaid(u, a.value, v)
    case DeleteOp(id) => Thin(u, v, id)
  }

  /** The id whose rules a step is about. */
  function IdOf(t: Table, op: Op): nat {
    match op
    case CreateOp(_, _) => t.nextId
    case UpdateOp(r, _) => r.id
    case SetEnabledOp(id, _, _) => id
    case DeleteOp(id) => id
  }

  ghost predicate Concerns(t: Table, act: Act, j: nat) {
    if act.Do? then j == IdOf(t, act.op) else IndexOf(t.rows, j).Some?
  }

  /** A step in which nothing fails is one that may happen. */
  lemma CleanStepIsNext(w: World, op: Op)
    requires TableInv(w.table)
    ensures Next(w, Do(op, Clean), Stepped(w, op))
  {
    hide Thinned, TableInv, Gen, Tags;
    match op {
      case CreateOp(r, reserved) => hide Admitted;
      case UpdateOp(r, reserved) =>
        hide Admitted, IndexOf;
        AdmittedKeeps(w.table, r, reserved);
        var u := w.(table := AfterUpdate(w.table, r, reserved, Clean));
        StrippedIsThin(u, r.id);
        assert Thin(u, Stripped(u, r.id), r.id);
      case SetEnabledOp(id, enabled, reserved) =>
        hide Admitted, IndexOf;
        StrippedIsThin(w.(table := AfterSetEnabled(w.table, id, enabled, reserved, Clean)), id);
      case DeleteOp(id) =>
        hide IndexOf;
        StrippedIsThin(w.(table := AfterDelete(w.table, id, Clean)), id);
    }
  }

  lemma StrippedIsThin(w: World, id: nat)
    ensures Thin(w, Stripped(w, id), id)
  {
    hide Thinned, Tags;
    ThinnedFully(w.pre, Tags(id));
    ThinnedFully(w.fwd, Tags(id));
    ThinnedFully(w.post, Tags(id));
  }

  // ---- What the parts of a step leave alone ----

  ghost predicate SameOwn(w: World, v: World, j: nat) {
    forall h :: Own(At(v, h), j) == Own(At(w, h), j)
  }

  ghost predicate NoneOwn(w: World, j: nat) {
    forall h :: Own(At(w, h), j) == []
  }

  lemma ThinnedOwn(before: Rules, after: Rules, id: nat, j: nat)
    requires Thinned(before, after, Tags(id)) && OneTag(before)
    ensures OneTag(after)
    ensures j != id ==> Own(after, j) == Own(before, j)
    ensures Own(before, j) == [] ==> Own(after, j) == []
  {
    hide Thinned, Tags, HasTag;
    forall l, i: nat, k: nat | l in after && HasTag(l, Tags(i)) && HasTag(l, Tags(k)) ensures i == k {
      ThinnedMembers(before, after, Tags(id), l);
    }
    if j != id {
      forall i | 0 <= i < |before| ensures Mine(j)(before[i]) ==> !HasTag(before[i], Tags(id)) {
        assert before[i] in before;
      }
      ThinnedSelects(before, after, Tags(id), Mine(j));
    }
    if Own(after, j) != [] {
      var l := Own(after, j)[0];
      OwnMember(after, j, l);
      ThinnedMembers(before, after, Tags(id), l);
      OwnMember(before, j, l);
    }
  }

  lemma ThinOwn(w: World, u: World, id: nat, j: nat)
    requires Thin(w, u, id) && OneTagEach(w)
    ensures OneTagEach(u)
    ensures j != id ==> SameOwn(w, u, j)
    ensures NoneOwn(w, j) ==> NoneOwn(u, j)
  {
    hide Thinned, Tags, OneTag, Own;
    ThinnedOwn(w.pre, u.pre, id, j);
    ThinnedOwn(w.fwd, u.fwd, id, j);
    ThinnedOwn(w.post, u.post, id, j);
    if NoneOwn(w, j) {
      assert Own(At(w, Prerouting), j) == [] && Own(At(w, Filtering), j) == [] && Own(At(w, Postrouting), j) == [];
    }
  }

  lemma LaidPartIs(w: World, r: Forward, h: Hook, k: nat)
    ensures At(LaidPart(w, r, k), h) == At(w, h) || At(LaidPart(w, r, k), h) == At(w, h) + Gen(h, r)
    ensures At(Laid(w, r), h) == At(w, h) + Gen(h, r)
    ensures LaidPart(w, r, 0) == w && LaidPart(w, r, k).table == w.table
  {
  }

  lemma LaidPartOwn(w: World, r: Forward, k: nat, j: nat)
    requires OneTagEach(w)
    ensures OneTagEach(LaidPart(w, r, k)) && OneTagEach(Laid(w, r))
    ensures j != r.id ==> SameOwn(w, LaidPart(w, r, k), j) && SameOwn(w, Laid(w, r), j)
  {
    hide OneTag, Own, Gen;
    forall h
      ensures OneTag(At(w, h)) ==> OneTag(At(LaidPart(w, r, k), h)) && OneTag(At(Laid(w, r), h))
      ensures j != r.id ==> Own(At(LaidPart(w, r, k), h), j) == Own(At(w, h), j) == Own(At(Laid(w, r), h), j)
    {
      LaidPartIs(w, r, h, k);
      OwnAfterAdd(At(w, h), h, r, j);
      if OneTag(At(w, h)) {
        AddKeepsOneTag(At(w, h), h, r);
      }
    }
    var x, y := LaidPart(w, r, k), Laid(w, r);
    assert At(x, Prerouting) == x.pre && At(x, Filtering) == x.fwd && At(x, Postrouting) == x.post;
    assert At(y, Prerouting) == y.pre && At(y, Filtering) == y.fwd && At(y, Postrouting) == y.post;
    assert At(w, Prerouting) == w.pre && At(w, Filtering) == w.fwd && At(w, Postrouting) == w.post;
  }

  /** A part leaves rules behind exactly if its first one was added. */
  lemma LaidPartLeaves(w: World, r: Forward, k: nat)
    requires NoneOwn(w, r.id)
    ensures NoneOwn(LaidPart(w, r, k), r.id) <==> k == 0
    ensures |LaidPart(w, r, k).pre| > |w.pre| <==> k > 0
  {
    hide Own;
    if k > 0 {
      OwnAfterAdd(w.pre, Prerouting, r, r.id);
      assert Own(At(w, Prerouting), r.id) == [];
      assert Own(At(LaidPart(w, r, k), Prerouting), r.id) != [];
    }
  }

  lemma PartlyLaidOwn(w: World, r: Forward, v: World, j: nat)
    requires PartlyLaid(w, r, v) && OneTagEach(w)
    ensures OneTagEach(v) && v.table == w.table && (j != r.id ==> SameOwn(w, v, j))
  {
    hide OneTagEach, SameOwn, LaidPart, Parts;
    var k: nat :| k < Parts(r) && v == LaidPart(w, r, k);
    LaidPartOwn(w, r, k, j);
    LaidPartIs(w, r, Prerouting, k);
  }

  lemma SameOwnTwice(w: World, u: World, v: World, j: nat)
    ensures SameOwn(w, u, j) && SameOwn(u, v, j) ==> SameOwn(w, v, j)
    ensures SameOwn(w, w, j)
  {
    hide Own;
  }

  lemma {:induction false} ReplaysOwn(w: World, rows: seq<Forward>, v: World, j: nat)
    requires Replays(w, rows, v) && OneTagEach(w)
    ensures OneTagEach(v) && v.table == w.table
    ensures (forall i :: 0 <= i < |rows| ==> rows[i].id != j) ==> SameOwn(w, v, j)
    decreases |rows|
  {
    hide OneTagEach, SameOwn, Thin, Laid, PartlyLaid;
    SameOwnTwice(w, w, v, j);
    if rows != [] {
      var r := Last(rows);
      var u, x :| Replays(w, Front(rows), u) && RowReplayed(u, r, x, v);
      ReplaysOwn(w, Front(rows), u, j);
      ThinOwn(u, x, r.id, j);
      ThinTable(u, x, r);
      SameOwnTwice(w, u, x, j);
      if v == Laid(x, r) {
        LaidPartOwn(x, r, 0, j);
      } else if v != x {
        PartlyLaidOwn(x, r, v, j);
      }
      SameOwnTwice(w, x, v, j);
      assert rows[|rows| - 1].id == r.id && forall i :: 0 <= i < |rows| - 1 ==> Front(rows)[i] == rows[i];
    }
  }

  lemma ThinTable(u: World, x: World, r: Forward)
    ensures Thin(u, x, r.id) ==> x.table == u.table
    ensures Laid(x, r).table == x.table
  {
  }

  /** The same world with another table has the same chains. */
  lemma OtherTable(w: World, t: Table, j: nat)
    ensures SameOwn(w, w.(table := t), j)
    ensures OneTagEach(w) <==> OneTagEach(w.(table := t))
    ensures NoneOwn(w, j) <==> NoneOwn(w.(table := t), j)
  {
    hide Own, OneTag;
    assert forall h :: At(w.(table := t), h) == At(w, h);
  }

  lemma ChainsNextOwn(u: World, t: Table, op: Op, fault: Fault, v: World, j: nat)
    requires ChainsNext(u, t, op, fault, v) && OneTagEach(u)
    ensures OneTagEach(v) && (j != IdOf(t, op) ==> SameOwn(u, v, j))
  {
    hide OneTagEach, SameOwn, Thin, Laid, PartlyLaid, Admitted, IndexOf;
    SameOwnTwice(u, u, v, j);
    match op {
      case CreateOp(r, reserved) =>
        var a := Admitted(t, r, reserved);
        if a.Some? {
          LaidOrPartly(u, a.value.(id := t.nextId), v, j);
        }
      case UpdateOp(r, reserved) =>
        var a := Admitted(t, r, reserved);
        if v != u {
          AdmittedKeeps(t, r, reserved);
          var x :| Thin(u, x, r.id) && if fault.WriteFails? || (fault.Clean? && !r.enabled) then v == x
                                       else if fault.Clean? then v == Laid(x, a.value)
                                       else r.enabled && PartlyLaid(x, a.value, v);
          ThinOwn(u, x, r.id, j);
          LaidOrPartly(x, a.value, v, j);
          SameOwnTwice(u, x, v, j);
        }
      case SetEnabledOp(id, enabled, reserved) =>
        if v != u {
          if !enabled {
            ThinOwn(u, v, id, j);
          } else {
            var row := t.rows[IndexOf(t.rows, id).value];
            AdmittedKeeps(t, row, reserved);
            LaidOrPartly(u, Admitted(t, row, reserved).value, v, j);
          }
        }
      case DeleteOp(id) => ThinOwn(u, v, id, j);
    }
  }

  lemma AdmittedKeeps(t: Table, r: Forward, reserved: nat -> bool)
    ensures Admitted(t, r, reserved).Some? ==>
              Admitted(t, r, reserved).value.id == r.id && Admitted(t, r, reserved).value.enabled == r.enabled
  {
    NormalKeeps(r);
  }

  lemma LaidOrPartly(u: World, r: Forward, v: World, j: nat)
    requires OneTagEach(u)
    ensures v == Laid(u, r) || PartlyLaid(u, r, v) ==> OneTagEach(v) && (j != r.id ==> SameOwn(u, v, j))
  {
    hide OneTagEach, SameOwn, PartlyLaid, Laid;
    LaidPartOwn(u, r, 0, j);
    if PartlyLaid(u, r, v) {
      PartlyLaidOwn(u, r, v, j);
    }
  }

  /** A step changes the rules of the ids it concerns, and of no others. */
  lemma NextOwn(w: World, act: Act, v: World, j: nat)
    requires Next(w, act, v) && OneTagEach(w)
    ensures OneTagEach(v) && (!Concerns(w.table, act, j) ==> SameOwn(w, v, j))
  {
    hide OneTagEach, SameOwn, Replays, ChainsNext, TableStep;
    SameOwnTwice(w, w, v, j);
    if act.Do? {
      var u := w.(table := v.table);
      OtherTable(w, v.table, j);
      ChainsNextOwn(u, w.table, act.op, act.fault, v, j);
      SameOwnTwice(w, u, v, j);
    } else if v != w {
      ReplaysOwn(w, w.table.rows, v, j);
      IndexFinds(w.table.rows, j);
    }
  }

  // ---- Orphans ----

  /** Rules are there under the id, but no row. */
  ghost predicate Orphan(w: World, id: nat) {
    IndexOf(w.table.rows, id).None? && !NoneOwn(w, id)
  }

  /**
   The step leaves orphans: a Create taken back after its first rule was added, or a row
   deleted while a rule of its was not removed.
   */
  ghost predicate Orphaning(w: World, act: Act, v: World, id: nat) {
    match act
    case Do(CreateOp(r, reserved), fault) =>
      fault.ApplyFails? && Admitted(w.table, r, reserved).Some? && id == w.table.nextId && |v.pre| > |w.pre|
    case Do(DeleteOp(d), fault) => fault.Clean? && d == id && IndexOf(w.table.rows, id).Some? && !NoneOwn(v, id)
    case Do(UpdateOp(_, _), _) => false
    case Do(SetEnabledOp(_, _, _), _) => false
    case Replay => false
  }

  /** Deleting an id that has no row any more still removes its rules. */
  ghost predicate Sweeps(act: Act, v: World, id: nat) {
    act.Do? && act.op == DeleteOp(id) && NoneOwn(v, id)
  }

  ghost predicate Inv(w: World) {
    TableInv(w.table) && OneTagEach(w) && forall j :: j >= w.table.nextId ==> NoneOwn(w, j)
  }

  /** Which ids a step leaves with a row. */
  lemma RowsAfter(t: Table, op: Op, fault: Fault, j: nat)
    requires TableInv(t)
    ensures var rows := TableStep(t, op, fault).rows;
            && (j != IdOf(t, op) ==> (IndexOf(rows, j).Some? <==> IndexOf(t.rows, j).Some?))
            && (op.UpdateOp? || op.SetEnabledOp? ==> (IndexOf(rows, j).Some? <==> IndexOf(t.rows, j).Some?))
            && (op.DeleteOp? && j == op.id ==> (IndexOf(rows, j).Some? <==> IndexOf(t.rows, j).Some? && fault != Clean))
            && (op.CreateOp? ==> IndexOf(t.rows, t.nextId).None?)
            && (op.CreateOp? && j == t.nextId ==> (IndexOf(rows, j).Some? <==>
                  Admitted(t, op.rule, op.reserved).Some? && (fault.Clean? || fault.UndoFails?)))
  {
    hide Admitted, TableInv, IndexOf;
    match op {
      case CreateOp(r, reserved) => RowsAfterCreate(t, r, reserved, fault, j);
      case UpdateOp(r, reserved) =>
        var at, a := IndexOf(t.rows, r.id), Admitted(t, r, reserved);
        if at.Some? && a.Some? {
          AdmittedKeeps(t, r, reserved);
          SameIdsSameIndexes(t.rows, at.value, a.value, j);
        }
      case SetEnabledOp(id, enabled, reserved) =>
        var at := IndexOf(t.rows, id);
        if at.Some? {
          SameIdsSameIndexes(t.rows, at.value, t.rows[at.value].(enabled := enabled), j);
        }
      case DeleteOp(id) =>
        if fault == Clean {
          RowsAfterDelete(t, id, j);
        }
    }
  }

  lemma RowsAfterCreate(t: Table, r: Forward, reserved: nat -> bool, fault: Fault, j: nat)
    requires TableInv(t)
    ensures IndexOf(t.rows, t.nextId).None?
    ensures var there := IndexOf(AfterCreate(t, r, reserved, fault).rows, j).Some?;
            if j == t.nextId then there <==> Admitted(t, r, reserved).Some? && (fault.Clean? || fault.UndoFails?)
            else there <==> IndexOf(t.rows, j).Some?
  {
    RowIdsAreOld(t, t.nextId);
    hide Admitted, TableInv, IndexOf;
    if Admitted(t, r, reserved).Some? {
      IndexOfSnoc(t.rows, Admitted(t, r, reserved).value.(id := t.nextId), j);
    }
  }

  lemma RowsAfterDelete(t: Table, id: nat, j: nat)
    requires TableInv(t)
    ensures var there := IndexOf(AfterDelete(t, id, Clean).rows, j).Some?;
            if j == id then !there else there <==> IndexOf(t.rows, j).Some?
  {
    hide IsNormal;
    IndexFinds(t.rows, id);
    if IndexOf(t.rows, id).Some? {
      RowsAfterCut(t.rows, IndexOf(t.rows, id).value, j);
    }
  }

  lemma CutHas(rows: seq<Forward>, at: nat, j: nat)
    requires at < |rows|
    ensures var cut := rows[..at] + rows[at + 1..];
            (exists k :: 0 <= k < |cut| && cut[k].id == j) <==> exists k :: 0 <= k < |rows| && k != at && rows[k].id == j
  {
    var cut := rows[..at] + rows[at + 1..];
    if k :| 0 <= k < |cut| && cut[k].id == j {
      var m := if k < at then k else k + 1;
      assert cut[k] == rows[m];
    }
    if k :| 0 <= k < |rows| && k != at && rows[k].id == j {
      var m := if k < at then k else k - 1;
      assert cut[m] == rows[k];
    }
  }

  lemma IndexHas(rows: seq<Forward>, id: nat)
    ensures IndexOf(rows, id).Some? <==> exists k :: 0 <= k < |rows| && rows[k].id == id
  {
    IndexFinds(rows, id);
  }

  lemma RowsAfterCut(rows: seq<Forward>, at: nat, j: nat)
    requires at < |rows| && forall k :: 0 <= k < |rows| && k != at ==> rows[k].id != rows[at].id
    ensures var there := IndexOf(rows[..at] + rows[at + 1..], j).Some?;
            if j == rows[at].id then !there else there <==> IndexOf(rows, j).Some?
  {
    hide IndexOf;
    IndexHas(rows, j);
    IndexHas(rows[..at] + rows[at + 1..], j);
    CutHas(rows, at, j);
  }

  lemma SameIdsSameIndexes(rows: seq<Forward>, at: nat, r: Forward, j: nat)
    requires at < |rows| && r.id == rows[at].id
    ensures IndexOf(rows, j).Some? <==> IndexOf(rows[at := r], j).Some?
  {
    IndexFinds(rows, j);
    IndexFinds(rows[at := r], j);
    assert forall i :: 0 <= i < |rows| ==> rows[at := r][i].id == rows[i].id;
  }

  lemma SameOwnNone(w: World, v: World, j: nat)
    requires SameOwn(w, v, j)
    ensures NoneOwn(w, j) <==> NoneOwn(v, j)
  {
    hide Own;
    if NoneOwn(v, j) {
      forall h ensures Own(At(w, h), j) == [] {
        assert Own(At(v, h), j) == [];
      }
    }
  }

  lemma CreateLeaves(w: World, act: Act, v: World)
    requires Inv(w) && Next(w, act, v) && act.Do? && act.op.CreateOp? && act.fault.ApplyFails?
    requires Admitted(w.table, act.op.rule, act.op.reserved).Some?
    ensures NoneOwn(v, w.table.nextId) <==> |v.pre| <= |w.pre|
  {
    hide Own, Gen, Admitted, TableStep, TableInv, OneTagEach, NoneOwn, Parts, LaidPart;
    var u := w.(table := v.table);
    var row := Admitted(w.table, act.op.rule, act.op.reserved).value.(id := w.table.nextId);
    OtherTable(w, v.table, row.id);
    var k: nat :| k < Parts(row) && v == LaidPart(u, row, k);
    assert NoneOwn(w, w.table.nextId);
    LaidPartLeaves(u, row, k);
  }

  lemma RefusedCreate(w: World, act: Act, v: World)
    requires Next(w, act, v) && act.Do? && act.op.CreateOp?
    requires Admitted(w.table, act.op.rule, act.op.reserved).None? || act.fault.ReadFails? || act.fault.WriteFails?
    ensures v == w
  {
    hide Admitted;
  }

  lemma DeleteThins(w: World, act: Act, v: World, id: nat)
    requires Inv(w) && Next(w, act, v) && act.Do? && act.op == DeleteOp(id)
    ensures NoneOwn(w, id) ==> NoneOwn(v, id)
  {
    hide Own, TableStep, TableInv, OneTagEach, NoneOwn, Thin;
    OtherTable(w, v.table, id);
    ThinOwn(w.(table := v.table), v, id, id);
  }

  /** A refused Update or switch leaves the chains alone. */
  lemma NoRowNoChange(w: World, act: Act, v: World, id: nat)
    requires Next(w, act, v) && act.Do? && IndexOf(w.table.rows, id).None?
    requires (act.op.UpdateOp? && act.op.rule.id == id) || (act.op.SetEnabledOp? && act.op.id == id)
    ensures v == w
  {
    hide Admitted;
  }

  /** After a step an id is orphaned exactly if it was before and was not swept, or if the step orphaned it. */
  lemma StepOrphansIff(w: World, act: Act, v: World, id: nat)
    requires Inv(w) && Next(w, act, v)
    ensures Orphan(v, id) <==> (Orphan(w, id) && !Sweeps(act, v, id)) || Orphaning(w, act, v, id)
  {
    hide SameOwn, NoneOwn, OneTagEach, TableInv, Admitted, ChainsNext, Replays, TableStep, IndexOf;
    NextOwn(w, act, v, id);
    if !Concerns(w.table, act, id) {
      SameOwnNone(w, v, id);
      if act.Do? {
        RowsAfter(w.table, act.op, act.fault, id);
      } else {
        ReplayKeepsTable(w, v);
      }
    } else if act.Replay? {
      ReplayKeepsTable(w, v);
    } else {
      RowsAfter(w.table, act.op, act.fault, id);
      assert act.op.CreateOp? ==> NoneOwn(w, id);
      match act.op {
        case CreateOp(r, reserved) =>
          if Admitted(w.table, r, reserved).None? || act.fault.ReadFails? || act.fault.WriteFails? {
            RefusedCreate(w, act, v);
          } else if act.fault.ApplyFails? {
            CreateLeaves(w, act, v);
          }
        case UpdateOp(_, _) =>
          if IndexOf(w.table.rows, id).None? {
            NoRowNoChange(w, act, v, id);
          }
        case SetEnabledOp(_, _, _) =>
          if IndexOf(w.table.rows, id).None? {
            NoRowNoChange(w, act, v, id);
          }
        case DeleteOp(_) => DeleteThins(w, act, v, id);
      }
    }
  }

  lemma ReplayKeepsTable(w: World, v: World)
    requires Inv(w) && Next(w, Replay, v)
    ensures v.table == w.table
  {
    hide OneTagEach, TableInv, Replays, SameOwn;
    if v != w {
      ReplaysOwn(w, w.table.rows, v, 0);
    }
  }

  lemma NextKeepsFutureFree(w: World, act: Act, v: World, j: nat)
    requires Inv(w) && Next(w, act, v) && j >= v.table.nextId
    ensures NoneOwn(v, j)
  {
    hide SameOwn, NoneOwn, OneTagEach, TableInv, Admitted, ChainsNext, Replays, IndexOf;
    NextOwn(w, act, v, j);
    if act.Replay? {
      ReplayKeepsTable(w, v);
    }
    assert v.table.nextId >= w.table.nextId;
    assert NoneOwn(w, j);
    if !Concerns(w.table, act, j) {
      SameOwnNone(w, v, j);
    } else if act.Replay? {
      RowIdsAreOld(w.table, j);
      assert false;
    } else {
      RowIdsAreOld(w.table, j);
      match act.op {
        case CreateOp(_, _) => RefusedCreate(w, act, v);
        case UpdateOp(_, _) => NoRowNoChange(w, act, v, j);
        case SetEnabledOp(_, _, _) => NoRowNoChange(w, act, v, j);
        case DeleteOp(_) => DeleteThins(w, act, v, j);
      }
    }
  }

  lemma RowIdsAreOld(t: Table, j: nat)
    requires TableInv(t) && j >= t.nextId
    ensures IndexOf(t.rows, j).None?
  {
    IndexFinds(t.rows, j);
  }

  lemma NextKeepsInv(w: World, act: Act, v: World)
    requires Inv(w) && Next(w, act, v)
    ensures Inv(v)
  {
    hide NoneOwn, OneTagEach, TableInv, SameOwn;
    NextOwn(w, act, v, 0);
    if act.Do? {
      StepKeepsTable(w.table, act.op, act.fault);
    } else {
      ReplayKeepsTable(w, v);
    }
    hide Next;
    forall j | j >= v.table.nextId ensures NoneOwn(v, j) {
      NextKeepsFutureFree(w, act, v, j);
    }
  }

  // ---- Runs ----

  /** The worlds a run goes through. */
  ghost predicate Trace(ws: seq<World>, acts: seq<Act>) {
    |ws| == |acts| + 1 && forall i :: 0 <= i < |acts| ==> Next(ws[i], acts[i], ws[i + 1])
  }

  lemma {:induction false} TracesKeepInv(ws: seq<World>, acts: seq<Act>, n: nat)
    requires Trace(ws, acts) && Inv(ws[0]) && n <= |acts|
    ensures Inv(ws[n])
  {
    hide Inv, Next;
    if n > 0 {
      TracesKeepInv(ws, acts, n - 1);
      NextKeepsInv(ws[n - 1], acts[n - 1], ws[n]);
    }
  }

  /** And every stored row well formed. */
  lemma {:induction false} TracesStoreWellFormedRows(ws: seq<World>, acts: seq<Act>, n: nat)
    requires Trace(ws, acts) && Inv(ws[0]) && AllWellFormed(ws[0].table.rows) && n <= |acts|
    ensures AllWellFormed(ws[n].table.rows)
  {
    hide Inv, AllWellFormed, TableStep, ChainsNext, Replays;
    if n > 0 {
      TracesStoreWellFormedRows(ws, acts, n - 1);
      TracesKeepInv(ws, acts, n - 1);
      assert Next(ws[n - 1], acts[n - 1], ws[n - 1 + 1]);
      if acts[n - 1].Do? {
        StepKeepsWellFormed(ws[n - 1].table, acts[n - 1].op, acts[n - 1].fault);
      } else {
        ReplayKeepsTable(ws[n - 1], ws[n]);
      }
    }
  }

  ghost predicate OrphaningAt(ws: seq<World>, acts: seq<Act>, i: nat, id: nat)
    requires |ws| == |acts| + 1 && i < |acts|
  {
    Orphaning(ws[i], acts[i], ws[i + 1], id)
  }

  /** A step among the first `n` orphaned the id, and no later one swept it. */
  ghost predicate OrphanedBy(ws: seq<World>, acts: seq<Act>, n: nat, id: nat)
    requires |ws| == |acts| + 1 && n <= |acts|
  {
    n > 0 && ((OrphanedBy(ws, acts, n - 1, id) && !Sweeps(acts[n - 1], ws[n], id))
              || OrphaningAt(ws, acts, n - 1, id))
  }

  lemma {:induction false} OrphansAreMade(ws: seq<World>, acts: seq<Act>, n: nat, id: nat)
    requires Trace(ws, acts) && Inv(ws[0]) && !Orphan(ws[0], id) && n <= |acts|
    ensures Orphan(ws[n], id) <==> OrphanedBy(ws, acts, n, id)
  {
    hide Inv, Next, Orphan, Orphaning, Sweeps;
    if n > 0 {
      OrphansAreMade(ws, acts, n - 1, id);
      TracesKeepInv(ws, acts, n - 1);
      StepOrphansIff(ws[n - 1], acts[n - 1], ws[n], id);
    }
  }

  lemma SyncedIffNoOrphan(w: World)
    requires Inv(w)
    ensures Synced(Reapplied(w)) <==> forall id: nat :: !Orphan(w, id)
  {
    var u := Reapplied(w);
    hide Own, IndexOf, TableInv, OneTagEach, Reapplied, NoneOwn, SyncedAt, Orphan;
    forall id: nat, h
      ensures SyncedAt(u, h, id) <==> (IndexOf(w.table.rows, id).None? ==> Own(At(w, h), id) == [])
    {
      ReplayedRight(w, h, id);
    }
    if forall id: nat :: !Orphan(w, id) {
      forall h, id: nat ensures SyncedAt(u, h, id) {
        OrphanIs(w, id);
        assert !Orphan(w, id);
      }
    } else {
      var id: nat :| Orphan(w, id);
      OrphanIs(w, id);
      var h :| !(IndexOf(w.table.rows, id).None? ==> Own(At(w, h), id) == []);
      assert !SyncedAt(u, h, id);
    }
  }

  lemma OrphanIs(w: World, id: nat)
    ensures Orphan(w, id) <==> exists h :: !(IndexOf(w.table.rows, id).None? ==> Own(At(w, h), id) == [])
  {
    hide Own, IndexOf, At;
  }

  lemma ReplayedRight(w: World, h: Hook, id: nat)
    requires Inv(w)
    ensures SyncedAt(Reapplied(w), h, id) <==> (IndexOf(w.table.rows, id).None? ==> Own(At(w, h), id) == [])
  {
    hide Own, TableInv, OneTagEach;
    ReappliedAt(w, h, id);
  }

  /**
   Over every run, whatever fails in it, an exact replay at its end makes table and chains
   agree if and only if every id that a step orphaned was swept by a later Delete.
   */
  lemma ReplaySyncsIffSwept(ws: seq<World>, acts: seq<Act>)
    requires Trace(ws, acts) && Inv(ws[0]) && forall id: nat :: !Orphan(ws[0], id)
    ensures Synced(Reapplied(ws[|acts|])) <==> forall id: nat :: !OrphanedBy(ws, acts, |acts|, id)
  {
    hide *;
    TraceEnds(ws, acts);
    TracesKeepInv(ws, acts, |acts|);
    SyncedIffNoOrphan(ws[|acts|]);
    var last := ws[|acts|];
    if forall id: nat :: !Orphan(last, id) {
      forall id: nat ensures !OrphanedBy(ws, acts, |acts|, id) {
        OrphansAreMade(ws, acts, |acts|, id);
        assert !Orphan(last, id);
      }
    } else {
      var id: nat :| Orphan(last, id);
      OrphansAreMade(ws, acts, |acts|, id);
    }
  }

  lemma TraceEnds(ws: seq<World>, acts: seq<Act>)
    requires Trace(ws, acts)
    ensures |ws| == |acts| + 1
  {
  }

  /** Rules are deleted by the ids of rows there are, as the panel's list offers them. */
  ghost predicate DeletesRows(ws: seq<World>, acts: seq<Act>)
    requires |ws| == |acts| + 1
  {
    forall i :: 0 <= i < |acts| && acts[i].Do? && acts[i].op.DeleteOp? ==>
      IndexOf(ws[i].table.rows, acts[i].op.id).Some?
  }

  lemma {:induction false} OrphansRemain(ws: seq<World>, acts: seq<Act>, i: nat, n: nat, id: nat)
    requires Trace(ws, acts) && Inv(ws[0]) && !Orphan(ws[0], id) && DeletesRows(ws, acts)
    requires i < n <= |acts| && OrphaningAt(ws, acts, i, id)
    ensures OrphanedBy(ws, acts, n, id)
  {
    hide Inv, Next, Orphaning, Own;
    if i < n - 1 {
      OrphansRemain(ws, acts, i, n - 1, id);
      OrphansAreMade(ws, acts, n - 1, id);
      assert Orphan(ws[n - 1], id);
    }
  }

  lemma {:induction false} OrphansHaveACause(ws: seq<World>, acts: seq<Act>, n: nat, id: nat)
    requires |ws| == |acts| + 1 && n <= |acts| && OrphanedBy(ws, acts, n, id)
    ensures exists i: nat :: i < n && OrphaningAt(ws, acts, i, id)
  {
    hide Orphaning, Sweeps;
    if !OrphaningAt(ws, acts, n - 1, id) {
      OrphansHaveACause(ws, acts, n - 1, id);
    }
  }

  ghost predicate NoStepOrphans(ws: seq<World>, acts: seq<Act>)
    requires |ws| == |acts| + 1
  {
    forall i: nat, id: nat :: i < |acts| ==> !OrphaningAt(ws, acts, i, id)
  }

  /**
   So, rules being deleted by the ids of rows: an exact replay brings agreement if and only
   if no step left an orphan, that is, no Create was taken back after its first rule and no
   row was deleted while its removal failed.
   */
  lemma ReplaySyncsUnlessOrphaned(ws: seq<World>, acts: seq<Act>)
    requires Trace(ws, acts) && Inv(ws[0]) && (forall id: nat :: !Orphan(ws[0], id)) && DeletesRows(ws, acts)
    ensures Synced(Reapplied(ws[|acts|])) <==> NoStepOrphans(ws, acts)
  {
    ReplaySyncsIffSwept(ws, acts);
    hide Inv, Next, Orphan, OrphaningAt, Synced, OrphanedBy, Trace, DeletesRows, Reapplied;
    if id: nat :| OrphanedBy(ws, acts, |acts|, id) {
      OrphansHaveACause(ws, acts, |acts|, id);
    }
    if i: nat, id: nat :| i < |acts| && OrphaningAt(ws, acts, i, id) {
      OrphansRemain(ws, acts, i, |acts|, id);
    }
  }

  /** A Create refused by the kernel after its first rule leaves that rule for good. */
  lemma TakenBackCreateLeavesARule()
    ensures var w, v := World(Table([], 1), [], [], []), World(Table([], 2), Gen(Prerouting, Web()), [], []);
            var act := Do(CreateOp(Web(), NoneReserved()), ApplyFails);
            Inv(w) && Next(w, act, v) && Orphaning(w, act, v, 1) && !Synced(Reapplied(v))
  {
    var t, w, v := Table([], 1), World(Table([], 1), [], [], []), World(Table([], 2), Gen(Prerouting, Web()), [], []);
    var act := Do(CreateOp(Web(), NoneReserved()), ApplyFails);
    WebIsAdmitted();
    hide Acceptable, IsNormal, Admitted, Gen, Own, Tags;
    EmptyInv(w);
    assert Gen(Prerouting, Web()) == [] + Gen(Prerouting, Web());
    assert v == LaidPart(w.(table := v.table), Web(), 1);
    assert PartlyLaid(w.(table := v.table), Web(), v);
    assert Next(w, act, v);
    OneRuleEach(Prerouting, Web());
    assert Orphaning(w, act, v, 1);
    NextKeepsInv(w, act, v);
    StepOrphansIff(w, act, v, 1);
    SyncedIffNoOrphan(v);
  }

  lemma WebIsAdmitted()
    ensures Admitted(Table([], 1), Web(), NoneReserved()) == Some(Web()) && Web().id == 1
  {
    WebIsAcceptable(NoneReserved());
    hide Acceptable, Lower, Trim, Decimal;
    assert Normal(Web()) == Web();
  }

  lemma EmptyInv(w: World)
    requires w == World(Table([], 1), [], [], [])
    ensures Inv(w)
  {
    forall j ensures NoneOwn(w, j) {
      assert forall h :: At(w, h) == [];
    }
  }

  lemma OneRuleEach(h: Hook, r: Forward)
    ensures !h.Postrouting? ==> |Gen(h, r)| == 1
  {
  }

  /** The rules of the rows once more behind what is there. */
  function Doubled(w: World, rows: seq<Forward>): World {
    w.(pre := w.pre + ShownAll(Prerouting, rows),
       fwd := w.fwd + ShownAll(Filtering, rows),
       post := w.post + ShownAll(Postrouting, rows))
  }

  lemma {:induction false} SilentReplay(w: World, rows: seq<Forward>)
    ensures Replays(w, rows, Doubled(w, rows))
    decreases |rows|
  {
    hide Thinned, Tags, Gen;
    if rows != [] {
      var r, u := Last(rows), Doubled(w, Front(rows));
      SilentReplay(w, Front(rows));
      ThinnedRefl(u.pre, Tags(r.id));
      ThinnedRefl(u.fwd, Tags(r.id));
      ThinnedRefl(u.post, Tags(r.id));
      OneRowMore(w, rows);
      assert RowReplayed(u, r, u, Doubled(w, rows));
    } else {
      assert Doubled(w, rows) == w;
    }
  }

  lemma OneRowMore(w: World, rows: seq<Forward>)
    requires rows != []
    ensures Doubled(w, rows) == if Last(rows).enabled then Laid(Doubled(w, Front(rows)), Last(rows)) else Doubled(w, Front(rows))
  {
    hide Gen;
    forall h ensures ShownAll(h, rows) == ShownAll(h, Front(rows)) + Shown(h, Last(rows)) {
    }
  }

  /**
   A replay that reports no error need not be exact: if the removals fail, silently, and
   every row is applied, the rules of the rows are there twice.  FullReplaySyncsIff says
   when it brings agreement.
   */
  lemma SilentReplayMayDouble(w: World, i: nat)
    requires TableInv(w.table) && Synced(w) && i < |w.table.rows| && w.table.rows[i].enabled
    ensures Next(w, Replay, Doubled(w, w.table.rows)) && !Synced(Doubled(w, w.table.rows))
  {
    var rows, v := w.table.rows, Doubled(w, w.table.rows);
    var row := rows[i];
    SilentReplay(w, rows);
    OwnShownAll(Prerouting, rows, row.id);
    WantedIs(Prerouting, w.table, i);
    assert SyncedAt(w, Prerouting, row.id);
    FilterAppend(w.pre, ShownAll(Prerouting, rows), Mine(row.id));
    OneRuleEach(Prerouting, row);
    hide Gen, ShownAll, Wanted, Filter, Mine, Replays, TableInv;
    assert !SyncedAt(v, Prerouting, row.id);
  }

  // ---- Runs that stay in agreement ----

  /** The operation is none of the two that put rules into the kernel the table does not ask for. */
  predicate Agreeable(w: World, op: Op) {
    match op
    case CreateOp(rule, reserved) => Admitted(w.table, rule, reserved).None? || rule.enabled
    case SetEnabledOp(id, enabled, reserved) => !OnTwice(w.table, id, enabled, reserved)
    case UpdateOp(_, _) => true
    case DeleteOp(_) => true
  }

  /** A step in which nothing fails keeps the agreement if and only if it is agreeable. */
  lemma StepSyncsIff(w: World, op: Op)
    requires TableInv(w.table) && OneTagEach(w) && Synced(w)
    ensures Synced(Stepped(w, op)) <==> Agreeable(w, op)
  {
    hide TableInv, OneTagEach, Synced, Created, Updated, Switched, Deleted, OnTwice, Admitted;
    match op {
      case CreateOp(rule, reserved) => CreateSyncsIff(w, rule, reserved);
      case UpdateOp(rule, reserved) => UpdateKeepsSync(w, rule, reserved);
      case SetEnabledOp(id, enabled, reserved) => SwitchSyncsIff(w, id, enabled, reserved);
      case DeleteOp(id) => DeleteKeepsSync(w, id);
    }
  }

  /** What is wanted of the ids an operation is not about stays the same. */
  lemma WantedOthers(h: Hook, t: Table, op: Op, fault: Fault, j: nat)
    requires TableInv(t) && j != IdOf(t, op)
    ensures Wanted(h, TableStep(t, op, fault).rows, j) == Wanted(h, t.rows, j)
  {
    var u := TableStep(t, op, fault);
    StepKeepsTable(t, op, fault);
    match op {
      case CreateOp(r, reserved) => hide Admitted; WantedSame(h, t, u, j);
      case UpdateOp(r, reserved) =>
        AdmittedKeeps(t, r, reserved);
        hide Admitted;
        if u != t {
          WantedReplaced(h, t, u, IndexOf(t.rows, r.id).value, Admitted(t, r, reserved).value, j);
        }
      case SetEnabledOp(id, enabled, reserved) =>
        hide Admitted;
        if u != t {
          var at := IndexOf(t.rows, id).value;
          WantedReplaced(h, t, u, at, t.rows[at].(enabled := enabled), j);
        }
      case DeleteOp(id) =>
        if fault == Clean {
          WantedAfterDelete(h, t, id, j);
        }
    }
  }

  /** Whatever fails, a step keeps the agreement if and only if the rules of its own id are right afterwards. */
  lemma OwnIdDecides(w: World, act: Act, v: World)
    requires Inv(w) && Synced(w) && Next(w, act, v) && act.Do?
    ensures Synced(v) <==> forall h :: SyncedAt(v, h, IdOf(w.table, act.op))
  {
    forall h, j: nat | j != IdOf(w.table, act.op) ensures SyncedAt(v, h, j) {
      OthersStaySynced(w, act, v, h, j);
    }
    hide SyncedAt, Next, Inv;
  }

  lemma OthersStaySynced(w: World, act: Act, v: World, h: Hook, j: nat)
    requires Inv(w) && SyncedAt(w, h, j) && Next(w, act, v) && act.Do? && j != IdOf(w.table, act.op)
    ensures SyncedAt(v, h, j)
  {
    NextOwn(w, act, v, j);
    hide OneTagEach, TableInv, Own, Wanted, ChainsNext, TableStep;
    WantedOthers(h, w.table, act.op, act.fault, j);
  }

  lemma ThinToNone(u: World, v: World, id: nat)
    requires Thin(u, v, id) && NoneOwn(v, id)
    ensures v == Stripped(u, id)
  {
    hide Thinned, Tags, HasTag;
    forall h ensures At(v, h) == Filter(At(u, h), Untagged<Body>(Tags(id))) {
      forall l | l in At(v, h) ensures !HasTag(l, Tags(id)) {
        assert Own(At(v, h), id) == [];
        OwnMember(At(v, h), id, l);
      }
      ThinnedToNone(At(u, h), At(v, h), Tags(id));
    }
    assert v.pre == At(v, Prerouting) && v.fwd == At(v, Filtering) && v.post == At(v, Postrouting);
  }

  lemma ThinToAll(u: World, v: World, id: nat)
    requires Thin(u, v, id) && SameOwn(u, v, id)
    ensures v == u
  {
    hide Thinned, Tags, HasTag;
    forall h ensures At(v, h) == At(u, h) {
      assert Own(At(v, h), id) == Own(At(u, h), id);
      ThinnedToAll(At(u, h), At(v, h), Tags(id), Mine(id));
    }
    assert v.pre == At(v, Prerouting) && v.fwd == At(v, Filtering) && v.post == At(v, Postrouting);
    assert u.pre == At(u, Prerouting) && u.fwd == At(u, Filtering) && u.post == At(u, Postrouting);
  }

  /** The rules of the id are the ones wanted, and they were so before, for an unchanged row. */
  lemma RightIsSame(w: World, v: World, id: nat)
    requires Synced(w) && v.table == w.table && forall h :: SyncedAt(v, h, id)
    ensures SameOwn(w, v, id)
  {
    hide Own, Wanted;
    forall h ensures Own(At(v, h), id) == Own(At(w, h), id) {
      assert SyncedAt(w, h, id) && SyncedAt(v, h, id);
    }
  }

  lemma RightIsNone(v: World, id: nat)
    requires forall h :: Wanted(h, v.table.rows, id) == []
    ensures (forall h :: SyncedAt(v, h, id)) <==> NoneOwn(v, id)
  {
    hide Own, Wanted;
    forall h ensures SyncedAt(v, h, id) <==> Own(At(v, h), id) == [] {
    }
  }

  /** The chains in the order in which applyForward adds to them. */
  function Place(h: Hook): nat {
    match h
    case Prerouting => 0
    case Filtering => 1
    case Postrouting => 2
  }

  lemma OwnAfterPart(w: World, r: Forward, k: nat, h: Hook)
    ensures Own(At(LaidPart(w, r, k), h), r.id) == Own(At(w, h), r.id) + if Place(h) < k then Gen(h, r) else []
  {
    OwnAfterAdd(At(w, h), h, r, r.id);
    hide Own, Gen;
  }

  lemma PartsInFull(w: World, r: Forward)
    ensures LaidPart(w, r, Parts(r)) == Laid(w, r)
  {
  }

  /** Without a fault the outcome that agrees is the exact one. */
  lemma RightIsExact(w: World, op: Op, v: World)
    requires Inv(w) && Next(w, Do(op, Clean), v) && forall h :: SyncedAt(v, h, IdOf(w.table, op))
    ensures v == Stepped(w, op)
  {
    hide Inv, SyncedAt, Admitted, IndexOf, Next, Created, Updated, Switched, Deleted;
    assert forall h :: SyncedAt(v, h, IdOf(w.table, op));
    match op {
      case CreateOp(r, reserved) => CreateIsExact(w, r, reserved, v);
      case UpdateOp(r, reserved) =>
        assert IdOf(w.table, op) == r.id;
        UpdateIsExact(w, r, reserved, v);
      case SetEnabledOp(id, enabled, reserved) =>
        if enabled || IndexOf(w.table.rows, id).None? {
          SwitchedOnIsExact(w, id, enabled, reserved, v);
        } else {
          assert IdOf(w.table, op) == id;
          SwitchedOffIsExact(w, id, reserved, v);
        }
      case DeleteOp(id) =>
        assert IdOf(w.table, op) == id;
        DeleteIsExact(w, id, v);
    }
  }

  lemma CreateIsExact(w: World, r: Forward, reserved: nat -> bool, v: World)
    requires Next(w, Do(CreateOp(r, reserved), Clean), v)
    ensures v == Created(w, r, reserved)
  {
    hide Admitted;
  }

  lemma DeleteIsExact(w: World, id: nat, v: World)
    requires Inv(w) && Next(w, Do(DeleteOp(id), Clean), v) && forall h :: SyncedAt(v, h, id)
    ensures v == Deleted(w, id)
  {
    forall h ensures Wanted(h, v.table.rows, id) == [] {
      WantedAfterDelete(h, w.table, id, id);
    }
    hide Own, Wanted, Thinned, TableInv, OneTagEach, AfterDelete;
    RightIsNone(v, id);
    ThinToNone(w.(table := v.table), v, id);
  }

  lemma SwitchedOnIsExact(w: World, id: nat, enabled: bool, reserved: nat -> bool, v: World)
    requires Next(w, Do(SetEnabledOp(id, enabled, reserved), Clean), v)
    requires enabled || IndexOf(w.table.rows, id).None?
    ensures v == Switched(w, id, enabled, reserved)
  {
    hide Admitted, IndexOf;
  }

  lemma SwitchedOffIsExact(w: World, id: nat, reserved: nat -> bool, v: World)
    requires Inv(w) && Next(w, Do(SetEnabledOp(id, false, reserved), Clean), v) && forall h :: SyncedAt(v, h, id)
    requires IndexOf(w.table.rows, id).Some?
    ensures v == Stepped(w, SetEnabledOp(id, false, reserved))
  {
    var t, u := w.table, w.(table := v.table);
    var at := IndexOf(t.rows, id).value;
    SetEnabledKeepsTable(t, id, false, reserved, Clean);
    forall h ensures Wanted(h, v.table.rows, id) == [] {
      WantedReplaced(h, t, v.table, at, t.rows[at].(enabled := false), id);
    }
    hide Own, Wanted, Thinned, TableInv, OneTagEach, IndexOf;
    RightIsNone(v, id);
    ThinToNone(u, v, id);
  }

  lemma UpdateIsExact(w: World, r: Forward, reserved: nat -> bool, v: World)
    requires Inv(w) && Next(w, Do(UpdateOp(r, reserved), Clean), v) && forall h :: SyncedAt(v, h, r.id)
    ensures v == Updated(w, r, reserved)
  {
    var t, u, at, a := w.table, w.(table := v.table), IndexOf(w.table.rows, r.id), Admitted(w.table, r, reserved);
    if at.Some? && a.Some? {
      AdmittedKeeps(t, r, reserved);
      UpdateKeepsTable(t, r, reserved, Clean);
      var x :| Thin(u, x, r.id) && if !r.enabled then v == x else v == Laid(x, a.value);
      forall h ensures Wanted(h, v.table.rows, r.id) == Shown(h, a.value) {
        WantedReplaced(h, t, v.table, at.value, a.value, r.id);
      }
      hide Admitted, IndexOf, Own, Wanted, Thinned, TableInv, OneTagEach, Gen;
      forall h ensures Own(At(x, h), r.id) == [] {
        assert SyncedAt(v, h, r.id);
        LaySyncs(x, a.value, h, r.id);
        assert |Own(At(v, h), r.id)| == |Own(At(x, h), r.id)| + if r.enabled then |Gen(h, a.value)| else 0;
      }
      ThinToNone(u, x, r.id);
    }
  }

  /** Where the row stays as it is, the outcome that agrees is that nothing changed. */
  lemma RightIsNothing(w: World, op: Op, fault: Fault, v: World)
    requires Inv(w) && Synced(w) && Next(w, Do(op, fault), v) && forall h :: SyncedAt(v, h, IdOf(w.table, op))
    requires !fault.Clean? && (fault.ReadFails? || fault.WriteFails? || op.SetEnabledOp? || op.DeleteOp?)
    ensures v == w
  {
    var t := w.table;
    assert v.table == t && w.(table := t) == w;
    RightIsSame(w, v, IdOf(t, op));
    hide SyncedAt, Synced, Inv, SameOwn, Admitted, IndexOf;
    match op {
      case CreateOp(_, _) =>
      case UpdateOp(r, reserved) =>
        if v != w {
          var x :| Thin(w, x, r.id) && v == x;
          ThinToAll(w, v, r.id);
        }
      case SetEnabledOp(id, enabled, reserved) =>
        if v != w {
          if enabled {
            var row := t.rows[IndexOf(t.rows, id).value];
            AdmittedKeeps(t, row, reserved);
            LaidIsMore(w, Admitted(t, row, reserved).value, v);
          } else {
            ThinToAll(w, v, id);
          }
        }
      case DeleteOp(id) => ThinToAll(w, v, id);
    }
  }

  lemma LaidIsMore(w: World, r: Forward, v: World)
    requires (v == Laid(w, r) || PartlyLaid(w, r, v)) && SameOwn(w, v, r.id)
    ensures v == w
  {
    hide Own, Gen, Parts;
    PartsInFull(w, r);
    assert Own(At(v, Prerouting), r.id) == Own(At(w, Prerouting), r.id);
    var k: nat :| v == LaidPart(w, r, k) && (k < Parts(r) || k == Parts(r));
    OwnAfterPart(w, r, k, Prerouting);
    OneRuleEach(Prerouting, r);
    LaidPartIs(w, r, Prerouting, k);
  }

  lemma FailedCreateAt(w: World, r: Forward, reserved: nat -> bool, fault: Fault, v: World, k: nat, h: Hook)
    requires Inv(w) && Admitted(w.table, r, reserved).Some? && (fault.ApplyFails? || fault.UndoFails?)
    requires var row := Admitted(w.table, r, reserved).value.(id := w.table.nextId);
             v == LaidPart(w.(table := AfterCreate(w.table, r, reserved, fault)), row, k)
    ensures var row := Admitted(w.table, r, reserved).value.(id := w.table.nextId);
            SyncedAt(v, h, row.id) <==>
              (if Place(h) < k then Gen(h, row) else []) == if fault.UndoFails? then Shown(h, row) else []
  {
    var t, row := w.table, Admitted(w.table, r, reserved).value.(id := w.table.nextId);
    var u := w.(table := AfterCreate(t, r, reserved, fault));
    hide Admitted, Own, Gen, LaidPart, Wanted, TableInv, OneTagEach;
    assert NoneOwn(w, row.id);
    assert At(u, h) == At(w, h) && Own(At(w, h), row.id) == [];
    LaidPartIs(u, row, h, k);
    hide Inv;
    WantedAfterCreate(h, t, r, reserved, row.id);
    OwnAfterPart(u, row, k, h);
  }

  /** A Create whose rules were not all accepted: the row is gone again, or could not be taken back. */
  lemma FailedCreateSyncsIff(w: World, r: Forward, reserved: nat -> bool, fault: Fault, v: World)
    requires Inv(w) && Next(w, Do(CreateOp(r, reserved), fault), v) && (fault.ApplyFails? || fault.UndoFails?)
    requires Admitted(w.table, r, reserved).Some?
    ensures (forall h :: SyncedAt(v, h, w.table.nextId)) <==>
              v == w.(table := v.table) && (fault.UndoFails? ==> !r.enabled)
  {
    var u, row := w.(table := v.table), Admitted(w.table, r, reserved).value.(id := w.table.nextId);
    AdmittedKeeps(w.table, r, reserved);
    var k: nat :| k < Parts(row) && v == LaidPart(u, row, k);
    forall h ensures SyncedAt(v, h, row.id) <==>
        (if Place(h) < k then Gen(h, row) else []) == if fault.UndoFails? then Shown(h, row) else []
    {
      hide Admitted, LaidPart, Gen, Inv, SyncedAt;
      FailedCreateAt(w, r, reserved, fault, v, k, h);
    }
    hide Admitted, Inv, SyncedAt, AfterCreate, BodyOf;
    if k > 0 {
      assert fault.ApplyFails? || !r.enabled ==> !SyncedAt(v, Prerouting, row.id);
      assert |v.pre| > |w.pre|;
    }
    if fault.UndoFails? && r.enabled {
      var h := if k == 0 then Prerouting else if k == 1 then Filtering else Postrouting;
      assert !SyncedAt(v, h, row.id);
    }
  }

  /** A row's turn in a replay: the world after its removal, and how many rules were then added. */
  datatype Turn = Turn(cleaned: World, parts: nat)

  function Done(r: Forward, turn: Turn): World {
    LaidPart(turn.cleaned, r, turn.parts)
  }

  function After(w: World, rows: seq<Forward>, turns: seq<Turn>, n: nat): World
    requires n <= |rows| == |turns|
  {
    if n == 0 then w else Done(rows[n - 1], turns[n - 1])
  }

  ghost predicate TurnOf(w: World, r: Forward, turn: Turn) {
    Thin(w, turn.cleaned, r.id) && turn.parts <= if r.enabled then Parts(r) else 0
  }

  ghost predicate Turns(w: World, rows: seq<Forward>, turns: seq<Turn>)
    requires |turns| == |rows|
  {
    forall i :: 0 <= i < |rows| ==> TurnOf(After(w, rows, turns, i), rows[i], turns[i])
  }

  /**
   The turn leaves the row's rules right: its removal left none in the chains a rule was
   added to, and left just the wanted rule in the others.
   */
  ghost predicate TurnRight(r: Forward, turn: Turn) {
    forall h :: Own(At(turn.cleaned, h), r.id) == if Place(h) < turn.parts then [] else Shown(h, r)
  }

  lemma {:induction false} ReplayHasTurns(w: World, rows: seq<Forward>, v: World) returns (turns: seq<Turn>)
    requires Replays(w, rows, v)
    ensures |turns| == |rows| && Turns(w, rows, turns) && v == After(w, rows, turns, |rows|)
    decreases |rows|
  {
    turns := [];
    if rows != [] {
      hide Thin, LaidPart, Parts, RowReplayed, TurnOf, Done;
      var u, x :| Replays(w, Front(rows), u) && RowReplayed(u, Last(rows), x, v);
      var before := ReplayHasTurns(w, Front(rows), u);
      var turn := TurnOfRow(u, Last(rows), x, v);
      TurnsSnoc(w, rows, before, turn);
      turns := before + [turn];
    }
  }

  lemma {:induction false} TurnsAreReplay(w: World, rows: seq<Forward>, turns: seq<Turn>)
    requires |turns| == |rows| && Turns(w, rows, turns)
    ensures Replays(w, rows, After(w, rows, turns, |rows|))
    decreases |rows|
  {
    hide Thin, LaidPart, Parts, RowReplayed, TurnOf, Done, Turns;
    if rows != [] {
      hide After;
      var n := |rows| - 1;
      var before, turn := turns[..n], turns[n];
      assert turns == before + [turn];
      TurnsSnoc(w, rows, before, turn);
      TurnsAreReplay(w, Front(rows), before);
      RowOfTurn(After(w, Front(rows), before, n), Last(rows), turn);
    }
  }

  /** A replay is the turns of its rows. */
  lemma ReplaysAreTurns(w: World, rows: seq<Forward>, v: World)
    ensures Replays(w, rows, v) <==>
              exists turns :: |turns| == |rows| && Turns(w, rows, turns) && v == After(w, rows, turns, |rows|)
  {
    hide Replays, Turns, After;
    if Replays(w, rows, v) {
      var turns := ReplayHasTurns(w, rows, v);
    }
    if turns :| |turns| == |rows| && Turns(w, rows, turns) && v == After(w, rows, turns, |rows|) {
      TurnsAreReplay(w, rows, turns);
    }
  }

  lemma TurnOfRow(u: World, r: Forward, x: World, v: World) returns (turn: Turn)
    requires RowReplayed(u, r, x, v)
    ensures TurnOf(u, r, turn) && v == Done(r, turn)
  {
    hide Thin, LaidPart, Laid;
    PartsInFull(x, r);
    LaidPartIs(x, r, Prerouting, 0);
    var k: nat :| v == LaidPart(x, r, k) && k <= if r.enabled then Parts(r) else 0;
    turn := Turn(x, k);
  }

  lemma RowOfTurn(u: World, r: Forward, turn: Turn)
    requires TurnOf(u, r, turn)
    ensures RowReplayed(u, r, turn.cleaned, Done(r, turn))
  {
    hide Thin, LaidPart, Laid;
    PartsInFull(turn.cleaned, r);
    LaidPartIs(turn.cleaned, r, Prerouting, 0);
  }

  lemma AfterSnoc(w: World, rows: seq<Forward>, before: seq<Turn>, turn: Turn, i: nat)
    requires |before| == |rows| - 1 && i < |rows|
    ensures After(w, rows, before + [turn], i) == After(w, Front(rows), before, i)
    ensures After(w, rows, before + [turn], |rows|) == Done(Last(rows), turn)
    ensures i < |rows| - 1 ==> Front(rows)[i] == rows[i] && (before + [turn])[i] == before[i]
    ensures (before + [turn])[|rows| - 1] == turn && rows[|rows| - 1] == Last(rows)
  {
    assert i > 0 ==> (before + [turn])[i - 1] == before[i - 1] && rows[i - 1] == Front(rows)[i - 1];
  }

  lemma TurnsSnoc(w: World, rows: seq<Forward>, before: seq<Turn>, turn: Turn)
    requires rows != [] && |before| == |rows| - 1
    ensures After(w, rows, before + [turn], |rows| - 1) == After(w, Front(rows), before, |rows| - 1)
    ensures Turns(w, rows, before + [turn]) <==>
              Turns(w, Front(rows), before) && TurnOf(After(w, rows, before + [turn], |rows| - 1), Last(rows), turn)
    ensures After(w, rows, before + [turn], |rows|) == Done(Last(rows), turn)
  {
    hide TurnOf, Done, After;
    var turns, n := before + [turn], |rows| - 1;
    AfterSnoc(w, rows, before, turn, n);
    if Turns(w, rows, turns) {
      assert TurnOf(After(w, rows, turns, n), rows[n], turns[n]);
      forall i | 0 <= i < n ensures TurnOf(After(w, Front(rows), before, i), Front(rows)[i], before[i]) {
        AfterSnoc(w, rows, before, turn, i);
        assert TurnOf(After(w, rows, turns, i), rows[i], turns[i]);
      }
    }
    if Turns(w, Front(rows), before) && TurnOf(After(w, rows, turns, n), Last(rows), turn) {
      forall i | 0 <= i < |rows| ensures TurnOf(After(w, rows, turns, i), rows[i], turns[i]) {
        AfterSnoc(w, rows, before, turn, i);
        assert i < n ==> TurnOf(After(w, Front(rows), before, i), Front(rows)[i], before[i]);
      }
    }
  }

  lemma TurnOwn(w: World, r: Forward, turn: Turn, j: nat)
    requires TurnOf(w, r, turn) && OneTagEach(w)
    ensures OneTagEach(Done(r, turn)) && Done(r, turn).table == w.table
    ensures j != r.id ==> SameOwn(w, Done(r, turn), j)
  {
    hide OneTagEach, SameOwn, LaidPart;
    ThinOwn(w, turn.cleaned, r.id, j);
    LaidPartOwn(turn.cleaned, r, turn.parts, j);
    LaidPartIs(turn.cleaned, r, Prerouting, turn.parts);
    SameOwnTwice(w, turn.cleaned, Done(r, turn), j);
  }

  /** The turns from `m` on concern the ids of their rows only. */
  lemma {:induction false} TurnsOwn(w: World, rows: seq<Forward>, turns: seq<Turn>, m: nat, n: nat, j: nat)
    requires |turns| == |rows| && Turns(w, rows, turns) && m <= n <= |rows| && OneTagEach(After(w, rows, turns, m))
    ensures OneTagEach(After(w, rows, turns, n)) && After(w, rows, turns, n).table == After(w, rows, turns, m).table
    ensures (forall i :: m <= i < n ==> rows[i].id != j) ==> SameOwn(After(w, rows, turns, m), After(w, rows, turns, n), j)
    decreases n
  {
    hide OneTagEach, SameOwn, TurnOf, Done;
    SameOwnTwice(After(w, rows, turns, m), After(w, rows, turns, m), After(w, rows, turns, n), j);
    if m < n {
      TurnsOwn(w, rows, turns, m, n - 1, j);
      TurnOwn(After(w, rows, turns, n - 1), rows[n - 1], turns[n - 1], j);
      SameOwnTwice(After(w, rows, turns, m), After(w, rows, turns, n - 1), After(w, rows, turns, n), j);
    }
  }

  /** The rules a turn leaves the row are the ones wanted if and only if the turn is right. */
  lemma TurnIs(r: Forward, turn: Turn, h: Hook)
    requires turn.parts <= if r.enabled then Parts(r) else 0
    ensures Own(At(Done(r, turn), h), r.id) == Shown(h, r) <==>
              Own(At(turn.cleaned, h), r.id) == if Place(h) < turn.parts then [] else Shown(h, r)
  {
    OwnAfterPart(turn.cleaned, r, turn.parts, h);
    hide Own, Gen, LaidPart;
    var own, added := Own(At(turn.cleaned, h), r.id), if Place(h) < turn.parts then Gen(h, r) else [];
    assert |own + added| == |own| + |added|;
  }

  lemma TurnsKeepTable(w: World, rows: seq<Forward>, turns: seq<Turn>, n: nat)
    requires |turns| == |rows| && Turns(w, rows, turns) && n <= |rows| && OneTagEach(w)
    ensures OneTagEach(After(w, rows, turns, n)) && After(w, rows, turns, n).table == w.table
  {
    hide OneTagEach, Turns, SameOwn, Done;
    TurnsOwn(w, rows, turns, 0, n, 0);
  }

  lemma LaterIdsDiffer(w: World, i: nat, k: nat)
    requires TableInv(w.table) && i < k < |w.table.rows|
    ensures w.table.rows[k].id != w.table.rows[i].id
  {
  }

  /** Once its turn is over, a row's rules stay as they are. */
  lemma RowKeepsTurn(w: World, turns: seq<Turn>, i: nat)
    requires Inv(w) && |turns| == |w.table.rows| && Turns(w, w.table.rows, turns) && i < |turns|
    ensures var v := After(w, w.table.rows, turns, |turns|);
            v.table == w.table && SameOwn(Done(w.table.rows[i], turns[i]), v, w.table.rows[i].id)
  {
    hide OneTagEach, TableInv, Turns, SameOwn, Done;
    var rows := w.table.rows;
    forall k: nat | i + 1 <= k < |rows| ensures rows[k].id != rows[i].id {
      LaterIdsDiffer(w, i, k);
    }
    TurnsKeepTable(w, rows, turns, i + 1);
    TurnsKeepTable(w, rows, turns, |rows|);
    TurnsOwn(w, rows, turns, i + 1, |rows|, rows[i].id);
  }

  lemma RowsTurn(w: World, turns: seq<Turn>, i: nat, h: Hook)
    requires Inv(w) && |turns| == |w.table.rows| && Turns(w, w.table.rows, turns) && i < |turns|
    ensures var row := w.table.rows[i];
            SyncedAt(After(w, w.table.rows, turns, |turns|), h, row.id) <==>
              Own(At(turns[i].cleaned, h), row.id) == if Place(h) < turns[i].parts then [] else Shown(h, row)
  {
    var rows := w.table.rows;
    var row := rows[i];
    WantedIs(h, w.table, i);
    assert TurnOf(After(w, rows, turns, i), row, turns[i]);
    RowKeepsTurn(w, turns, i);
    hide Inv, Turns, Own, Wanted, Shown, Done, After, At, Thin, Parts;
    TurnIs(row, turns[i], h);
  }

  lemma NoRowsTurn(w: World, turns: seq<Turn>, id: nat, h: Hook)
    requires Inv(w) && |turns| == |w.table.rows| && Turns(w, w.table.rows, turns) && IndexOf(w.table.rows, id).None?
    ensures SyncedAt(After(w, w.table.rows, turns, |turns|), h, id) <==> Own(At(w, h), id) == []
  {
    IndexFinds(w.table.rows, id);
    hide OneTagEach, TableInv, Turns, Own;
    TurnsOwn(w, w.table.rows, turns, 0, |turns|, id);
  }

  /** Every row was applied in full. */
  predicate AllApplied(rows: seq<Forward>, turns: seq<Turn>)
    requires |turns| == |rows|
  {
    forall i | 0 <= i < |rows| && rows[i].enabled :: turns[i].parts == Parts(rows[i])
  }

  /** Whatever fails in a replay, it ends in agreement if and only if there was no orphan and every turn was right. */
  lemma ReplayOutcomeIff(w: World, turns: seq<Turn>)
    requires Inv(w) && |turns| == |w.table.rows| && Turns(w, w.table.rows, turns)
    ensures Synced(After(w, w.table.rows, turns, |turns|)) <==>
              (forall id: nat :: !Orphan(w, id)) && forall i :: 0 <= i < |turns| ==> TurnRight(w.table.rows[i], turns[i])
  {
    var rows := w.table.rows;
    var v := After(w, rows, turns, |turns|);
    hide Inv, Turns, Own, After, IndexOf, SyncedAt, Shown, TurnRight;
    if Synced(v) {
      forall id: nat ensures !Orphan(w, id) {
        if IndexOf(rows, id).None? {
          forall h ensures Own(At(w, h), id) == [] {
            NoRowsTurn(w, turns, id, h);
            assert SyncedAt(v, h, id);
          }
        }
      }
      forall i | 0 <= i < |turns| ensures TurnRight(rows[i], turns[i]) {
        RowTurnRight(w, turns, i);
      }
    }
    if (forall id: nat :: !Orphan(w, id)) && forall i :: 0 <= i < |turns| ==> TurnRight(rows[i], turns[i]) {
      forall h, id: nat ensures SyncedAt(v, h, id) {
        if IndexOf(rows, id).Some? {
          RowTurnRight(w, turns, IndexOf(rows, id).value);
        } else {
          NoRowsTurn(w, turns, id, h);
          assert !Orphan(w, id);
        }
      }
    }
  }

  lemma RowTurnRight(w: World, turns: seq<Turn>, i: nat)
    requires Inv(w) && |turns| == |w.table.rows| && Turns(w, w.table.rows, turns) && i < |turns|
    ensures (forall h :: SyncedAt(After(w, w.table.rows, turns, |turns|), h, w.table.rows[i].id)) <==>
              TurnRight(w.table.rows[i], turns[i])
  {
    hide SyncedAt, Inv, Turns, Own, After, Shown;
    forall h
      ensures SyncedAt(After(w, w.table.rows, turns, |turns|), h, w.table.rows[i].id) <==>
                Own(At(turns[i].cleaned, h), w.table.rows[i].id)
                == if Place(h) < turns[i].parts then [] else Shown(h, w.table.rows[i])
    {
      RowsTurn(w, turns, i, h);
    }
  }

  /** A turn in which the row was applied in full is right if and only if its removal left none of its rules. */
  lemma FullTurnRight(r: Forward, turn: Turn)
    requires turn.parts == if r.enabled then Parts(r) else 0
    ensures TurnRight(r, turn) <==> NoneOwn(turn.cleaned, r.id)
  {
    hide Own;
    forall h ensures Place(h) < turn.parts || Shown(h, r) == [] {
    }
    if TurnRight(r, turn) {
      forall h ensures Own(At(turn.cleaned, h), r.id) == [] {
        assert Own(At(turn.cleaned, h), r.id) == if Place(h) < turn.parts then [] else Shown(h, r);
      }
    }
  }

  /**
   A replay that applied every row ends in agreement if and only if there was no orphan
   and every removal took away all rules of its row.
   */
  lemma FullReplaySyncsIff(w: World, turns: seq<Turn>)
    requires Inv(w) && |turns| == |w.table.rows| && Turns(w, w.table.rows, turns) && AllApplied(w.table.rows, turns)
    ensures Synced(After(w, w.table.rows, turns, |turns|)) <==>
              && (forall id: nat :: !Orphan(w, id))
              && forall i :: 0 <= i < |turns| ==> NoneOwn(turns[i].cleaned, w.table.rows[i].id)
  {
    ReplayOutcomeIff(w, turns);
    forall i | 0 <= i < |turns|
      ensures TurnRight(w.table.rows[i], turns[i]) <==> NoneOwn(turns[i].cleaned, w.table.rows[i].id)
    {
      assert TurnOf(After(w, w.table.rows, turns, i), w.table.rows[i], turns[i]);
      FullTurnRight(w.table.rows[i], turns[i]);
    }
    hide Synced, Orphan, TurnRight, NoneOwn, Inv, Turns, After;
  }

  /** The replay went through these turns. */
  ghost predicate TookTurns(w: World, turns: seq<Turn>, v: World) {
    |turns| == |w.table.rows| && Turns(w, w.table.rows, turns) && v == After(w, w.table.rows, turns, |turns|)
  }

  /** The replay is one whose turns were all right. */
  ghost predicate ReplayRight(w: World, v: World) {
    exists turns :: TookTurns(w, turns, v) && forall i :: 0 <= i < |turns| ==> TurnRight(w.table.rows[i], turns[i])
  }

  /** What a step must come to for table and chains to agree after it, by operation and fault. */
  ghost predicate StepRight(w: World, act: Act, v: World) {
    match act
    case Replay => v == w || ReplayRight(w, v)
    case Do(op, fault) =>
      if fault.Clean? then v == Stepped(w, op) && Agreeable(w, op)
      else if op.CreateOp? && (fault.ApplyFails? || fault.UndoFails?) then
        v == w.(table := v.table)
        && (fault.UndoFails? ==> Admitted(w.table, op.rule, op.reserved).None? || !op.rule.enabled)
      else if op.UpdateOp? && (fault.ApplyFails? || fault.UndoFails?) then forall h :: SyncedAt(v, h, op.rule.id)
      else v == w
  }

  /**
   Whatever fails, a step keeps the agreement if and only if it is right: without a fault,
   if it is exact and one of the agreeable ones; a Create that failed while rules were
   added, if none was, and the row, if it stayed, is disabled; an Update that failed so, if
   what was left and what was added make up the new rules; a replay, if every turn was
   right; and any other failed step, if it changed nothing.
   */
  lemma NextSyncsIff(w: World, act: Act, v: World)
    requires Inv(w) && Synced(w) && Next(w, act, v)
    ensures Synced(v) <==> StepRight(w, act, v)
  {
    match act {
      case Replay => ReplayStepSyncsIff(w, v);
      case Do(op, fault) =>
        OwnIdDecides(w, act, v);
        hide Synced, SyncedAt, Inv, Next, Stepped, Agreeable, Admitted, TableStep;
        if fault.Clean? {
          CleanStepSyncsIff(w, op, v);
        } else if op.CreateOp? && (fault.ApplyFails? || fault.UndoFails?) {
          if Admitted(w.table, op.rule, op.reserved).None? {
            RefusedCreate(w, act, v);
          } else {
            FailedCreateSyncsIff(w, op.rule, op.reserved, fault, v);
          }
        } else if !(op.UpdateOp? && (fault.ApplyFails? || fault.UndoFails?)) {
          if Synced(v) {
            RightIsNothing(w, op, fault, v);
          }
        }
    }
  }

  lemma CleanStepSyncsIff(w: World, op: Op, v: World)
    requires Inv(w) && Synced(w) && Next(w, Do(op, Clean), v)
    ensures Synced(v) <==> v == Stepped(w, op) && Agreeable(w, op)
  {
    StepSyncsIff(w, op);
    hide TableInv, OneTagEach, SyncedAt, Next, Stepped, Agreeable;
    if Synced(v) {
      RightIsExact(w, op, v);
    }
  }

  lemma ReplayTookTurns(w: World, v: World) returns (turns: seq<Turn>)
    requires Next(w, Replay, v) && v != w
    ensures TookTurns(w, turns, v)
  {
    turns := ReplayHasTurns(w, w.table.rows, v);
  }

  lemma TurnsDecide(w: World, turns: seq<Turn>, v: World)
    requires Inv(w) && Synced(w) && TookTurns(w, turns, v)
    ensures |turns| == |w.table.rows|
    ensures Synced(v) <==> forall i :: 0 <= i < |turns| ==> TurnRight(w.table.rows[i], turns[i])
  {
    SyncedMeansNoOrphan(w);
    ReplayOutcomeIff(w, turns);
  }

  lemma ReplayIsRight(w: World, turns: seq<Turn>, v: World)
    requires TookTurns(w, turns, v)
    requires forall i :: 0 <= i < |turns| ==> TurnRight(w.table.rows[i], turns[i])
    ensures ReplayRight(w, v)
  {
    hide TurnRight, Turns, After;
  }

  lemma RightTurns(w: World, v: World) returns (turns: seq<Turn>)
    requires ReplayRight(w, v)
    ensures TookTurns(w, turns, v) && |turns| == |w.table.rows|
    ensures forall i :: 0 <= i < |turns| ==> TurnRight(w.table.rows[i], turns[i])
  {
    hide TurnRight, Turns, After;
    turns :| TookTurns(w, turns, v) && forall i :: 0 <= i < |turns| ==> TurnRight(w.table.rows[i], turns[i]);
  }

  lemma ReplayStepSyncsIff(w: World, v: World)
    requires Inv(w) && Synced(w) && Next(w, Replay, v)
    ensures Synced(v) <==> StepRight(w, Replay, v)
  {
    hide Synced, Inv, Next, TurnRight, TookTurns, ReplayRight;
    if v != w {
      if Synced(v) {
        var turns := ReplayTookTurns(w, v);
        TurnsDecide(w, turns, v);
        ReplayIsRight(w, turns, v);
      } else if ReplayRight(w, v) {
        var turns := RightTurns(w, v);
        TurnsDecide(w, turns, v);
      }
    }
  }

  lemma SyncedMeansNoOrphan(w: World)
    requires Synced(w)
    ensures forall id: nat :: !Orphan(w, id)
  {
    hide Own;
    forall id: nat ensures !Orphan(w, id) {
      if IndexOf(w.table.rows, id).None? {
        forall h ensures Own(At(w, h), id) == [] {
          assert SyncedAt(w, h, id);
        }
      }
    }
  }

  /** Table and chains agree throughout a run, whatever fails in it, if and only if every step of it is right. */
  lemma RunsStaySyncedIff(ws: seq<World>, acts: seq<Act>)
    requires Trace(ws, acts) && Inv(ws[0]) && Synced(ws[0])
    ensures (forall n :: 0 <= n <= |acts| ==> Synced(ws[n])) <==>
              forall i :: 0 <= i < |acts| ==> StepRight(ws[i], acts[i], ws[i + 1])
  {
    hide Inv, Next, Synced, StepRight;
    if forall n :: 0 <= n <= |acts| ==> Synced(ws[n]) {
      forall i | 0 <= i < |acts| ensures StepRight(ws[i], acts[i], ws[i + 1]) {
        TracesKeepInv(ws, acts, i);
        NextSyncsIff(ws[i], acts[i], ws[i + 1]);
      }
    }
    if forall i :: 0 <= i < |acts| ==> StepRight(ws[i], acts[i], ws[i + 1]) {
      forall n | 0 <= n <= |acts| ensures Synced(ws[n]) {
        RightRunsSync(ws, acts, n);
      }
    }
  }

  lemma {:induction false} RightRunsSync(ws: seq<World>, acts: seq<Act>, n: nat)
    requires Trace(ws, acts) && Inv(ws[0]) && Synced(ws[0]) && n <= |acts|
    requires forall i :: 0 <= i < |acts| ==> StepRight(ws[i], acts[i], ws[i + 1])
    ensures Synced(ws[n])
  {
    hide Inv, Next, Synced, StepRight;
    if n > 0 {
      RightRunsSync(ws, acts, n - 1);
      TracesKeepInv(ws, acts, n - 1);
      assert StepRight(ws[n - 1], acts[n - 1], ws[n - 1 + 1]);
      NextSyncsIff(ws[n - 1], acts[n - 1], ws[n]);
    }
  }

  lemma AddKeepsHomed(rules: Rules, rows: seq<Forward>, h: Hook, r: Forward)
    requires Homed(rules, rows) && IndexOf(rows, r.id).Some?
    ensures Homed(rules + Gen(h, r), rows)
  {
    hide HasTag, Tags, IndexOf, Gen;
    forall l, id: nat | l in rules + Gen(h, r) && HasTag(l, Tags(id)) ensures IndexOf(rows, id).Some? {
      if l in Gen(h, r) {
        TagsFindOneRow(h, r, l, id);
      }
    }
  }

  lemma MoreRowsKeepHomed(rules: Rules, rows: seq<Forward>, more: seq<Forward>)
    requires Homed(rules, rows)
    requires forall j: nat :: IndexOf(rows, j).Some? ==> IndexOf(more, j).Some?
    ensures Homed(rules, more)
  {
    hide HasTag, Tags, IndexOf;
  }

  lemma {:induction false} ShownAllKeepsBoth(h: Hook, rows: seq<Forward>)
    ensures OneTag(ShownAll(h, rows)) && Homed(ShownAll(h, rows), rows)
    decreases |rows|
  {
    if |rows| > 0 {
      var before, r := rows[..|rows| - 1], rows[|rows| - 1];
      ShownAllKeepsBoth(h, before);
      assert rows == before + [r];
      forall j: nat ensures IndexOf(before, j).Some? || j == r.id ==> IndexOf(rows, j).Some? {
        IndexOfSnoc(before, r, j);
      }
      hide IndexOf, Homed, OneTag, Gen;
      MoreRowsKeepHomed(ShownAll(h, before), before, rows);
      AddKeepsHomed(ShownAll(h, before), rows, h, r);
      AddKeepsOneTag(ShownAll(h, before), h, r);
      assert ShownAll(h, before) + [] == ShownAll(h, before);
    }
  }
}
