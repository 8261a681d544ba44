/**
 The port-forward service: every operation with its I/O, any step of which may fail
 (internal/domain/firewall/port_forward.go).
 */
module PortForwarding {
  import opened Common
  import opened Nft
  import opened PortSpan
  import opened PortForward
  import opened ForwardChains

  ghost function ForeignOf(rules: Rules): Rules {
    Filter(rules, IsForeign(Tags))
  }

  ghost predicate SameForeign(w: World, u: World) {
    ForeignOf(w.pre) == ForeignOf(u.pre) && ForeignOf(w.fwd) == ForeignOf(u.fwd) && ForeignOf(w.post) == ForeignOf(u.post)
  }

  lemma ForeignAfterAdd(rules: Rules, h: Hook, r: Forward)
    ensures ForeignOf(rules + Gen(h, r)) == ForeignOf(rules)
  {
    GenHasOneTag(h, r);
    hide Gen, Tagged;
    AddingTagged(rules, Gen(h, r), Tags);
  }

  lemma ForeignAfterThinning(before: Rules, after: Rules, id: nat)
    requires Thinned(before, after, Tags(id))
    ensures ForeignOf(after) == ForeignOf(before)
  {
    forall i | 0 <= i < |before| ensures IsForeign<Body>(Tags)(before[i]) ==> !HasTag(before[i], Tags(id)) {
    }
    hide Thinned, Tags, HasTag;
    ThinnedSelects(before, after, Tags(id), IsForeign(Tags));
  }

  lemma ForeignAfterThin(w: World, u: World, id: nat)
    requires Thin(w, u, id)
    ensures SameForeign(w, u)
  {
    hide Thinned, ForeignOf;
    ForeignAfterThinning(w.pre, u.pre, id);
    ForeignAfterThinning(w.fwd, u.fwd, id);
    ForeignAfterThinning(w.post, u.post, id);
  }

  lemma ForeignAfterLaying(w: World, r: Forward, v: World)
    requires v == Laid(w, r) || PartlyLaid(w, r, v)
    ensures SameForeign(w, v)
  {
    hide Gen, ForeignOf;
    ForeignAfterAdd(w.pre, Prerouting, r);
    ForeignAfterAdd(w.fwd, Filtering, r);
    ForeignAfterAdd(w.post, Postrouting, r);
  }

  lemma {:induction false} ReplaysKeepForeign(w: World, rows: seq<Forward>, v: World)
    requires Replays(w, rows, v)
    ensures SameForeign(w, v)
    decreases |rows|
  {
    hide Thin, Laid, PartlyLaid, ForeignOf;
    if rows != [] {
      var r := Last(rows);
      var u, x :| Replays(w, Front(rows), u) && RowReplayed(u, r, x, v);
      ReplaysKeepForeign(w, Front(rows), u);
      ForeignAfterThin(u, x, r.id);
      if v != x {
        ForeignAfterLaying(x, r, v);
      }
    }
  }

  /** No step, whatever fails in it, touches a rule of anyone else. */
  lemma NextKeepsForeign(w: World, act: Act, v: World)
    requires Next(w, act, v)
    ensures SameForeign(w, v)
  {
    hide Thin, Laid, PartlyLaid, ForeignOf, Admitted, IndexOf, Replays, TableStep;
    match act {
      case Do(op, fault) => ChainsNextKeepForeign(w.(table := v.table), w.table, op, fault, v);
      case Replay =>
        if v != w {
          ReplaysKeepForeign(w, w.table.rows, v);
        }
    }
  }

  lemma ChainsNextKeepForeign(u: World, t: Table, op: Op, fault: Fault, v: World)
    requires ChainsNext(u, t, op, fault, v)
    ensures SameForeign(u, v)
  {
    hide Thin, Laid, PartlyLaid, ForeignOf, Admitted, IndexOf;
    if v != u {
      match op {
        case CreateOp(r, reserved) => ForeignAfterLaying(u, Admitted(t, r, reserved).value.(id := t.nextId), v);
        case UpdateOp(r, reserved) =>
          var a := Admitted(t, r, reserved);
          var x :| Thin(u, x, r.id) && if fault.WriteFails? || (fault.Clean? && !r.enabled) then v == x
                                       else if fault.Clean? then v == Laid(x, a.value)
                                       else r.enabled && PartlyLaid(x, a.value, v);
          ForeignAfterThin(u, x, r.id);
          if v != x {
            ForeignAfterLaying(x, a.value, v);
          }
        case SetEnabledOp(id, enabled, reserved) =>
          if enabled {
            ForeignAfterLaying(u, Admitted(t, t.rows[IndexOf(t.rows, id).value], reserved).value, v);
          } else {
            ForeignAfterThin(u, v, id);
          }
        case DeleteOp(id) => ForeignAfterThin(u, v, id);
      }
    }
  }

  lemma BlockedStep(rows: seq<Forward>, i: nat, r: Forward)
    requires i < |rows|
    ensures Blocked(rows[..i + 1], r)
       <==> Blocked(rows[..i], r) || (rows[i].enabled && rows[i].id != r.id && Clash(r, rows[i]))
  {
    hide Clash;
    var more := rows[..i + 1];
    assert more[i] == rows[i] && forall k :: 0 <= k < i ==> more[k] == rows[..i][k];
  }

  /** Removing the rules of an id leaves those of other rows alone. */
  lemma ShownUntouched(h: Hook, rows: seq<Forward>, id: nat)
    requires IndexOf(rows, id).None?
    ensures Filter(ShownAll(h, rows), Untagged<Body>(Tags(id))) == ShownAll(h, rows)
  {
    ShownAllKeepsBoth(h, rows);
    var shown, untagged := ShownAll(h, rows), Untagged<Body>(Tags(id));
    assert forall l: Line<Body> :: untagged(l) == !HasTag(l, Tags(id));
    hide HasTag, Tags, IndexOf, ShownAll, Untagged;
    forall k | 0 <= k < |shown| ensures untagged(shown[k]) {
      assert shown[k] in shown;
    }
    FilterAll(shown, untagged);
  }

  lemma PrefixOfIds(rows: seq<Forward>, i: nat)
    requires i <= |rows|
    ensures Ids(rows[..i]) == Ids(rows)[..i] && |Ids(rows)| == |rows| && (i < |rows| ==> Ids(rows)[i] == rows[i].id)
  {
  }

  lemma ShownOneMore(h: Hook, rows: seq<Forward>, i: nat)
    requires i < |rows|
    ensures ShownAll(h, rows[..i + 1]) == ShownAll(h, rows[..i]) + Shown(h, rows[i])
  {
    hide Shown;
    assert rows[..i + 1][..i] == rows[..i];
  }

  /** Replaying one more row. */
  lemma ReplayStep(h: Hook, rules: Rules, rows: seq<Forward>, i: nat)
    requires i < |rows| && forall j, k :: 0 <= j < k < |rows| ==> rows[j].id < rows[k].id
    ensures Filter(Replayed(h, rules, rows[..i]), Untagged<Body>(Tags(rows[i].id))) + Shown(h, rows[i])
         == Replayed(h, rules, rows[..i + 1])
  {
    hide *;
    NoEarlierRow(rows, i);
    PrefixOfIds(rows, i);
    PrefixOfIds(rows, i + 1);
    ShownOneMore(h, rows, i);
    ShownUntouched(h, rows[..i], rows[i].id);
    ReplayedIs(h, rules, rows[..i]);
    ReplayedIs(h, rules, rows[..i + 1]);
    FilterAppend(Filter(rules, NotOwned(Ids(rows[..i]), Tags)), ShownAll(h, rows[..i]), Untagged<Body>(Tags(rows[i].id)));
    RemovedOneMore(rules, Ids(rows), i, Tags);
    Associate(Filter(rules, NotOwned(Ids(rows[..i + 1]), Tags)), ShownAll(h, rows[..i]), Shown(h, rows[i]));
  }

  lemma Associate(a: Rules, b: Rules, c: Rules)
    ensures a + b + c == a + (b + c)
  {
  }

  lemma ReplayedIs(h: Hook, rules: Rules, rows: seq<Forward>)
    ensures Replayed(h, rules, rows) == Filter(rules, NotOwned(Ids(rows), Tags)) + ShownAll(h, rows)
  {
  }

  lemma NoEarlierRow(rows: seq<Forward>, i: nat)
    requires i < |rows| && forall j, k :: 0 <= j < k < |rows| ==> rows[j].id < rows[k].id
    ensures IndexOf(rows[..i], rows[i].id).None?
  {
    IndexFinds(rows[..i], rows[i].id);
  }

  lemma NothingReplayed(h: Hook, rules: Rules)
    ensures Replayed(h, rules, []) == rules
  {
    FilterAll(rules, NotOwned(Ids([]), Tags));
  }

  class PortForwardService {
    var rows: seq<Forward>
    var nextId: nat
    const pre: Chain<Body>
    const fwd: Chain<Body>
    const post: Chain<Body>
    ghost var failures: nat // steps that failed, kernel commands aside

    constructor (pre: Chain<Body>, fwd: Chain<Body>, post: Chain<Body>)
      requires pre.Valid() && fwd.Valid() && post.Valid() && pre != fwd && fwd != post && post != pre
      ensures Valid() && TableView() == Table([], 1) && failures == 0
      ensures this.pre == pre && this.fwd == fwd && this.post == post
    {
      rows, nextId, failures := [], 1, 0;
      this.pre, this.fwd, this.post := pre, fwd, post;
    }

    ghost predicate Valid()
      reads this, pre, fwd, post
    {
      && pre != fwd && fwd != post && post != pre
      && pre.Valid() && fwd.Valid() && post.Valid()
      && TableInv(TableView())
    }

    function TableView(): Table
      reads this
    {
      Table(rows, nextId)
    }

    function View(): World
      reads this, pre, fwd, post
    {
      World(TableView(), Lines(pre.rules), Lines(fwd.rules), Lines(post.rules))
    }

    /** How many steps have failed so far, silently or not. */
    ghost function Faults(): nat
      reads this, pre, fwd, post
    {
      failures + pre.faults + fwd.faults + post.faults
    }

    /** checkConflict. */
    method CheckConflict(r: Forward) returns (blocked: bool)
      ensures blocked == Blocked(rows, r)
    {
      hide Blocked, Clash;
      BlockedByNone(r);
      var i := 0;
      while i < |rows|
        invariant 0 <= i <= |rows|
        invariant !Blocked(rows[..i], r)
      {
        BlockedStep(rows, i, r);
        if rows[i].enabled && rows[i].id != r.id && Clash(r, rows[i]) {
          BlockedByPart(rows, i + 1, r);
          return true;
        }
        i := i + 1;
      }
      assert rows[..i] == rows;
      return false;
    }

    /** applyForward: the first refusal ends it and leaves what was added before. */
    method Apply(r: Forward) returns (ok: bool)
      requires Valid()
      modifies pre, fwd, post, this`failures
      ensures Valid() && Faults() >= old(Faults()) && (ok <==> Faults() == old(Faults()))
      ensures if ok then View() == Laid(old(View()), r) else PartlyLaid(old(View()), r, View())
    {
      ghost var w := View();
      hide TableInv, Comment, BodyOf;
      if * {
        failures := failures + 1;
        assert View() == LaidPart(w, r, 0);
        return false; // a chain does not exist and cannot be made
      }
      ok := pre.Add(Line(BodyOf(Prerouting, r), Comment(DNAT_PREFIX, r.id)));
      if !ok {
        assert View() == LaidPart(w, r, 0);
        return;
      }
      ok := fwd.Add(Line(BodyOf(Filtering, r), Comment(FORWARD_PREFIX, r.id)));
      if !ok {
        assert View() == LaidPart(w, r, 1);
        return;
      }
      if !r.dest.isPrivate {
        return;
      }
      ok := post.Add(Line(BodyOf(Postrouting, r), Comment(MASQUERADE_PREFIX, r.id)));
      if !ok {
        assert View() == LaidPart(w, r, 2);
      }
    }

    /** removeForward: failures go unnoticed. */
    method Remove(id: nat)
      requires Valid()
      modifies pre`rules, pre`faults, fwd`rules, fwd`faults, post`rules, post`faults
      ensures Valid() && Faults() >= old(Faults())
      ensures Faults() == old(Faults()) ==> View() == Stripped(old(View()), id)
      ensures Thin(old(View()), View(), id)
    {
      hide TableInv, Tags, HasTag, Thinned;
      pre.RemoveTagged(Tags(id));
      post.RemoveTagged(Tags(id));
      fwd.RemoveTagged(Tags(id));
    }

    /** `fault` tells which visible step failed; a row whose rules cannot be applied is taken out again. */
    method Create(rule: Forward, reserved: nat -> bool) returns (fault: Fault)
      requires Valid()
      modifies this, pre, fwd, post
      ensures Valid() && Faults() >= old(Faults())
      ensures Next(old(View()), Do(CreateOp(rule, reserved), fault), View())
      ensures Faults() == old(Faults()) ==> fault == Clean && View() == Created(old(View()), rule, reserved)
      ensures SameForeign(old(View()), View())
    {
      ghost var w := View();
      fault := TryCreate(rule, reserved);
      NextKeepsForeign(w, Do(CreateOp(rule, reserved), fault), View());
    }

    method TryCreate(rule: Forward, reserved: nat -> bool) returns (fault: Fault)
      requires Valid()
      modifies this, pre, fwd, post
      ensures Valid() && Faults() >= old(Faults())
      ensures Next(old(View()), Do(CreateOp(rule, reserved), fault), View())
      ensures Faults() == old(Faults()) ==> fault == Clean && View() == Created(old(View()), rule, reserved)
    {
      hide TableInv, Blocked, Laid, PartlyLaid, Validated;
      ValidatedIs(TableView(), rule, reserved);
      CreateKeepsTable(TableView(), rule, reserved, Clean);
      CreateKeepsTable(TableView(), rule, reserved, ApplyFails);
      var v := Validated(rule, reserved);
      if v.None? {
        return Clean;
      }
      if * {
        failures := failures + 1;
        return ReadFails;
      }
      var blocked := CheckConflict(v.value);
      if blocked {
        return Clean;
      }
      if * {
        failures := failures + 1;
        return WriteFails;
      }
      var row := v.value.(id := nextId);
      ghost var u := View().(table := AfterCreate(TableView(), rule, reserved, Clean));
      rows, nextId := rows + [row], nextId + 1;
      assert View() == u;
      var ok := Apply(row);
      if ok {
        return Clean;
      }
      if * {
        failures := failures + 1;
        return UndoFails;
      }
      rows := rows[..|rows| - 1]; // DELETE of the row just inserted
      assert rows == old(rows);
      PartlyLaidStored(u, row, View().(table := u.table), TableView());
      return ApplyFails;
    }

    method Update(rule: Forward, reserved: nat -> bool) returns (fault: Fault)
      requires Valid()
      modifies this, pre, fwd, post
      ensures Valid() && Faults() >= old(Faults())
      ensures Next(old(View()), Do(UpdateOp(rule, reserved), fault), View())
      ensures Faults() == old(Faults()) ==> fault == Clean && View() == Updated(old(View()), rule, reserved)
      ensures SameForeign(old(View()), View())
    {
      ghost var w := View();
      fault := TryUpdate(rule, reserved);
      NextKeepsForeign(w, Do(UpdateOp(rule, reserved), fault), View());
    }

    method TryUpdate(rule: Forward, reserved: nat -> bool) returns (fault: Fault)
      requires Valid()
      modifies this, pre, fwd, post
      ensures Valid() && Faults() >= old(Faults())
      ensures Next(old(View()), Do(UpdateOp(rule, reserved), fault), View())
      ensures Faults() == old(Faults()) ==> fault == Clean && View() == Updated(old(View()), rule, reserved)
    {
      hide TableInv, Blocked, Laid, Stripped, PartlyLaid, Thinned, Thin, Validated, IndexOf;
      ValidatedIs(TableView(), rule, reserved);
      UpdateKeepsTable(TableView(), rule, reserved, Clean);
      NormalKeeps(rule);
      if * {
        failures := failures + 1;
        return ReadFails;
      }
      var at := IndexOf(rows, rule.id);
      if at.None? {
        return Clean;
      }
      var v := Validated(rule, reserved);
      if v.None? {
        return Clean;
      }
      var blocked := CheckConflict(v.value);
      if blocked {
        return Clean;
      }
      ghost var w := View();
      Remove(rule.id);
      if * {
        failures := failures + 1;
        return WriteFails;
      }
      ghost var x := View().(table := AfterUpdate(TableView(), rule, reserved, Clean));
      ThinStored(w, View(), rule.id, x.table);
      StripAndStore(w, rule.id, x.table);
      rows := rows[at.value := v.value];
      assert View() == x;
      if v.value.enabled {
        var ok := Apply(v.value);
        LaidKeepsTable(x, v.value, View());
        fault := if ok then Clean else ApplyFails;
      } else {
        fault := Clean;
      }
    }

    method SetEnabled(id: nat, enabled: bool, reserved: nat -> bool) returns (fault: Fault)
      requires Valid()
      modifies this, pre, fwd, post
      ensures Valid() && Faults() >= old(Faults())
      ensures Next(old(View()), Do(SetEnabledOp(id, enabled, reserved), fault), View())
      ensures Faults() == old(Faults()) ==> fault == Clean && View() == Switched(old(View()), id, enabled, reserved)
      ensures SameForeign(old(View()), View())
    {
      ghost var w := View();
      fault := TrySetEnabled(id, enabled, reserved);
      NextKeepsForeign(w, Do(SetEnabledOp(id, enabled, reserved), fault), View());
    }

    method TrySetEnabled(id: nat, enabled: bool, reserved: nat -> bool) returns (fault: Fault)
      requires Valid()
      modifies this, pre, fwd, post
      ensures Valid() && Faults() >= old(Faults())
      ensures Next(old(View()), Do(SetEnabledOp(id, enabled, reserved), fault), View())
      ensures Faults() == old(Faults()) ==> fault == Clean && View() == Switched(old(View()), id, enabled, reserved)
    {
      hide TableInv, Blocked, Laid, Stripped, PartlyLaid, Thin, Validated, IndexOf;
      SetEnabledKeepsTable(TableView(), id, enabled, reserved, Clean);
      if * {
        failures := failures + 1;
        return ReadFails;
      }
      var at := IndexOf(rows, id);
      if at.None? {
        return Clean;
      }
      var row := rows[at.value];
      ghost var w, t := View(), AfterSetEnabled(TableView(), id, enabled, reserved, Clean);
      if enabled {
        ValidatedIs(TableView(), row, reserved);
        var v := Validated(row, reserved);
        if v.None? {
          return Clean;
        }
        var blocked := CheckConflict(v.value);
        if blocked {
          return Clean;
        }
        LayAndStore(w, v.value, t);
        var ok := Apply(v.value);
        LaidKeepsTable(w, v.value, View());
        if !ok {
          return ApplyFails;
        }
      } else {
        StripAndStore(w, id, t);
        Remove(id);
        ThinStored(w, View(), id, t);
        ThinStored(w, View(), id, w.table);
      }
      if * {
        failures := failures + 1;
        return WriteFails;
      }
      rows := rows[at.value := row.(enabled := enabled)];
      fault := Clean;
    }

    method Delete(id: nat) returns (fault: Fault)
      requires Valid()
      modifies this, pre, fwd, post
      ensures Valid() && Faults() >= old(Faults())
      ensures Next(old(View()), Do(DeleteOp(id), fault), View())
      ensures Faults() == old(Faults()) ==> fault == Clean && View() == Deleted(old(View()), id)
      ensures SameForeign(old(View()), View())
    {
      hide ForeignOf, TableInv, Stripped, Thinned;
      ghost var w, t := View(), AfterDelete(TableView(), id, Clean);
      DeleteKeepsTable(TableView(), id, Clean);
      StripAndStore(w, id, t);
      Remove(id);
      if * {
        failures := failures + 1;
        fault := WriteFails;
      } else {
        var at := IndexOf(rows, id);
        if at.Some? {
          rows := rows[..at.value] + rows[at.value + 1..];
        }
        fault := Clean;
      }
      NextKeepsForeign(w, Do(DeleteOp(id), fault), View());
    }

    /**
     A row that cannot be applied does not keep the others from being replayed.  `ok`
     says that the table was read and every enabled row applied; failed removals do not
     show.  `turns` tells how each row fared.
     */
    method ReapplyAll() returns (ok: bool, ghost turns: seq<Turn>)
      requires Valid()
      modifies pre, fwd, post, this`failures
      ensures Valid() && Faults() >= old(Faults())
      ensures Next(old(View()), Replay, View())
      ensures TableView() == old(TableView())
      ensures Faults() == old(Faults()) ==> ok && View() == Reapplied(old(View()))
      ensures View() == old(View()) || TookTurns(old(View()), turns, View())
      ensures ok ==> TookTurns(old(View()), turns, View()) && AllApplied(rows, turns)
      ensures SameForeign(old(View()), View())
    {
      NothingHappened(View());
      if * {
        failures := failures + 1;
        return false, []; // the table cannot be read
      }
      ok, turns := ReplayRows();
    }

    /** The loop over all rows. */
    method ReplayRows() returns (ok: bool, ghost turns: seq<Turn>)
      requires Valid()
      modifies pre, fwd, post, this`failures
      ensures Valid() && Faults() >= old(Faults())
      ensures Next(old(View()), Replay, View())
      ensures TableView() == old(TableView())
      ensures TookTurns(old(View()), turns, View()) && (ok <==> AllApplied(rows, turns))
      ensures Faults() == old(Faults()) ==> ok && View() == Reapplied(old(View()))
      ensures SameForeign(old(View()), View())
    {
      hide *;
      ghost var before := View();
      RowsInOrder();
      ok, turns := true, [];
      NoRowReplayed(before);
      ghost var done: seq<Forward> := [];
      var i := 0;
      while i < |rows|
        invariant 0 <= i <= |rows| && done == rows[..i]
        invariant Valid() && rows == before.table.rows && TableView() == old(TableView()) && Faults() >= old(Faults())
        invariant Faults() == old(Faults()) ==> ok && View() == PartlyReplayed(before, done)
        invariant |turns| == i && Turns(before, done, turns) && View() == After(before, done, turns, i)
        invariant ok <==> AllApplied(done, turns)
      {
        ghost var u := View();
        RowsInOrder();
        OneMoreReplayed(before, rows, i);
        var applied;
        ghost var turn;
        applied, turn := ReplayRow(rows[i]);
        ok := ok && applied;
        OneMoreTurn(before, done, turns, rows[i], turn);
        done, turns := done + [rows[i]], turns + [turn];
        i := i + 1;
        assert done == rows[..i];
      }
      assert rows[..i] == rows;
      AllReplayed(before, View(), rows, turns);
    }

    lemma RowsInOrder()
      requires Valid()
      ensures forall j, k :: 0 <= j < k < |rows| ==> rows[j].id < rows[k].id
      ensures View().table == TableView() && TableView().rows == rows
    {
    }

    /** The body of the loop. */
    method ReplayRow(r: Forward) returns (ok: bool, ghost turn: Turn)
      requires Valid()
      modifies pre, fwd, post, this`failures
      ensures Valid() && Faults() >= old(Faults()) && TableView() == old(TableView())
      ensures TurnOf(old(View()), r, turn) && View() == Done(r, turn)
      ensures ok <==> (r.enabled ==> turn.parts == Parts(r))
      ensures Faults() == old(Faults()) ==>
                ok && View() == var x := Stripped(old(View()), r.id); if r.enabled then Laid(x, r) else x
    {
      hide TableInv, Laid, LaidPart, Stripped, PartlyLaid, Thin, Parts;
      ok := true;
      Remove(r.id);
      ghost var x := View();
      if r.enabled {
        ok := Apply(r);
        turn := TurnTaken(x, r, ok, View());
      } else {
        turn := Turn(x, 0);
        LaidPartIs(x, r, Prerouting, 0);
      }
    }
  }

  lemma TurnTaken(x: World, r: Forward, ok: bool, v: World) returns (turn: Turn)
    requires if ok then v == Laid(x, r) else PartlyLaid(x, r, v)
    ensures turn.cleaned == x && turn.parts <= Parts(r) && v == Done(r, turn) && (ok <==> turn.parts == Parts(r))
  {
    hide LaidPart, Laid, Parts;
    PartsInFull(x, r);
    var k: nat :| v == LaidPart(x, r, k) && if ok then k == Parts(r) else k < Parts(r);
    turn := Turn(x, k);
  }

  lemma OneMoreTurn(w: World, done: seq<Forward>, turns: seq<Turn>, r: Forward, turn: Turn)
    requires |turns| == |done| && Turns(w, done, turns) && TurnOf(After(w, done, turns, |done|), r, turn)
    ensures Turns(w, done + [r], turns + [turn])
    ensures After(w, done + [r], turns + [turn], |done| + 1) == Done(r, turn)
    ensures AllApplied(done + [r], turns + [turn]) <==>
              AllApplied(done, turns) && (r.enabled ==> turn.parts == Parts(r))
  {
    hide TurnOf, Turns, After, Parts;
    var more, all := done + [r], turns + [turn];
    assert Front(more) == done && Last(more) == r;
    TurnsSnoc(w, more, turns, turn);
    forall i | 0 <= i < |done| ensures more[i] == done[i] && all[i] == turns[i] {
    }
    assert more[|done|] == r && all[|done|] == turn;
  }

  lemma NoRowReplayed(w: World)
    ensures PartlyReplayed(w, []) == w && Turns(w, [], []) && After(w, [], [], 0) == w && AllApplied([], [])
  {
    hide Replayed;
    NothingReplayed(Prerouting, w.pre);
    NothingReplayed(Filtering, w.fwd);
    NothingReplayed(Postrouting, w.post);
  }

  lemma NothingHappened(w: World)
    ensures Next(w, Replay, w) && SameForeign(w, w)
  {
    hide ForeignOf;
  }

  lemma AllReplayed(w: World, v: World, rows: seq<Forward>, turns: seq<Turn>)
    requires rows == w.table.rows && |turns| == |rows| && Turns(w, rows, turns) && v == After(w, rows, turns, |rows|)
    ensures Next(w, Replay, v) && SameForeign(w, v) && TookTurns(w, turns, v)
    ensures PartlyReplayed(w, rows) == Reapplied(w)
  {
    TurnsAreReplay(w, rows, turns);
    hide Replays, Replayed, Turns, After;
    NextKeepsForeign(w, Replay, v);
  }

  lemma ValidatedIs(t: Table, r: Forward, reserved: nat -> bool)
    ensures Validated(r, reserved).Some? ==> Validated(r, reserved).value.id == r.id
                                             && Validated(r, reserved).value.enabled == r.enabled
    ensures Admitted(t, r, reserved) == if Validated(r, reserved).None? || Blocked(t.rows, Validated(r, reserved).value)
                                        then None else Validated(r, reserved)
  {
    NormalKeeps(r);
  }

  /** A part that was laid down stays laid down when the table is written. */
  lemma PartlyLaidStored(u: World, r: Forward, v: World, t: Table)
    requires PartlyLaid(u, r, v)
    ensures PartlyLaid(u.(table := t), r, v.(table := t))
  {
    var k: nat :| k < Parts(r) && v == LaidPart(u, r, k);
    assert v.(table := t) == LaidPart(u.(table := t), r, k);
  }

  lemma ThinStored(w: World, u: World, id: nat, t: Table)
    requires Thin(w, u, id)
    ensures Thin(w.(table := t), u.(table := t), id) && u.table == w.table
  {
    hide Thinned;
  }

  lemma LaidKeepsTable(u: World, r: Forward, v: World)
    ensures v == Laid(u, r) || PartlyLaid(u, r, v) ==> v.table == u.table
  {
  }

  ghost function PartlyReplayed(w: World, rows: seq<Forward>): World {
    w.(pre := Replayed(Prerouting, w.pre, rows),
       fwd := Replayed(Filtering, w.fwd, rows),
       post := Replayed(Postrouting, w.post, rows))
  }

  lemma OneMoreReplayed(w: World, rows: seq<Forward>, i: nat)
    requires i < |rows| && forall j, k :: 0 <= j < k < |rows| ==> rows[j].id < rows[k].id
    ensures var u := Stripped(PartlyReplayed(w, rows[..i]), rows[i].id);
            PartlyReplayed(w, rows[..i + 1]) == if rows[i].enabled then Laid(u, rows[i]) else u
  {
    hide Replayed, Gen, Tags, HasTag;
    ReplayStep(Prerouting, w.pre, rows, i);
    ReplayStep(Filtering, w.fwd, rows, i);
    ReplayStep(Postrouting, w.post, rows, i);
  }

  lemma StripAndStore(w: World, id: nat, t: Table)
    ensures Stripped(w, id).(table := t) == Stripped(w.(table := t), id)
  {
  }

  lemma LayAndStore(w: World, r: Forward, t: Table)
    ensures Laid(w, r).(table := t) == Laid(w.(table := t), r)
  {
  }

  lemma BlockedByNone(r: Forward)
    ensures forall rows: seq<Forward> :: !Blocked(rows[..0], r)
  {
  }

  lemma BlockedByPart(rows: seq<Forward>, n: nat, r: Forward)
    requires n <= |rows| && Blocked(rows[..n], r)
    ensures Blocked(rows, r)
  {
    hide Clash;
    var i :| 0 <= i < n && rows[..n][i].enabled && rows[..n][i].id != r.id && Clash(r, rows[..n][i]);
    assert rows[i] == rows[..n][i];
  }
}
