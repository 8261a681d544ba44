/**
 Port forwarding (internal/domain/firewall/port_forward.go, port_forward_repo.go): the
 rows of the port_forwards table, and the three kernel chains that carry their rules.
 */
module PortForward {
  import opened Common
  import opened Nft
  import opened PortSpan

  /** A destination as trimmed text, with what net.ParseIP says of it. */
  datatype Address = Address(text: string, ipv4: bool, isPrivate: bool)

  /** A source restriction: its text, whether it can be read, and whom it admits. */
  datatype Source = Source(text: string, readable: bool, holds: nat -> bool)

  datatype Forward = Forward(id: nat, protocol: string, listen: string, dest: Address, destPort: string,
                             source: Source, iface: string, enabled: bool)

  datatype Packet = Packet(protocol: string, port: nat, iface: string, src: nat)

  // ---- Validation ----

  function LowerChar(c: char): char {
    if 'A' <= c <= 'Z' then (c as int + 32) as char else c
  }

  function Lower(s: string): string {
    seq(|s|, i requires 0 <= i < |s| => LowerChar(s[i]))
  }

  predicate IsIface(s: string) {
    1 <= |s| <= 15 && forall i | 0 <= i < |s| ::
      IsDigit(s[i]) || 'a' <= s[i] <= 'z' || 'A' <= s[i] <= 'Z' || s[i] in "._-"
  }

  function Normal(r: Forward): Forward {
    r.(protocol := Lower(Trim(r.protocol)), destPort := Trim(r.destPort), iface := Trim(r.iface))
  }

  predicate IsNormal(r: Forward) {
    Lower(Trim(r.protocol)) == r.protocol && Trim(r.destPort) == r.destPort && Trim(r.iface) == r.iface
  }

  /** What is demanded of a normalised rule; `reserved` are the ports of the panel itself. */
  predicate Acceptable(r: Forward, reserved: nat -> bool) {
    && (r.protocol == "tcp" || r.protocol == "udp")
    && Parse(r.listen).Some?
    && r.dest.ipv4
    && (r.destPort == "" ||
        (var d := Parse(r.destPort);
         d.Some? && d.value.last - d.value.first == Parse(r.listen).value.last - Parse(r.listen).value.first))
    && (r.source.text == "" || r.source.readable)
    && (r.iface == "" || IsIface(r.iface))
    && !reserved(Parse(r.listen).value.first)
  }

  function Validated(r: Forward, reserved: nat -> bool): Option<Forward> {
    if Acceptable(Normal(r), reserved) then Some(Normal(r)) else None
  }

  // ---- Conflicts ----

  predicate Compete(a: string, b: string, iface: string, jface: string) {
    && Parse(a).Some? && Parse(b).Some?
    && Overlap(Parse(a).value, Parse(b).value)
    && (iface == "" || jface == "" || iface == jface)
  }

  predicate Clash(a: Forward, b: Forward) {
    a.protocol == b.protocol && Compete(a.listen, b.listen, a.iface, b.iface)
  }

  /** checkConflict: an enabled row with another id than the rule's stands in its way. */
  predicate Blocked(rows: seq<Forward>, r: Forward) {
    exists i | 0 <= i < |rows| :: rows[i].enabled && rows[i].id != r.id && Clash(r, rows[i])
  }

  /** The rule is meant for the packet, its source restriction aside. */
  predicate Matches(r: Forward, p: Packet) {
    && p.protocol == r.protocol
    && Parse(r.listen).Some? && In(p.port, Parse(r.listen).value)
    && (r.iface == "" || r.iface == p.iface)
  }

  ghost predicate ConflictFree(rows: seq<Forward>) {
    forall i, j :: 0 <= i < j < |rows| && rows[i].enabled && rows[j].enabled ==> !Clash(rows[i], rows[j])
  }

  lemma ParsedInOrder(text: string)
    ensures Parse(text).Some? ==> 1 <= Parse(text).value.first <= Parse(text).value.last <= LAST_PORT
  {
  }

  /** Two rules clash if and only if some packet is meant for both. */
  lemma ClashIffShared(a: Forward, b: Forward)
    ensures Clash(a, b) <==> exists p :: Matches(a, p) && Matches(b, p)
  {
    ParsedInOrder(a.listen);
    ParsedInOrder(b.listen);
    hide Parse;
    if Parse(a.listen).Some? && Parse(b.listen).Some? {
      OverlapIffShared(Parse(a.listen).value, Parse(b.listen).value);
    }
    if Clash(a, b) {
      var port: nat :| In(port, Parse(a.listen).value) && In(port, Parse(b.listen).value);
      var p := Packet(a.protocol, port, if a.iface == "" then b.iface else a.iface, 0);
      assert Matches(a, p) && Matches(b, p);
    }
  }

  /** Without clashes at most one enabled rule is meant for a packet. */
  lemma AtMostOneMatches(rows: seq<Forward>, i: nat, j: nat, p: Packet)
    requires ConflictFree(rows) && i < |rows| && j < |rows| && rows[i].enabled && rows[j].enabled
    requires Matches(rows[i], p) && Matches(rows[j], p)
    ensures i == j
  {
    ClashIffShared(rows[i], rows[j]);
    ClashIffShared(rows[j], rows[i]);
  }

  // ---- The table ----

  datatype Table = Table(rows: seq<Forward>, nextId: nat)

  /** Which step of an operation fails, if one does. */
  datatype Fault = Clean | ReadFails | WriteFails | ApplyFails | UndoFails

  function IndexOf(rows: seq<Forward>, id: nat): (r: Option<nat>)
    ensures r.Some? ==> r.value < |rows| && rows[r.value].id == id
  {
    if rows == [] then None
    else if rows[0].id == id then Some(0)
    else
      match IndexOf(rows[1..], id)
      case None => None
      case Some(i) => Some(i + 1)
  }

  /** The rule as CreatePortForward stores it, if it gets that far. */
  function Admitted(t: Table, r: Forward, reserved: nat -> bool): Option<Forward> {
    match Validated(r, reserved)
    case None => None
    case Some(v) => if Blocked(t.rows, v) then None else Some(v)
  }

  function AfterCreate(t: Table, r: Forward, reserved: nat -> bool, fault: Fault): Table {
    var v := Admitted(t, r, reserved);
    if v.None? || fault.ReadFails? || fault.WriteFails? then t
    else if fault.ApplyFails? then t.(nextId := t.nextId + 1)
    else t.(rows := t.rows + [v.value.(id := t.nextId)], nextId := t.nextId + 1)
  }

  function AfterUpdate(t: Table, r: Forward, reserved: nat -> bool, fault: Fault): Table {
    var at, v := IndexOf(t.rows, r.id), Admitted(t, r, reserved);
    if at.None? || v.None? || fault.ReadFails? || fault.WriteFails? then t
    else t.(rows := t.rows[at.value := v.value])
  }

  function AfterSetEnabled(t: Table, id: nat, enabled: bool, reserved: nat -> bool, fault: Fault): Table {
    var at := IndexOf(t.rows, id);
    if at.None? || fault != Clean then t
    else if enabled && Admitted(t, t.rows[at.value], reserved).None? then t
    else t.(rows := t.rows[at.value := t.rows[at.value].(enabled := enabled)])
  }

  function AfterDelete(t: Table, id: nat, fault: Fault): Table {
    var at := IndexOf(t.rows, id);
    if at.None? || fault != Clean then t
    else t.(rows := t.rows[..at.value] + t.rows[at.value + 1..])
  }

  ghost predicate TableInv(t: Table) {
    && (forall i, j :: 0 <= i < j < |t.rows| ==> t.rows[i].id < t.rows[j].id)
    && (forall i :: 0 <= i < |t.rows| ==> 0 < t.rows[i].id < t.nextId)
    && 0 < t.nextId
    && (forall i :: 0 <= i < |t.rows| ==> IsNormal(t.rows[i]))
  }

  lemma NormalIsStable(r: Forward, reserved: nat -> bool)
    requires Acceptable(Normal(r), reserved)
    ensures IsNormal(Normal(r))
  {
    var n := Normal(r);
    TrimTrimmed(r.protocol);
    TrimTrimmed(r.destPort);
    TrimTrimmed(r.iface);
    TrimTrimmed(n.protocol);
    hide Trim, Parse;
    assert IsTrimmed("tcp") && IsTrimmed("udp");
    assert Lower("tcp") == "tcp" && Lower("udp") == "udp";
  }

  lemma {:induction false} IndexFinds(rows: seq<Forward>, id: nat)
    ensures IndexOf(rows, id).None? <==> forall i :: 0 <= i < |rows| ==> rows[i].id != id
  {
    if rows != [] {
      IndexFinds(rows[1..], id);
      assert forall i :: 0 < i < |rows| ==> rows[i] == rows[1..][i - 1];
    }
  }

  lemma IndexIs(rows: seq<Forward>, i: nat)
    requires i < |rows| && forall j, k :: 0 <= j < k < |rows| ==> rows[j].id < rows[k].id
    ensures IndexOf(rows, rows[i].id) == Some(i)
  {
    IndexFinds(rows, rows[i].id);
  }

  lemma UpdateKeepsTable(t: Table, r: Forward, reserved: nat -> bool, fault: Fault)
    requires TableInv(t)
    ensures TableInv(AfterUpdate(t, r, reserved, fault))
  {
    hide Blocked, Acceptable, Lower, Trim;
    if Acceptable(Normal(r), reserved) {
      NormalIsStable(r, reserved);
    }
  }

  lemma CreateKeepsTable(t: Table, r: Forward, reserved: nat -> bool, fault: Fault)
    requires TableInv(t)
    ensures TableInv(AfterCreate(t, r, reserved, fault))
  {
    hide Blocked, Acceptable, Lower, Trim;
    if Acceptable(Normal(r), reserved) {
      NormalIsStable(r, reserved);
    }
  }

  lemma SetEnabledKeepsTable(t: Table, id: nat, enabled: bool, reserved: nat -> bool, fault: Fault)
    requires TableInv(t)
    ensures TableInv(AfterSetEnabled(t, id, enabled, reserved, fault))
  {
    hide Blocked, Acceptable, Lower, Trim;
  }

  lemma DeleteKeepsTable(t: Table, id: nat, fault: Fault)
    requires TableInv(t)
    ensures TableInv(AfterDelete(t, id, fault))
  {
    hide IsNormal;
    if IndexOf(t.rows, id).Some? {
      CutOut(t.rows, IndexOf(t.rows, id).value);
    }
  }

  // ---- Conflict freedom over the operations ----

  lemma ClashIsMutual(a: Forward, b: Forward)
    ensures Clash(a, b) <==> Clash(b, a)
  {
  }

  /** Putting an admitted row in the place of its old version brings no clash. */
  lemma ReplacedRow(rows: seq<Forward>, at: nat, r: Forward)
    requires at < |rows| && r.id == rows[at].id
    requires forall i, j :: 0 <= i < j < |rows| ==> rows[i].id < rows[j].id
    requires ConflictFree(rows) && (r.enabled ==> !Blocked(rows, r))
    ensures ConflictFree(rows[at := r])
  {
    hide Clash;
    var now := rows[at := r];
    forall i, j | 0 <= i < j < |now| && now[i].enabled && now[j].enabled ensures !Clash(now[i], now[j]) {
      if i == at || j == at {
        var k := if i == at then j else i;
        assert rows[k].enabled && rows[k].id != r.id;
        ClashIsMutual(r, rows[k]);
      }
    }
  }

  lemma UpdateKeepsConflictFree(t: Table, r: Forward, reserved: nat -> bool, fault: Fault)
    requires TableInv(t) && ConflictFree(t.rows)
    ensures ConflictFree(AfterUpdate(t, r, reserved, fault).rows)
  {
    hide Clash, Parse, Normal, Blocked;
    var at, v := IndexOf(t.rows, r.id), Admitted(t, r, reserved);
    if at.Some? && v.Some? {
      NormalKeeps(r);
      ReplacedRow(t.rows, at.value, v.value);
    }
  }

  lemma NormalKeeps(r: Forward)
    ensures Normal(r).id == r.id && Normal(r).enabled == r.enabled
  {
  }

  lemma SetEnabledKeepsConflictFree(t: Table, id: nat, enabled: bool, reserved: nat -> bool, fault: Fault)
    requires TableInv(t) && ConflictFree(t.rows)
    ensures ConflictFree(AfterSetEnabled(t, id, enabled, reserved, fault).rows)
  {
    hide Compete, Acceptable, Lower, Trim, Parse, IndexOf;
    var at := IndexOf(t.rows, id);
    if at.Some? {
      var row := t.rows[at.value];
      assert IsNormal(row) && Normal(row) == row;
      if !enabled || Admitted(t, row, reserved).Some? {
        assert Blocked(t.rows, row.(enabled := true)) ==> Blocked(t.rows, row);
        hide Clash, Blocked;
        ReplacedRow(t.rows, at.value, row.(enabled := enabled));
      }
    }
  }

  lemma DeleteKeepsConflictFree(t: Table, id: nat, fault: Fault)
    requires TableInv(t) && ConflictFree(t.rows)
    ensures ConflictFree(AfterDelete(t, id, fault).rows)
  {
    hide Clash, IsNormal;
    if IndexOf(t.rows, id).Some? {
      CutOut(t.rows, IndexOf(t.rows, id).value);
    }
  }

  /** The submitted id hides an enabled row from the conflict check, and the rule clashes with it. */
  predicate ClashHidden(t: Table, r: Forward) {
    exists i | 0 <= i < |t.rows| :: t.rows[i].enabled && t.rows[i].id == r.id && Clash(Normal(r), t.rows[i])
  }

  /**
   CreatePortForward takes the id of the submitted rule for its own when it looks for
   conflicts.  It brings a clash into the table exactly if that id names an enabled row
   that the new, enabled rule clashes with.
   */
  lemma CreateKeepsConflictFreeIff(t: Table, r: Forward, reserved: nat -> bool)
    requires TableInv(t) && ConflictFree(t.rows)
    ensures ConflictFree(AfterCreate(t, r, reserved, Clean).rows)
       <==> !(Admitted(t, r, reserved).Some? && r.enabled && ClashHidden(t, r))
  {
    hide Clash, Acceptable, Normal, TableInv, ConflictFree, Blocked;
    var v := Admitted(t, r, reserved);
    if v.Some? {
      NormalKeeps(r);
      AddedRow(t.rows, v.value, t.nextId);
    }
  }

  lemma AddedRow(rows: seq<Forward>, r: Forward, id: nat)
    requires ConflictFree(rows) && !Blocked(rows, r)
    ensures ConflictFree(rows + [r.(id := id)])
       <==> !(r.enabled && exists i | 0 <= i < |rows| :: rows[i].enabled && rows[i].id == r.id && Clash(r, rows[i]))
  {
    hide Compete;
    var row := r.(id := id);
    var now := rows + [row];
    forall i | 0 <= i < |rows| ensures Clash(rows[i], row) == Clash(r, rows[i]) {
      ClashIsMutual(r, rows[i]);
    }
    hide Clash;
    if ConflictFree(now) && r.enabled {
      forall i | 0 <= i < |rows| && rows[i].enabled ensures !Clash(r, rows[i]) {
        assert now[i] == rows[i] && now[|rows|] == row;
      }
    }
  }

  lemma CreateFaults(t: Table, r: Forward, reserved: nat -> bool, fault: Fault)
    requires TableInv(t) && ConflictFree(t.rows) && !ClashHidden(t, r)
    ensures ConflictFree(AfterCreate(t, r, reserved, fault).rows)
  {
    CreateKeepsConflictFreeIff(t, r, reserved);
  }

  /** Submitting an enabled row once more, id included, stores it a second time, on the same port. */
  lemma ResubmittedRowClashes(t: Table, i: nat, reserved: nat -> bool)
    requires TableInv(t) && ConflictFree(t.rows) && i < |t.rows|
    requires t.rows[i].enabled && Acceptable(t.rows[i], reserved)
    ensures !ConflictFree(AfterCreate(t, t.rows[i], reserved, Clean).rows)
  {
    hide Parse, Lower, Trim;
    var row := t.rows[i];
    assert IsNormal(row) && Normal(row) == row;
    ParsedInOrder(row.listen);
    assert Clash(row, row);
    forall k | 0 <= k < |t.rows| && t.rows[k].enabled && t.rows[k].id != row.id ensures !Clash(row, t.rows[k]) {
      ClashIsMutual(row, t.rows[k]);
    }
    CreateKeepsConflictFreeIff(t, row, reserved);
  }

  function Web(): Forward {
    Forward(1, "tcp", Decimal(80), Address("10.0.0.2", true, true), "", Source("", true, (src: nat) => true), "", true)
  }

  lemma WebIsAcceptable(free: nat -> bool)
    requires free(80) == false
    ensures IsNormal(Web()) && Acceptable(Web(), free)
  {
    hide Parse, Trim, Decimal;
    ParseOfPrinted(Span(80, 80));
    TrimTrimmed("tcp");
    TrimTrimmed("");
    assert Lower("tcp") == "tcp";
  }

  function NoneReserved(): nat -> bool {
    (port: nat) => false
  }

  lemma SubmittedIdBreaksConflictFreedom()
    ensures var t := Table([Web()], 2);
            && TableInv(t) && ConflictFree(t.rows)
            && !ConflictFree(AfterCreate(t, Web(), NoneReserved(), Clean).rows)
  {
    WebIsAcceptable(NoneReserved());
    hide Acceptable, IsNormal, Clash, AfterCreate;
    ResubmittedRowClashes(Table([Web()], 2), 0, NoneReserved());
  }

  datatype Op =
    | CreateOp(rule: Forward, reserved: nat -> bool)
    | UpdateOp(rule: Forward, reserved: nat -> bool)
    | SetEnabledOp(id: nat, enabled: bool, reserved: nat -> bool)
    | DeleteOp(id: nat)

  function TableStep(t: Table, op: Op, fault: Fault): Table {
    match op
    case CreateOp(rule, reserved) => AfterCreate(t, rule, reserved, fault)
    case UpdateOp(rule, reserved) => AfterUpdate(t, rule, reserved, fault)
    case SetEnabledOp(id, enabled, reserved) => AfterSetEnabled(t, id, enabled, reserved, fault)
    case DeleteOp(id) => AfterDelete(t, id, fault)
  }

  function TableRun(ops: seq<(Op, Fault)>): Table {
    if |ops| == 0 then Table([], 1)
    else TableStep(TableRun(ops[..|ops| - 1]), ops[|ops| - 1].0, ops[|ops| - 1].1)
  }

  /** A rule is submitted for creation without an id, which is then zero. */
  predicate WithoutId(op: Op) {
    op.CreateOp? ==> op.rule.id == 0
  }

  lemma StepKeepsTable(t: Table, op: Op, fault: Fault)
    requires TableInv(t)
    ensures TableInv(TableStep(t, op, fault))
  {
    hide TableInv, AfterCreate, AfterUpdate, AfterSetEnabled, AfterDelete;
    match op {
      case CreateOp(rule, reserved) => CreateKeepsTable(t, rule, reserved, fault);
      case UpdateOp(rule, reserved) => UpdateKeepsTable(t, rule, reserved, fault);
      case SetEnabledOp(id, enabled, reserved) => SetEnabledKeepsTable(t, id, enabled, reserved, fault);
      case DeleteOp(id) => DeleteKeepsTable(t, id, fault);
    }
  }

  lemma StepKeepsConflictFree(t: Table, op: Op, fault: Fault)
    requires TableInv(t) && ConflictFree(t.rows) && WithoutId(op)
    ensures ConflictFree(TableStep(t, op, fault).rows)
  {
    assert op.CreateOp? ==> !ClashHidden(t, op.rule);
    hide ConflictFree, TableInv, AfterCreate, AfterUpdate, AfterSetEnabled, AfterDelete, ClashHidden;
    match op {
      case CreateOp(rule, reserved) => CreateFaults(t, rule, reserved, fault);
      case UpdateOp(rule, reserved) => UpdateKeepsConflictFree(t, rule, reserved, fault);
      case SetEnabledOp(id, enabled, reserved) => SetEnabledKeepsConflictFree(t, id, enabled, reserved, fault);
      case DeleteOp(id) => DeleteKeepsConflictFree(t, id, fault);
    }
  }

  /**
   Over every run of operations, each with any fault, the enabled rows stay free of
   conflicts as long as rules are created without an id of their own.
   */
  lemma {:induction false} RunsStayConflictFree(ops: seq<(Op, Fault)>)
    requires forall i :: 0 <= i < |ops| ==> WithoutId(ops[i].0)
    ensures TableInv(TableRun(ops)) && ConflictFree(TableRun(ops).rows)
    decreases |ops|
  {
    if |ops| > 0 {
      RunsStayConflictFree(ops[..|ops| - 1]);
      hide TableInv, ConflictFree, TableStep;
      StepKeepsTable(TableRun(ops[..|ops| - 1]), ops[|ops| - 1].0, ops[|ops| - 1].1);
      StepKeepsConflictFree(TableRun(ops[..|ops| - 1]), ops[|ops| - 1].0, ops[|ops| - 1].1);
    }
  }

  // ---- What gets into the table ----

  /**
   What the table promises of every row: the protocol, ports and spans that can be parsed,
   the destination's span as long as the one listened on, and an interface name of the kernel.
   */
  predicate WellFormed(r: Forward) {
    && (r.protocol == "tcp" || r.protocol == "udp")
    && Parse(r.listen).Some? && r.dest.ipv4
    && (r.destPort != "" ==>
          var d, l := Parse(r.destPort), Parse(r.listen).value;
          d.Some? && d.value.last - d.value.first == l.last - l.first)
    && (r.source.text == "" || r.source.readable)
    && |r.iface| <= 15
    && forall i | 0 <= i < |r.iface| ::
         IsDigit(r.iface[i]) || 'A' <= r.iface[i] <= 'Z' || 'a' <= r.iface[i] <= 'z' || r.iface[i] in ['.', '_', '-']
  }

  lemma AcceptableIff(r: Forward, reserved: nat -> bool)
    ensures Acceptable(r, reserved) <==> WellFormed(r) && !reserved(Parse(r.listen).value.first)
  {
    hide Parse;
    assert r.iface == "" <==> |r.iface| == 0;
  }

  lemma LowerCases()
    ensures Lower("TCP") == "tcp" && Lower("UDP") == "udp" && Lower("Tcp") == "tcp"
  {
  }

  /**
   A rule is admitted if and only if it is well formed once trimmed, does not listen on a
   port of the panel, and no packet is meant for it and for an enabled row with another id.
   */
  lemma AdmittedIff(t: Table, r: Forward, reserved: nat -> bool)
    ensures var n := r.(protocol := Lower(Trim(r.protocol)), destPort := Trim(r.destPort), iface := Trim(r.iface));
            && (Admitted(t, r, reserved).Some? <==>
                  && WellFormed(n) && !reserved(Parse(n.listen).value.first)
                  && !exists i, p :: 0 <= i < |t.rows| && t.rows[i].enabled && t.rows[i].id != r.id
                                     && Matches(n, p) && Matches(t.rows[i], p))
            && (Admitted(t, r, reserved).Some? ==> Admitted(t, r, reserved).value == n)
  {
    var n := Normal(r);
    AcceptableIff(n, reserved);
    NormalKeeps(r);
    forall i | 0 <= i < |t.rows| ensures Clash(n, t.rows[i]) <==> exists p :: Matches(n, p) && Matches(t.rows[i], p) {
      ClashIffShared(n, t.rows[i]);
    }
    hide Acceptable, WellFormed, Clash, Matches, Parse, Trim, Lower;
    if Blocked(t.rows, n) {
      var i :| 0 <= i < |t.rows| && t.rows[i].enabled && t.rows[i].id != n.id && Clash(n, t.rows[i]);
      var p :| Matches(n, p) && Matches(t.rows[i], p);
    }
  }

  lemma AdmittedIsWellFormed(t: Table, r: Forward, reserved: nat -> bool)
    ensures Admitted(t, r, reserved).Some? ==> WellFormed(Admitted(t, r, reserved).value)
  {
    AcceptableIff(Normal(r), reserved);
    hide Acceptable, WellFormed, Normal, Blocked, Parse;
  }

  lemma SwitchedIsWellFormed(r: Forward, enabled: bool)
    ensures WellFormed(r.(enabled := enabled)) <==> WellFormed(r)
    ensures forall id :: WellFormed(r.(id := id)) <==> WellFormed(r)
  {
  }

  ghost predicate AllWellFormed(rows: seq<Forward>) {
    forall i :: 0 <= i < |rows| ==> WellFormed(rows[i])
  }

  lemma StepKeepsWellFormed(t: Table, op: Op, fault: Fault)
    requires AllWellFormed(t.rows)
    ensures AllWellFormed(TableStep(t, op, fault).rows)
  {
    hide Admitted, WellFormed, IndexOf;
    match op {
      case CreateOp(r, reserved) =>
        AdmittedIsWellFormed(t, r, reserved);
        if Admitted(t, r, reserved).Some? {
          SwitchedIsWellFormed(Admitted(t, r, reserved).value, false);
        }
      case UpdateOp(r, reserved) => AdmittedIsWellFormed(t, r, reserved);
      case SetEnabledOp(id, enabled, _) =>
        if IndexOf(t.rows, id).Some? {
          SwitchedIsWellFormed(t.rows[IndexOf(t.rows, id).value], enabled);
        }
      case DeleteOp(id) =>
        if IndexOf(t.rows, id).Some? {
          CutOut(t.rows, IndexOf(t.rows, id).value);
        }
    }
  }

  /** Over every run, each operation with any fault, every stored row is well formed. */
  lemma {:induction false} RunsStoreWellFormedRows(ops: seq<(Op, Fault)>)
    ensures AllWellFormed(TableRun(ops).rows)
    decreases |ops|
  {
    if |ops| > 0 {
      RunsStoreWellFormedRows(ops[..|ops| - 1]);
      hide AllWellFormed, TableStep;
      StepKeepsWellFormed(TableRun(ops[..|ops| - 1]), ops[|ops| - 1].0, ops[|ops| - 1].1);
    }
  }

  /** The row with the id. */
  function RowOf(t: Table, id: nat): Option<Forward> {
    match IndexOf(t.rows, id)
    case None => None
    case Some(i) => Some(t.rows[i])
  }

  lemma RowOfIs(t: Table, id: nat, r: Forward)
    requires TableInv(t)
    ensures RowOf(t, id) == Some(r) <==> r.id == id && exists i :: 0 <= i < |t.rows| && t.rows[i] == r
    ensures RowOf(t, id).None? <==> forall i :: 0 <= i < |t.rows| ==> t.rows[i].id != id
  {
    hide IsNormal;
    IndexFinds(t.rows, id);
    if i :| 0 <= i < |t.rows| && t.rows[i] == r {
      IndexIs(t.rows, i);
    }
  }

  /** The tables have the same row under the id, if any. */
  lemma SameRow(t: Table, u: Table, id: nat)
    requires TableInv(t) && TableInv(u)
    requires forall i :: 0 <= i < |t.rows| && t.rows[i].id == id ==> t.rows[i] in u.rows
    requires forall i :: 0 <= i < |u.rows| && u.rows[i].id == id ==> u.rows[i] in t.rows
    ensures RowOf(t, id) == RowOf(u, id)
  {
    hide TableInv, IndexOf;
    if RowOf(t, id).Some? {
      RowOfIs(t, id, RowOf(t, id).value);
      RowOfIs(u, id, RowOf(t, id).value);
    } else if RowOf(u, id).Some? {
      RowOfIs(u, id, RowOf(u, id).value);
      RowOfIs(t, id, RowOf(u, id).value);
    }
  }

  /** Creating a rule puts it under an id not used before and touches no other row. */
  lemma CreateAddsARow(t: Table, r: Forward, reserved: nat -> bool, j: nat)
    requires TableInv(t)
    ensures var u := AfterCreate(t, r, reserved, Clean);
            if Admitted(t, r, reserved).None? then u == t
            else
              && RowOf(t, t.nextId).None? && u.nextId == t.nextId + 1
              && RowOf(u, j) == if j == t.nextId then Some(Admitted(t, r, reserved).value.(id := t.nextId)) else RowOf(t, j)
  {
    var u := AfterCreate(t, r, reserved, Clean);
    CreateKeepsTable(t, r, reserved, Clean);
    IndexFinds(t.rows, t.nextId);
    hide Admitted, IsNormal, IndexOf;
    if Admitted(t, r, reserved).Some? {
      var row := Admitted(t, r, reserved).value.(id := t.nextId);
      assert u.rows[|t.rows|] == row;
      RowOfIs(u, t.nextId, row);
      OtherRowsStay(t, u, j, t.nextId);
    }
  }

  lemma RowReplaced(t: Table, u: Table, at: nat, r: Forward, j: nat)
    requires TableInv(t) && TableInv(u) && at < |t.rows| && r.id == t.rows[at].id && u.rows == t.rows[at := r]
    ensures RowOf(u, j) == if j == r.id then Some(r) else RowOf(t, j)
  {
    hide TableInv, IndexOf;
    assert u.rows[at] == r;
    RowOfIs(u, r.id, r);
    assert forall i :: 0 <= i < |t.rows| && i != at ==> u.rows[i] == t.rows[i];
    OtherRowsStay(t, u, j, r.id);
  }

  /** Updating a rule replaces the row of its id by what was submitted. */
  lemma UpdateReplacesTheRow(t: Table, r: Forward, reserved: nat -> bool, j: nat)
    requires TableInv(t)
    ensures var u := AfterUpdate(t, r, reserved, Clean);
            if RowOf(t, r.id).None? || Admitted(t, r, reserved).None? then u == t
            else u.nextId == t.nextId && RowOf(u, j) == if j == r.id then Admitted(t, r, reserved) else RowOf(t, j)
  {
    var u := AfterUpdate(t, r, reserved, Clean);
    UpdateKeepsTable(t, r, reserved, Clean);
    NormalKeeps(r);
    assert Admitted(t, r, reserved).Some? ==> Admitted(t, r, reserved).value.id == r.id;
    hide Admitted, TableInv, IndexOf;
    if RowOf(t, r.id).Some? && Admitted(t, r, reserved).Some? {
      RowReplaced(t, u, IndexOf(t.rows, r.id).value, Admitted(t, r, reserved).value, j);
    }
  }

  /** Switching a rule changes the switch of its row. */
  lemma SwitchChangesTheRow(t: Table, id: nat, enabled: bool, reserved: nat -> bool, j: nat)
    requires TableInv(t)
    ensures var u := AfterSetEnabled(t, id, enabled, reserved, Clean);
            if RowOf(t, id).None? || (enabled && Admitted(t, RowOf(t, id).value, reserved).None?) then u == t
            else
              && u.nextId == t.nextId
              && RowOf(u, j) == if j == id then Some(RowOf(t, id).value.(enabled := enabled)) else RowOf(t, j)
  {
    var u := AfterSetEnabled(t, id, enabled, reserved, Clean);
    SetEnabledKeepsTable(t, id, enabled, reserved, Clean);
    hide Admitted, TableInv, IndexOf;
    if RowOf(t, id).Some? && !(enabled && Admitted(t, RowOf(t, id).value, reserved).None?) {
      RowReplaced(t, u, IndexOf(t.rows, id).value, RowOf(t, id).value.(enabled := enabled), j);
    }
  }

  /** Deleting a rule takes away the row of its id. */
  lemma DeleteTakesTheRow(t: Table, id: nat, j: nat)
    requires TableInv(t)
    ensures var u := AfterDelete(t, id, Clean);
            u.nextId == t.nextId && RowOf(u, j) == if j == id then None else RowOf(t, j)
  {
    var u := AfterDelete(t, id, Clean);
    DeleteKeepsTable(t, id, Clean);
    IndexFinds(t.rows, id);
    IndexFinds(u.rows, id);
    hide IsNormal;
    if IndexOf(t.rows, id).Some? {
      CutOut(t.rows, IndexOf(t.rows, id).value);
    }
    OtherRowsStay(t, u, j, id);
  }

  lemma OtherRowsStay(t: Table, u: Table, j: nat, id: nat)
    requires TableInv(t) && TableInv(u)
    requires forall i :: 0 <= i < |t.rows| && t.rows[i].id != id ==> t.rows[i] in u.rows
    requires forall i :: 0 <= i < |u.rows| && u.rows[i].id != id ==> u.rows[i] in t.rows
    ensures j != id ==> RowOf(u, j) == RowOf(t, j)
  {
    hide TableInv;
    if j != id {
      SameRow(t, u, j);
    }
  }
}
