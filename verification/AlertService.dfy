/**
 The alert evaluator (internal/domain/alert/service.go).

 Each rule has a state, and a cool-down that outlives it.  What a rule sends is stated
 over the history of its samples, without the stored state.
 */
module AlertService {
  import opened Common

  const SECOND := 1_000_000_000
  const COOLDOWN := 300 * SECOND

  datatype Rule = Rule(id: int, metric: string, threshold: real, duration: int, enabled: bool)

  datatype Point = Point(cpu: real, mem: real, disk: real, load1: real, load5: real, load15: real)

  datatype AlertState = AlertState(firstAbove: Option<int>, triggered: bool)

  const Fresh := AlertState(None, false)

  /** extractMetric: minus one for a metric it does not know. */
  function Metric(p: Point, metric: string): real {
    if metric == "cpu_percent" then p.cpu
    else if metric == "mem_percent" then p.mem
    else if metric == "disk_percent" then p.disk
    else if metric == "load_1m" then p.load1
    else if metric == "load_5m" then p.load5
    else if metric == "load_15m" then p.load15
    else -1.0
  }

  /** The names of the metrics, each with its own value of the sample; any other name is no metric. */
  lemma MetricsByName(p: Point, metric: string)
    ensures Metric(p, "cpu_percent") == p.cpu && Metric(p, "mem_percent") == p.mem && Metric(p, "disk_percent") == p.disk
    ensures Metric(p, "load_1m") == p.load1 && Metric(p, "load_5m") == p.load5 && Metric(p, "load_15m") == p.load15
    ensures metric !in {"cpu_percent", "mem_percent", "disk_percent", "load_1m", "load_5m", "load_15m"} ==>
              Metric(p, metric) < 0.0
  {
  }

  // ---- The history of one rule ----

  /** A sample that counts, or the moment the rule was taken out of the active ones. */
  datatype Event = Heard(at: int, above: bool, duration: int) | Forgotten

  type History = seq<Event>

  predicate IsAbove(e: Event) {
    e.Heard? && e.above
  }

  /** Where the unbroken run of samples above the threshold that ends at `k` begins. */
  function RunStart(h: History, k: nat): (i: nat)
    requires k < |h|
    ensures i <= k
    ensures IsAbove(h[k]) ==> forall j | i <= j <= k :: IsAbove(h[j])
    ensures i > 0 ==> !IsAbove(h[i - 1])
  {
    if k > 0 && IsAbove(h[k - 1]) then RunStart(h, k - 1) else k
  }

  /**
   An alert is due at a sample above the threshold if the run it belongs to has lasted
   long enough, has not had its alert, and no alert of the rule is younger than the
   cool-down.
   */
  predicate Due(h: History, k: nat)
    requires k < |h|
    decreases k
  {
    && IsAbove(h[k])
    && h[k].at - h[RunStart(h, k)].at >= h[k].duration
    && forall j: nat | j < k && Due(h, j) :: Allows(h, j, k)
  }

  /** The alert at `j` belongs to an earlier run, and is old enough. */
  predicate Allows(h: History, j: nat, k: nat)
    requires j < k < |h|
  {
    j < RunStart(h, k) && h[j].Heard? && h[k].Heard? && h[k].at - h[j].at >= 300_000_000_000
  }

  ghost predicate InOrder(h: History) {
    forall i, j :: 0 <= i < j < |h| && h[i].Heard? && h[j].Heard? ==> h[i].at <= h[j].at
  }

  // ---- The stored state stands for the history ----

  function FirstAbove(h: History): Option<int> {
    if h != [] && IsAbove(h[|h| - 1]) then Some(h[RunStart(h, |h| - 1)].at) else None
  }

  ghost predicate Triggered(h: History) {
    h != [] && IsAbove(h[|h| - 1]) && exists j: nat :: RunStart(h, |h| - 1) <= j < |h| && Due(h, j)
  }

  function LastSent(h: History): Option<int> {
    if h == [] then None
    else if Due(h, |h| - 1) then Some(h[|h| - 1].at)
    else LastSent(h[..|h| - 1])
  }

  lemma {:induction false} RunStartOfPrefix(h: History, n: nat, k: nat)
    requires k < n <= |h|
    ensures RunStart(h[..n], k) == RunStart(h, k)
  {
    if k > 0 && IsAbove(h[k - 1]) {
      RunStartOfPrefix(h, n, k - 1);
    }
  }

  lemma {:induction false} DueInPrefix(h: History, n: nat, k: nat)
    requires k < n <= |h|
    ensures Due(h[..n], k) == Due(h, k)
    decreases k
  {
    RunStartOfPrefix(h, n, k);
    forall j: nat | j < k ensures Due(h[..n], j) == Due(h, j) {
      DueInPrefix(h, n, j);
    }
  }

  /** The last alert is the youngest one. */
  lemma {:induction false} LastSentIsYoungest(h: History, now: int)
    requires InOrder(h)
    ensures (LastSent(h).Some? ==> now - LastSent(h).value >= COOLDOWN)
       <==> forall j: nat | j < |h| && Due(h, j) :: now - h[j].at >= COOLDOWN
    decreases |h|
  {
    DueIsHeard(h);
    hide Due;
    if h != [] {
      var n := |h| - 1;
      forall j: nat | j < n ensures Due(h[..n], j) == Due(h, j) && h[..n][j] == h[j] {
        DueInPrefix(h, n, j);
      }
      LastSentIsYoungest(h[..n], now);
    }
  }

  lemma DueIsHeard(h: History)
    ensures forall j: nat | j < |h| :: Due(h, j) ==> h[j].Heard?
  {
  }

  /** What Evaluate does with one sample of one rule, given the rule's state and last alert. */
  function Judge(s: AlertState, last: Option<int>, at: int, above: bool, duration: int): (AlertState, bool) {
    if !above then (Fresh, false)
    else
      var first := if s.firstAbove.None? then at else s.firstAbove.value;
      var send := !s.triggered && at - first >= duration && (last.None? || at - last.value >= COOLDOWN);
      (AlertState(Some(first), s.triggered || send), send)
  }

  ghost predicate Stands(s: AlertState, last: Option<int>, h: History) {
    s.firstAbove == FirstAbove(h) && s.triggered == Triggered(h) && last == LastSent(h)
  }

  lemma LongerHistory(h: History, e: Event)
    ensures var g := h + [e];
            forall j: nat | j < |h| :: Due(g, j) == Due(h, j) && RunStart(g, j) == RunStart(h, j)
  {
    var g := h + [e];
    assert g[..|h|] == h;
    forall j: nat | j < |h| ensures Due(g, j) == Due(h, j) && RunStart(g, j) == RunStart(h, j) {
      DueInPrefix(g, |h|, j);
      RunStartOfPrefix(g, |h|, j);
    }
  }

  /** A run goes on or begins. */
  lemma FirstOfRun(h: History, e: Event)
    requires IsAbove(e)
    ensures var g := h + [e];
            && FirstAbove(g) == Some(if FirstAbove(h).Some? then FirstAbove(h).value else e.at)
            && RunStart(g, |h|) == (if FirstAbove(h).Some? then RunStart(h, |h| - 1) else |h|)
  {
    hide Due;
    var g := h + [e];
    if FirstAbove(h).Some? {
      assert g[..|h|] == h;
      RunStartOfPrefix(g, |h|, |h| - 1);
    }
  }

  lemma AllowedIff(h: History, e: Event)
    requires IsAbove(e)
    ensures (forall j: nat | j < |h| && Due(h + [e], j) :: Allows(h + [e], j, |h|))
       <==> !Triggered(h) && forall j: nat | j < |h| && Due(h, j) :: e.at - h[j].at >= COOLDOWN
  {
    DueIsHeard(h);
    LongerHistory(h, e);
    FirstOfRun(h, e);
    hide Due, LastSent, RunStart;
    var g := h + [e];
    assert forall i :: 0 <= i < |h| ==> g[i] == h[i];
    assert g[|h|] == e;
    forall j: nat | j < |h| && Due(h, j)
      ensures Allows(g, j, |h|) <==> j < RunStart(g, |h|) && e.at - h[j].at >= COOLDOWN
    {
    }
  }

  lemma DueIff(h: History, e: Event)
    requires InOrder(h + [e]) && IsAbove(e)
    ensures Due(h + [e], |h|) <==>
              !Triggered(h) && e.at - FirstAbove(h + [e]).value >= e.duration
              && (LastSent(h).None? || e.at - LastSent(h).value >= COOLDOWN)
  {
    var g := h + [e];
    assert InOrder(h) by {
      assert forall i :: 0 <= i < |h| ==> g[i] == h[i];
    }
    DueIs(g, |h|);
    AllowedIff(h, e);
    FirstOfRun(h, e);
    LastSentIsYoungest(h, e.at);
    hide Due, LastSent, RunStart, Triggered, InOrder, Allows;
  }

  lemma DueIs(h: History, k: nat)
    requires k < |h|
    ensures Due(h, k) <==>
              && IsAbove(h[k])
              && h[k].at - h[RunStart(h, k)].at >= h[k].duration
              && forall j: nat | j < k && Due(h, j) :: Allows(h, j, k)
  {
    hide RunStart, Allows;
  }

  /** Judging a sample by the state and judging it by the history are the same. */
  lemma JudgeIsDue(s: AlertState, last: Option<int>, h: History, e: Event)
    requires e.Heard? && InOrder(h + [e]) && Stands(s, last, h)
    ensures var (after, send) := Judge(s, last, e.at, e.above, e.duration);
            && send == Due(h + [e], |h|)
            && Stands(after, if send then Some(e.at) else last, h + [e])
  {
    var g := h + [e];
    assert g[..|h|] == h;
    if e.above {
      DueIff(h, e);
      FirstOfRun(h, e);
      LongerHistory(h, e);
      TriggeredAfter(h, e);
    }
  }

  lemma TriggeredAfter(h: History, e: Event)
    requires IsAbove(e)
    ensures Triggered(h + [e]) <==> Triggered(h) || Due(h + [e], |h|)
  {
    var g := h + [e];
    FirstOfRun(h, e);
    LongerHistory(h, e);
    hide Due;
    if Triggered(h) {
      var j: nat :| RunStart(h, |h| - 1) <= j < |h| && Due(h, j);
      assert Due(g, j);
    }
    if Triggered(g) {
      var j: nat :| RunStart(g, |h|) <= j < |g| && Due(g, j);
      assert j < |h| ==> Due(h, j);
    }
  }

  lemma ForgottenStands(s: AlertState, last: Option<int>, h: History)
    requires Stands(s, last, h)
    ensures Stands(Fresh, last, h + [Forgotten])
  {
    assert (h + [Forgotten])[..|h|] == h;
  }

  // ---- All rules ----

  datatype World = World(states: map<int, AlertState>, cooldowns: map<int, int>)

  const EmptyWorld := World(map[], map[])

  /** The steps that hold the lock: one rule judged with one sample, or the rules replaced. */
  datatype Op =
    | JudgeRule(rule: Rule, at: int, value: real)
    | SetRules(rules: seq<Rule>)

  function StateOf(w: World, id: int): AlertState {
    if id in w.states then w.states[id] else Fresh
  }

  function LastOf(w: World, id: int): Option<int> {
    if id in w.cooldowns then Some(w.cooldowns[id]) else None
  }

  predicate Counts(rule: Rule, value: real) {
    rule.enabled && value >= 0.0
  }

  function Judged(w: World, rule: Rule, at: int, value: real): (AlertState, bool) {
    Judge(StateOf(w, rule.id), LastOf(w, rule.id), at, value >= rule.threshold, rule.duration * SECOND)
  }

  predicate Sends(w: World, op: Op) {
    op.JudgeRule? && Counts(op.rule, op.value) && Judged(w, op.rule, op.at, op.value).1
  }

  predicate HasId(rules: seq<Rule>, id: int) {
    exists i | 0 <= i < |rules| :: rules[i].id == id
  }

  function Step(w: World, op: Op): World {
    match op
    case JudgeRule(rule, at, value) =>
      if !Counts(rule, value) then w
      else
        var (after, send) := Judged(w, rule, at, value);
        World(w.states[rule.id := after], if send then w.cooldowns[rule.id := at] else w.cooldowns)
    case SetRules(rules) => w.(states := map id | id in w.states && HasId(rules, id) :: w.states[id])
  }

  function After(ops: seq<Op>): World {
    if ops == [] then EmptyWorld else Step(After(ops[..|ops| - 1]), ops[|ops| - 1])
  }

  function EventOf(op: Op, id: int): History {
    match op
    case JudgeRule(rule, at, value) =>
      if rule.id == id && rule.enabled && value >= 0.0
      then [Heard(at, value >= rule.threshold, rule.duration * 1_000_000_000)] else []
    case SetRules(rules) => if exists i | 0 <= i < |rules| :: rules[i].id == id then [] else [Forgotten]
  }

  /** What a rule id went through. */
  function HistoryOf(ops: seq<Op>, id: int): History {
    if ops == [] then [] else HistoryOf(ops[..|ops| - 1], id) + EventOf(ops[|ops| - 1], id)
  }

  ghost predicate TimesInOrder(ops: seq<Op>) {
    forall i, j :: 0 <= i < j < |ops| && ops[i].JudgeRule? && ops[j].JudgeRule? ==> ops[i].at <= ops[j].at
  }

  lemma {:induction false} HistoryInOrder(ops: seq<Op>, id: int)
    requires TimesInOrder(ops)
    ensures InOrder(HistoryOf(ops, id))
    ensures forall k :: 0 <= k < |HistoryOf(ops, id)| && HistoryOf(ops, id)[k].Heard? ==>
              exists i :: 0 <= i < |ops| && ops[i].JudgeRule? && ops[i].at == HistoryOf(ops, id)[k].at
    decreases |ops|
  {
    if ops != [] {
      var rest, h := ops[..|ops| - 1], HistoryOf(ops[..|ops| - 1], id);
      HistoryInOrder(rest, id);
      forall k | 0 <= k < |h| && h[k].Heard?
        ensures exists i :: 0 <= i < |ops| - 1 && ops[i].JudgeRule? && ops[i].at == h[k].at
      {
        var i :| 0 <= i < |rest| && rest[i].JudgeRule? && rest[i].at == h[k].at;
        assert ops[i] == rest[i];
      }
      if ops[|ops| - 1].JudgeRule? {
        assert ops[|ops| - 1].at == ops[|ops| - 1].at;
      }
    }
  }

  /** What a step makes of one id's state and last alert. */
  lemma StateAfter(w: World, op: Op, id: int)
    ensures op.JudgeRule? && op.rule.id == id && Counts(op.rule, op.value) ==>
              var (after, send) := Judged(w, op.rule, op.at, op.value);
              StateOf(Step(w, op), id) == after && LastOf(Step(w, op), id) == if send then Some(op.at) else LastOf(w, id)
    ensures op.SetRules? && !HasId(op.rules, id) ==>
              StateOf(Step(w, op), id) == Fresh && LastOf(Step(w, op), id) == LastOf(w, id)
    ensures (op.JudgeRule? && !(op.rule.id == id && Counts(op.rule, op.value))) || (op.SetRules? && HasId(op.rules, id)) ==>
              StateOf(Step(w, op), id) == StateOf(w, id) && LastOf(Step(w, op), id) == LastOf(w, id)
  {
    hide Judge;
  }

  lemma StepStands(w: World, h: History, op: Op, id: int)
    requires Stands(StateOf(w, id), LastOf(w, id), h) && InOrder(h + EventOf(op, id))
    ensures Stands(StateOf(Step(w, op), id), LastOf(Step(w, op), id), h + EventOf(op, id))
  {
    StateAfter(w, op, id);
    hide Stands, Judge, InOrder, Step, StateOf, LastOf;
    assert h + [] == h;
    match op {
      case JudgeRule(rule, at, value) =>
        if rule.id == id && Counts(rule, value) {
          JudgeIsDue(StateOf(w, id), LastOf(w, id), h, Heard(at, value >= rule.threshold, rule.duration * SECOND));
        }
      case SetRules(rules) =>
        if !HasId(rules, id) {
          ForgottenStands(StateOf(w, id), LastOf(w, id), h);
        }
    }
  }

  lemma {:induction false} WorldStands(ops: seq<Op>, id: int)
    requires TimesInOrder(ops)
    ensures Stands(StateOf(After(ops), id), LastOf(After(ops), id), HistoryOf(ops, id))
    decreases |ops|
  {
    hide Step, EventOf, InOrder;
    if ops != [] {
      var rest, op := ops[..|ops| - 1], ops[|ops| - 1];
      WorldStands(rest, id);
      HistoryInOrder(ops, id);
      hide Stands, StateOf, LastOf;
      StepStands(After(rest), HistoryOf(rest, id), op, id);
    }
  }

  /**
   A sample brings an alert if and only if one is due by the history of its rule: at
   whatever point of whatever run, rules replaced, dropped and brought back included.
   */
  lemma AlertsIff(ops: seq<Op>, rule: Rule, at: int, value: real)
    requires TimesInOrder(ops + [JudgeRule(rule, at, value)]) && rule.enabled && value >= 0.0
    ensures var h := HistoryOf(ops + [JudgeRule(rule, at, value)], rule.id);
            h != [] && h[|h| - 1] == Heard(at, value >= rule.threshold, rule.duration * 1_000_000_000)
            && (Sends(After(ops), JudgeRule(rule, at, value)) <==> Due(h, |h| - 1))
  {
    var all := ops + [JudgeRule(rule, at, value)];
    var e, h := Heard(at, value >= rule.threshold, rule.duration * SECOND), HistoryOf(ops, rule.id);
    HistorySnoc(ops, JudgeRule(rule, at, value), rule.id);
    hide Stands, InOrder, TimesInOrder, Due, After, HistoryOf, StateOf, LastOf, Judge;
    WorldStands(ops, rule.id);
    HistoryInOrder(all, rule.id);
    JudgeIsDue(StateOf(After(ops), rule.id), LastOf(After(ops), rule.id), h, e);
  }

  /** A sample of a rule that is switched off, or of no metric, is passed over. */
  lemma OtherSamplesArePassedOver(w: World, rule: Rule, at: int, value: real)
    ensures !rule.enabled || value < 0.0 ==> Step(w, JudgeRule(rule, at, value)) == w && !Sends(w, JudgeRule(rule, at, value))
  {
  }

  lemma HistorySnoc(ops: seq<Op>, op: Op, id: int)
    ensures HistoryOf(ops + [op], id) == HistoryOf(ops, id) + EventOf(op, id)
    ensures TimesInOrder(ops + [op]) ==> TimesInOrder(ops)
  {
    var all := ops + [op];
    assert all[..|ops|] == ops;
    assert forall i :: 0 <= i < |ops| ==> all[i] == ops[i];
  }

  predicate SendsAt(ops: seq<Op>, i: nat)
    requires i < |ops|
  {
    Sends(After(ops[..i]), ops[i])
  }

  /** A later cool-down entry is never older than an alert already sent. */
  lemma {:induction false} AlertIsRemembered(ops: seq<Op>, i: nat, j: nat)
    requires TimesInOrder(ops) && i < j <= |ops| && SendsAt(ops, i)
    ensures LastOf(After(ops[..j]), ops[i].rule.id).Some?
    ensures LastOf(After(ops[..j]), ops[i].rule.id).value >= ops[i].at
    decreases j
  {
    assert ops[..j][..j - 1] == ops[..j - 1];
    if i < j - 1 {
      AlertIsRemembered(ops, i, j - 1);
    }
  }

  /** Two alerts of one rule id are never less than five minutes apart. */
  lemma AlertsAreApart(ops: seq<Op>, i: nat, j: nat)
    requires TimesInOrder(ops) && i < j < |ops| && SendsAt(ops, i) && SendsAt(ops, j)
    requires ops[i].rule.id == ops[j].rule.id
    ensures ops[j].at - ops[i].at >= 300_000_000_000
  {
    AlertIsRemembered(ops, i, j);
  }

  // ---- The service ----

  datatype Alert = Alert(rule: Rule, value: real)

  /** The sample as Evaluate judges it, rule by rule. */
  function JudgeAll(rules: seq<Rule>, at: int, p: Point): seq<Op> {
    seq(|rules|, i requires 0 <= i < |rules| => JudgeRule(rules[i], at, Metric(p, rules[i].metric)))
  }

  function StepAll(w: World, ops: seq<Op>): World {
    if ops == [] then w else Step(StepAll(w, ops[..|ops| - 1]), ops[|ops| - 1])
  }

  function Sent(w: World, ops: seq<Op>): seq<Alert> {
    if ops == [] then []
    else
      var rest, op := ops[..|ops| - 1], ops[|ops| - 1];
      Sent(w, rest) + (if Sends(StepAll(w, rest), op) then [Alert(op.rule, op.value)] else [])
  }

  class Service {
    var rules: seq<Rule>
    var states: map<int, AlertState>
    var cooldowns: map<int, int>

    constructor ()
      ensures View() == EmptyWorld && rules == []
    {
      rules, states, cooldowns := [], map[], map[];
    }

    function View(): World
      reads this
    {
      World(states, cooldowns)
    }

    method SetRules(rules: seq<Rule>)
      modifies this
      ensures this.rules == rules
      ensures View() == Step(old(View()), Op.SetRules(rules))
    {
      this.rules := rules;
      var active: set<int> := {};
      var i := 0;
      while i < |rules|
        invariant 0 <= i <= |rules|
        invariant forall id :: id in active <==> HasId(rules[..i], id)
        modifies {}
      {
        assert forall id :: HasId(rules[..i + 1], id) <==> HasId(rules[..i], id) || rules[i].id == id by {
          NextId(rules, i);
        }
        active := active + {rules[i].id};
        i := i + 1;
      }
      assert rules[..i] == rules;
      assert forall id :: id in active <==> HasId(rules, id);
      ghost var before := View();
      Forget(active);
      ghost var after := Step(before, Op.SetRules(rules)).states;
      assert forall id :: id in after <==> id in states;
      assert after == states;
    }

    /** Drop the states of all ids but the active ones. */
    method Forget(active: set<int>)
      modifies this`states
      ensures forall id :: id in states <==> id in old(states) && id in active
      ensures forall id :: id in states ==> states[id] == old(states)[id]
    {
      var todo: set<int> := states.Keys;
      while todo != {}
        invariant todo <= states.Keys <= old(states).Keys
        invariant forall id :: id in states ==> states[id] == old(states)[id]
        invariant forall id :: id in old(states) && id !in todo ==> (id in states <==> id in active)
        decreases |todo|
      {
        SomeMember(todo);
        var id :| id in todo;
        if id !in active {
          states := states - {id};
        }
        todo := todo - {id};
      }
    }

    /** Evaluate, and what it sends, in the order of the rules. */
    method Evaluate(at: int, p: Point) returns (sent: seq<Alert>)
      modifies this`states, this`cooldowns
      ensures View() == StepAll(old(View()), JudgeAll(rules, at, p))
      ensures sent == Sent(old(View()), JudgeAll(rules, at, p))
    {
      hide StepAll, Sent, JudgeAll, Metric;
      sent := [];
      ghost var before, ops := View(), JudgeAll(rules, at, p);
      NothingJudged(before, rules, at, p);
      var i := 0;
      while i < |rules|
        invariant 0 <= i <= |rules| == |ops|
        invariant View() == StepAll(before, ops[..i])
        invariant sent == Sent(before, ops[..i])
      {
        var rule := rules[i];
        var value := Metric(p, rule.metric);
        OneMoreJudged(before, rules, at, p, i);
        ghost var was := View();
        i := i + 1;
        if rule.enabled && value >= 0.0 {
          var state := if rule.id in states then states[rule.id] else Fresh;
          var send := false;
          if value >= rule.threshold {
            if state.firstAbove.None? {
              state := state.(firstAbove := Some(at));
            }
            if !state.triggered && at - state.firstAbove.value >= rule.duration * SECOND
               && (rule.id !in cooldowns || at - cooldowns[rule.id] >= COOLDOWN) {
              state := state.(triggered := true);
              cooldowns := cooldowns[rule.id := at];
              send := true;
            }
          } else {
            state := Fresh;
          }
          states := states[rule.id := state];
          assert View() == Step(was, JudgeRule(rule, at, value)) && send == Sends(was, JudgeRule(rule, at, value));
          if send {
            sent := sent + [Alert(rule, value)];
          }
        }
      }
      assert ops[..i] == ops;
    }
  }

  lemma NothingJudged(w: World, rules: seq<Rule>, at: int, p: Point)
    ensures var ops := JudgeAll(rules, at, p);
            |ops| == |rules| && StepAll(w, ops[..0]) == w && Sent(w, ops[..0]) == []
  {
  }

  lemma OneMoreJudged(w: World, rules: seq<Rule>, at: int, p: Point, i: nat)
    requires i < |rules|
    ensures var ops := JudgeAll(rules, at, p);
            && |ops| == |rules| && ops[i] == JudgeRule(rules[i], at, Metric(p, rules[i].metric))
            && StepAll(w, ops[..i + 1]) == Step(StepAll(w, ops[..i]), ops[i])
            && Sent(w, ops[..i + 1])
               == Sent(w, ops[..i]) + if Sends(StepAll(w, ops[..i]), ops[i]) then [Alert(ops[i].rule, ops[i].value)] else []
  {
    hide Step, Sends, Metric;
    var ops := JudgeAll(rules, at, p);
    assert ops[..i + 1][..i] == ops[..i] && ops[..i + 1][i] == ops[i];
  }

  lemma SomeMember(s: set<int>)
    requires s != {}
    ensures exists x :: x in s
  {
    if forall x :: x !in s {
      assert false;
    }
  }

  lemma NextId(rules: seq<Rule>, i: nat)
    requires i < |rules|
    ensures forall id :: HasId(rules[..i + 1], id) <==> HasId(rules[..i], id) || rules[i].id == id
  {
    var more := rules[..i + 1];
    assert more[i] == rules[i] && forall k :: 0 <= k < i ==> more[k] == rules[..i][k];
  }
}
