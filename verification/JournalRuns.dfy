/**
 Grouping journal records into runs of a timer (internal/domain/cron/timer_manager.go).
 */
module JournalRuns {
  import opened Common

  /** A line of the journal, trimmed: empty, not a JSON object, or a record. */
  datatype Line =
    | Blank
    | Garbled
    | Record(message: string, timestamp: string, priority: string, invocation: string, invocationAlt: string)

  datatype LogLine = LogLine(time: string, message: string, priority: string)

  datatype CronRun = CronRun(invocationId: string, startedAt: string, status: string, logs: seq<LogLine>)

  /** The invocation a line belongs to; empty if to none. */
  function Id(l: Line): string {
    if !l.Record? then "" else if l.invocation != "" then l.invocation else l.invocationAlt
  }

  function PriorityName(p: string): string {
    var names := map["0" := "emerg", "1" := "alert", "2" := "crit", "3" := "err",
                     "4" := "warn", "5" := "notice", "6" := "info", "7" := "debug"];
    if p in names then names[p] else "info"
  }

  predicate Fails(m: string) {
    Contains(m, "Failed to start") || Contains(m, "Failed with result") || (Contains(m, "status=") && Contains(m, "FAILURE"))
  }

  predicate Succeeds(m: string) {
    Contains(m, "Deactivated successfully") || Contains(m, "Finished")
  }

  // ---- What the runs should be ----

  function OfRun(id: string): Line -> bool {
    (l: Line) => l.Record? && Id(l) == id
  }

  /** The ids of the lines that have one, in order. */
  function Ids(lines: seq<Line>): seq<string> {
    if lines == [] then []
    else Ids(lines[..|lines| - 1]) + (if Id(lines[|lines| - 1]) == "" then [] else [Id(lines[|lines| - 1])])
  }

  function LogOf(l: Line, format: string -> string): LogLine
    requires l.Record?
  {
    LogLine(format(l.timestamp), l.message, PriorityName(l.priority))
  }

  function LogsOf(records: seq<Line>, format: string -> string): seq<LogLine>
    requires forall i :: 0 <= i < |records| ==> records[i].Record?
  {
    seq(|records|, i requires 0 <= i < |records| => LogOf(records[i], format))
  }

  /** Failed if some record says so, else a success if some record says so. */
  function StatusOf(records: seq<Line>, otherwise: string): string
    requires forall i :: 0 <= i < |records| ==> records[i].Record?
  {
    if exists i | 0 <= i < |records| :: Fails(records[i].message) then "failed"
    else if exists i | 0 <= i < |records| :: Succeeds(records[i].message) then "success"
    else otherwise
  }

  /** The first time that can be shown. */
  function StartOf(records: seq<Line>, format: string -> string): string
    requires forall i :: 0 <= i < |records| ==> records[i].Record?
  {
    if records == [] then ""
    else if format(records[0].timestamp) != "" then format(records[0].timestamp)
    else StartOf(records[1..], format)
  }

  /** The records of one invocation. */
  function Records(lines: seq<Line>, id: string): (r: seq<Line>)
    ensures forall i :: 0 <= i < |r| ==> r[i].Record? && Id(r[i]) == id
  {
    FilterMembers(lines, OfRun(id));
    var r := Filter(lines, OfRun(id));
    assert forall i :: 0 <= i < |r| ==> r[i] in r;
    r
  }

  function RunOf(id: string, lines: seq<Line>, format: string -> string, otherwise: string): CronRun {
    var r := Records(lines, id);
    CronRun(id, StartOf(r, format), StatusOf(r, otherwise), LogsOf(r, format))
  }

  function Grouped(ids: seq<string>, lines: seq<Line>, format: string -> string, otherwise: string): seq<CronRun> {
    seq(|ids|, i requires 0 <= i < |ids| => RunOf(ids[i], lines, format, otherwise))
  }

  /** One run per invocation, in the order of first appearance. */
  function RunsOf(lines: seq<Line>, format: string -> string, otherwise: string): seq<CronRun> {
    Grouped(Firsts(Ids(lines)), lines, format, otherwise)
  }

  function Reversed<T>(s: seq<T>): seq<T> {
    seq(|s|, i requires 0 <= i < |s| => s[|s| - 1 - i])
  }

  // ---- What that means for a reader ----

  lemma {:induction false} IdsAreThere(lines: seq<Line>, id: string)
    ensures id in Ids(lines) <==> id != "" && exists i :: 0 <= i < |lines| && Id(lines[i]) == id
  {
    if lines != [] {
      var n := |lines| - 1;
      IdsAreThere(lines[..n], id);
      assert forall i :: 0 <= i < n ==> lines[..n][i] == lines[i];
      if id in Ids(lines[..n]) {
        var i :| 0 <= i < n && Id(lines[..n][i]) == id;
        assert Id(lines[i]) == id;
      }
    }
  }

  lemma RecordMember(lines: seq<Line>, l: Line)
    requires l in lines && l.Record?
    ensures l in Records(lines, Id(l))
  {
    FilterMembers(lines, OfRun(Id(l)));
  }

  /** Every record with an invocation is in the log of exactly one run, that of its invocation. */
  lemma EveryRecordIsInItsRun(lines: seq<Line>, format: string -> string, l: Line)
    requires l in lines && Id(l) != ""
    ensures var runs := RunsOf(lines, format, "running");
            exists i: nat :: i < |runs| && runs[i].invocationId == Id(l) && LogOf(l, format) in runs[i].logs
              && forall j: nat :: j < |runs| && runs[j].invocationId == Id(l) ==> j == i
  {
    var ids, runs, records := Firsts(Ids(lines)), RunsOf(lines, format, "running"), Records(lines, Id(l));
    IdsAreThere(lines, Id(l));
    FirstsKeepAll(Ids(lines));
    RecordMember(lines, l);
    hide Firsts, Records, StatusOf, StartOf, Ids;
    var i: nat :| i < |ids| && ids[i] == Id(l);
    var at :| 0 <= at < |records| && records[at] == l;
    assert runs[i].logs[at] == LogOf(l, format);
    forall j: nat | j < |runs| && runs[j].invocationId == Id(l) ensures j == i {
      assert ids[j] == ids[i];
    }
  }

  /** The line tells of the invocation: by its process, or else by systemd's own word. */
  predicate TellsOf(l: Line, id: string) {
    l.Record? && id != "" && id == if l.invocation != "" then l.invocation else l.invocationAlt
  }

  lemma RecordsTell(lines: seq<Line>, id: string)
    requires id != ""
    ensures forall l :: l in Records(lines, id) <==> l in lines && TellsOf(l, id)
  {
    FilterMembers(lines, OfRun(id));
  }

  /** A run has failed if one of its records says so, else succeeded if one says so, else it is running. */
  lemma StatusMeans(lines: seq<Line>, id: string, format: string -> string)
    requires id != ""
    ensures var failed := exists l :: l in lines && TellsOf(l, id) &&
                            (Contains(l.message, "Failed to start") || Contains(l.message, "Failed with result")
                             || (Contains(l.message, "status=") && Contains(l.message, "FAILURE")));
            var succeeded := exists l :: l in lines && TellsOf(l, id) &&
                               (Contains(l.message, "Deactivated successfully") || Contains(l.message, "Finished"));
            RunOf(id, lines, format, "running").status == if failed then "failed" else if succeeded then "success" else "running"
  {
    RecordsTell(lines, id);
    var r := Records(lines, id);
    assert forall i :: 0 <= i < |r| ==> r[i] in r;
    hide Records, StartOf, LogsOf, TellsOf, Contains;
    if l :| l in r && Fails(l.message) {
      var i :| 0 <= i < |r| && r[i] == l;
      assert Fails(r[i].message);
    }
    if l :| l in r && Succeeds(l.message) {
      var i :| 0 <= i < |r| && r[i] == l;
      assert Succeeds(r[i].message);
    }
  }

  /** It began at the first time that can be shown. */
  lemma {:induction false} StartMeans(records: seq<Line>, format: string -> string)
    requires forall i :: 0 <= i < |records| ==> records[i].Record?
    ensures var start := StartOf(records, format);
            if start == "" then forall i :: 0 <= i < |records| ==> format(records[i].timestamp) == ""
            else exists i :: 0 <= i < |records| && format(records[i].timestamp) == start
                   && forall k :: 0 <= k < i ==> format(records[k].timestamp) == ""
  {
    if records != [] && format(records[0].timestamp) == "" {
      var rest := records[1..];
      StartMeans(rest, format);
      assert forall k :: 0 < k < |records| ==> records[k] == rest[k - 1];
      if StartOf(rest, format) != "" {
        var i :| 0 <= i < |rest| && format(rest[i].timestamp) == StartOf(rest, format)
                 && forall k :: 0 <= k < i ==> format(rest[k].timestamp) == "";
        assert records[i + 1] == rest[i];
      }
    }
  }

  /** The log has a line for each record, with its time, its text and the name of its priority. */
  lemma LogMeans(lines: seq<Line>, id: string, format: string -> string, i: nat)
    requires id != "" && i < |Records(lines, id)|
    ensures var logs, l := RunOf(id, lines, format, "running").logs, Records(lines, id)[i];
            && |logs| == |Records(lines, id)| && logs[i].time == format(l.timestamp) && logs[i].message == l.message
            && logs[i].priority == (match l.priority
                                    case "0" => "emerg" case "1" => "alert" case "2" => "crit" case "3" => "err"
                                    case "4" => "warn" case "5" => "notice" case "7" => "debug" case _ => "info")
  {
    hide Records, StartOf, StatusOf;
  }

  /** Newest first: the run listed earlier starts after the other one has started. */
  lemma NewestFirst(lines: seq<Line>, format: string -> string, i: nat, j: nat)
    requires i < j < |Reversed(RunsOf(lines, format, "running"))|
    ensures var runs := Reversed(RunsOf(lines, format, "running"));
            exists p: nat :: p < |Ids(lines)| && Ids(lines)[p] == runs[j].invocationId
              && runs[i].invocationId !in Ids(lines)[..p + 1]
  {
    hide Ids, Firsts, Records, StatusOf, StartOf, LogsOf;
    var ids, runs := Firsts(Ids(lines)), Reversed(RunsOf(lines, format, "running"));
    var n := |ids|;
    FirstsInOrder(Ids(lines), n - 1 - j, n - 1 - i);
    assert runs[j].invocationId == ids[n - 1 - j] && runs[i].invocationId == ids[n - 1 - i];
  }

  // ---- The parser ----

  lemma {:induction false} StartSnoc(records: seq<Line>, l: Line, format: string -> string)
    requires l.Record? && forall i :: 0 <= i < |records| ==> records[i].Record?
    ensures StartOf(records + [l], format)
         == if StartOf(records, format) == "" then format(l.timestamp) else StartOf(records, format)
  {
    if records != [] {
      assert (records + [l])[1..] == records[1..] + [l];
      StartSnoc(records[1..], l, format);
    } else {
      assert (records + [l])[1..] == [];
    }
  }

  lemma StatusSnoc(records: seq<Line>, l: Line)
    requires l.Record? && forall i :: 0 <= i < |records| ==> records[i].Record?
    ensures StatusOf(records + [l], "")
         == if Fails(l.message) then "failed"
            else if StatusOf(records, "") != "failed" && Succeeds(l.message) then "success"
            else StatusOf(records, "")
  {
    hide Fails, Succeeds;
    var more := records + [l];
    assert more[|records|] == l && forall i :: 0 <= i < |records| ==> more[i] == records[i];
    if exists i | 0 <= i < |records| :: Fails(records[i].message) {
      var i :| 0 <= i < |records| && Fails(records[i].message);
      assert Fails(more[i].message);
    } else if exists i | 0 <= i < |records| :: Succeeds(records[i].message) {
      var i :| 0 <= i < |records| && Succeeds(records[i].message);
      assert Succeeds(more[i].message);
    }
  }

  /** A run with one more record. */
  function Extended(run: CronRun, l: Line, format: string -> string): CronRun
    requires l.Record?
  {
    CronRun(run.invocationId,
            if run.startedAt == "" then format(l.timestamp) else run.startedAt,
            if Fails(l.message) then "failed"
            else if run.status != "failed" && Succeeds(l.message) then "success"
            else run.status,
            run.logs + [LogOf(l, format)])
  }

  lemma RecordsSnoc(lines: seq<Line>, l: Line, id: string)
    requires id != ""
    ensures Records(lines + [l], id) == if Id(l) == id then Records(lines, id) + [l] else Records(lines, id)
  {
    FilterAppend(lines, [l], OfRun(id));
    assert [l][1..] == [];
  }

  lemma RunSnoc(id: string, lines: seq<Line>, l: Line, format: string -> string)
    requires id != ""
    ensures RunOf(id, lines + [l], format, "")
         == if Id(l) == id then Extended(RunOf(id, lines, format, ""), l, format) else RunOf(id, lines, format, "")
  {
    RecordsSnoc(lines, l, id);
    hide Fails, Succeeds, Records, StartOf, StatusOf;
    if Id(l) == id {
      StartSnoc(Records(lines, id), l, format);
      StatusSnoc(Records(lines, id), l);
    }
  }

  lemma FirstRecordOf(id: string, lines: seq<Line>, format: string -> string)
    requires id != "" && id !in Ids(lines)
    ensures RunOf(id, lines, format, "") == CronRun(id, "", "", [])
  {
    forall i | 0 <= i < |lines| ensures !OfRun(id)(lines[i]) {
      IdsAreThere(lines, id);
    }
    FilterNone(lines, OfRun(id));
  }

  lemma IdsSnoc(lines: seq<Line>, l: Line)
    ensures Ids(lines + [l]) == if Id(l) == "" then Ids(lines) else Ids(lines) + [Id(l)]
    ensures "" !in Ids(lines)
  {
    assert (lines + [l])[..|lines|] == lines;
    IdsAreThere(lines, "");
  }

  /** One more line extends the run of its invocation and leaves the other runs alone. */
  lemma GroupedSnoc(ids: seq<string>, lines: seq<Line>, l: Line, format: string -> string, i: nat)
    requires "" !in ids && i < |ids|
    ensures Grouped(ids, lines + [l], format, "")[i]
         == if Id(l) == ids[i] then Extended(Grouped(ids, lines, format, "")[i], l, format)
            else Grouped(ids, lines, format, "")[i]
  {
    assert ids[i] in ids;
    hide RunOf, Extended;
    RunSnoc(ids[i], lines, l, format);
  }

  lemma WithoutId(lines: seq<Line>, l: Line, format: string -> string)
    requires Id(l) == ""
    ensures Ids(lines + [l]) == Ids(lines) && RunsOf(lines + [l], format, "") == RunsOf(lines, format, "")
  {
    IdsSnoc(lines, l);
    FirstsKeepAll(Ids(lines));
    var ids := Firsts(Ids(lines));
    hide Ids, Firsts, RunOf;
    forall i: nat | i < |ids| ensures RunsOf(lines + [l], format, "")[i] == RunsOf(lines, format, "")[i] {
      GroupedSnoc(ids, lines, l, format, i);
      assert ids[i] in ids;
    }
  }

  lemma KnownId(lines: seq<Line>, l: Line, format: string -> string, i: nat)
    requires Id(l) != "" && i < |Firsts(Ids(lines))| && Firsts(Ids(lines))[i] == Id(l)
    ensures Firsts(Ids(lines + [l])) == Firsts(Ids(lines))
    ensures var runs := RunsOf(lines, format, "");
            RunsOf(lines + [l], format, "") == runs[i := Extended(runs[i], l, format)]
  {
    IdsSnoc(lines, l);
    FirstsStep(Ids(lines), Id(l));
    FirstsKeepAll(Ids(lines));
    var ids := Firsts(Ids(lines));
    hide Ids, Firsts, RunOf, Extended;
    assert ids[i] in ids;
    var runs := RunsOf(lines, format, "");
    forall k: nat | k < |ids| ensures RunsOf(lines + [l], format, "")[k] == runs[i := Extended(runs[i], l, format)][k] {
      GroupedSnoc(ids, lines, l, format, k);
    }
  }

  lemma NewId(lines: seq<Line>, l: Line, format: string -> string)
    requires Id(l) != "" && Id(l) !in Firsts(Ids(lines))
    ensures Firsts(Ids(lines + [l])) == Firsts(Ids(lines)) + [Id(l)]
    ensures RunsOf(lines + [l], format, "")
         == RunsOf(lines, format, "") + [Extended(CronRun(Id(l), "", "", []), l, format)]
  {
    IdsSnoc(lines, l);
    FirstsStep(Ids(lines), Id(l));
    FirstsKeepAll(Ids(lines));
    var ids := Firsts(Ids(lines));
    FirstRecordOf(Id(l), lines, format);
    RunSnoc(Id(l), lines, l, format);
    hide Ids, Firsts, RunOf, Extended;
    var runs := RunsOf(lines, format, "") + [Extended(CronRun(Id(l), "", "", []), l, format)];
    forall k: nat | k < |ids| + 1 ensures RunsOf(lines + [l], format, "")[k] == runs[k] {
      if k < |ids| {
        GroupedSnoc(ids, lines, l, format, k);
        assert ids[k] in ids;
      }
    }
  }

  function Marked(run: CronRun): CronRun {
    if run.status == "" then run.(status := "running") else run
  }

  lemma UnmarkedAreRunning(lines: seq<Line>, format: string -> string, marked: seq<CronRun>)
    requires |marked| == |RunsOf(lines, format, "")|
    requires forall i :: 0 <= i < |marked| ==> marked[i] == Marked(RunsOf(lines, format, "")[i])
    ensures marked == RunsOf(lines, format, "running")
  {
    hide Fails, Succeeds, Records, Firsts, Ids;
  }

  lemma NoRuns(format: string -> string)
    ensures RunsOf([], format, "") == [] && Indexes(map[], Firsts(Ids([])))
  {
  }

  /** parseJournalRuns: newest run first, and each run's log oldest line first. */
  method ParseJournalRuns(lines: seq<Line>, format: string -> string) returns (runs: seq<CronRun>)
    ensures runs == Reversed(RunsOf(lines, format, "running"))
  {
    hide RunsOf;
    runs := GroupAll(lines, format);
    runs := MarkRunning(runs);
    UnmarkedAreRunning(lines, format, runs);
    runs := Reverse(runs);
  }

  method GroupAll(lines: seq<Line>, format: string -> string) returns (runs: seq<CronRun>)
    ensures runs == RunsOf(lines, format, "")
  {
    hide *;
    var idx: map<string, nat> := map[];
    runs := [];
    NoRuns(format);
    var n := 0;
    ghost var done: seq<Line> := [];
    while n < |lines|
      invariant 0 <= n <= |lines| && done == lines[..n]
      invariant runs == RunsOf(done, format, "") && Indexes(idx, Firsts(Ids(done)))
    {
      runs, idx := Group(done, lines[n], format, runs, idx);
      done := done + [lines[n]];
      n := n + 1;
    }
    assert done == lines;
  }

  ghost predicate Indexes(idx: map<string, nat>, ids: seq<string>) {
    && (forall i: nat :: i < |ids| ==> ids[i] in idx && idx[ids[i]] == i)
    && (forall id :: id in idx ==> id in ids)
  }

  /** The body of the loop. */
  method Group(ghost done: seq<Line>, e: Line, format: string -> string, runs: seq<CronRun>, idx: map<string, nat>)
    returns (more: seq<CronRun>, index: map<string, nat>)
    requires runs == RunsOf(done, format, "") && Indexes(idx, Firsts(Ids(done)))
    ensures more == RunsOf(done + [e], format, "") && Indexes(index, Firsts(Ids(done + [e])))
  {
    hide Fails, Succeeds, Extended, RunOf, Ids, Firsts;
    more, index := runs, idx;
    if !e.Record? {
      WithoutId(done, e, format);
      return;
    }
    var inv := e.invocation;
    if inv == "" {
      inv := e.invocationAlt;
    }
    if inv == "" {
      WithoutId(done, e, format);
      return;
    }
    if inv !in index {
      NewId(done, e, format);
      index := index[inv := |more|];
      more := more + [CronRun(inv, "", "", [])];
    } else {
      KnownId(done, e, format, index[inv]);
    }
    var i := index[inv];
    var run := Add(more[i], e, format);
    more := more[i := run];
  }

  method Add(run: CronRun, e: Line, format: string -> string) returns (r: CronRun)
    requires e.Record?
    ensures r == Extended(run, e, format)
  {
    r := run;
    if Fails(e.message) {
      r := r.(status := "failed");
    } else if r.status != "failed" && Succeeds(e.message) {
      r := r.(status := "success");
    }
    if r.startedAt == "" {
      r := r.(startedAt := format(e.timestamp));
    }
    r := r.(logs := r.logs + [LogLine(format(e.timestamp), e.message, PriorityName(e.priority))]);
  }

  method MarkRunning(all: seq<CronRun>) returns (runs: seq<CronRun>)
    ensures |runs| == |all|
    ensures forall i :: 0 <= i < |runs| ==> runs[i] == Marked(all[i])
  {
    runs := all;
    var i := 0;
    while i < |runs|
      invariant 0 <= i <= |runs| == |all|
      invariant forall k :: 0 <= k < i ==> runs[k] == Marked(all[k])
      invariant forall k :: i <= k < |runs| ==> runs[k] == all[k]
    {
      if runs[i].status == "" {
        runs := runs[i := runs[i].(status := "running")];
      }
      i := i + 1;
    }
  }

  /** Reverse by swapping the ends. */
  method Reverse<T>(s: seq<T>) returns (r: seq<T>)
    ensures r == Reversed(s)
  {
    r := s;
    var i, j := 0, |s| - 1;
    while i < j
      invariant |r| == |s| && 0 <= i <= |s| && j == |s| - 1 - i
      invariant forall k :: 0 <= k < i || j < k < |s| ==> r[k] == s[|s| - 1 - k]
      invariant forall k :: i <= k <= j ==> r[k] == s[k]
      decreases j - i
    {
      r := r[i := r[j]][j := r[i]];
      i, j := i + 1, j - 1;
    }
  }
}
