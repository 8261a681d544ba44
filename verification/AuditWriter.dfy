/**
 The batching audit writer (internal/domain/audit/service.go): a bounded channel, one
 consumer that collects batches, and a shutdown that drains the channel.

 The machine below interleaves the consumer's steps with enqueuing and closing in any
 order; the class carries them out on the reused batch buffer.
 */
module AuditWriter {
  import opened Common

  const CHANNEL_SIZE := 1000
  const BATCH_SIZE := 100

  datatype Entry = Entry(userId: int, username: string, action: string, resource: string, detail: string,
                         ip: string, userAgent: string, createdAt: int, logType: string)

  datatype AuditLog = AuditLog(userId: int, username: string, action: string, resource: string, detail: string,
                               ip: string, userAgent: string, kind: string, createdAt: int)

  function ToLog(e: Entry): AuditLog {
    AuditLog(e.userId, e.username, e.action, e.resource, e.detail, e.ip, e.userAgent, e.logType, e.createdAt)
  }

  function Logs(entries: seq<Entry>): seq<AuditLog> {
    seq(|entries|, i requires 0 <= i < |entries| => ToLog(entries[i]))
  }

  // ---- The machine ----

  /** Where the consumer is: at its select, about to flush, draining, about to flush the rest, gone. */
  datatype Pc = Waiting | Flushing | Draining | LastFlush | Finished

  datatype State = State(accepted: seq<Entry>, ch: seq<Entry>, batch: seq<Entry>, flushed: seq<seq<Entry>>,
                         pc: Pc, closedAt: Option<nat>, returned: bool)

  const Start := State([], [], [], [], Waiting, None, false)

  datatype Act = Enqueue(entry: Entry) | Receive | Tick | Flush | SeeDone | Drain | DrainEnd | Close | CloseReturns

  predicate Enabled(s: State, a: Act) {
    match a
    case Enqueue(_) => true
    case Receive => s.pc.Waiting? && s.ch != []
    case Tick => s.pc.Waiting?
    case Flush => s.pc.Flushing? || s.pc.LastFlush?
    case SeeDone => s.pc.Waiting? && s.closedAt.Some?
    case Drain => s.pc.Draining? && s.ch != []
    case DrainEnd => s.pc.Draining? && s.ch == []
    case Close => s.closedAt.None?
    case CloseReturns => s.pc.Finished? && s.closedAt.Some?
  }

  function Step(s: State, a: Act): State
    requires Enabled(s, a)
  {
    match a
    case Enqueue(entry) =>
      if |s.ch| < CHANNEL_SIZE then s.(accepted := s.accepted + [entry], ch := s.ch + [entry]) else s
    case Receive =>
      s.(ch := s.ch[1..], batch := s.batch + [s.ch[0]],
         pc := if |s.batch| + 1 >= BATCH_SIZE then Flushing else Waiting)
    case Tick => if s.batch != [] then s.(pc := Flushing) else s
    case Flush =>
      s.(flushed := s.flushed + [s.batch], batch := [], pc := if s.pc.Flushing? then Waiting else Finished)
    case SeeDone => s.(pc := Draining)
    case Drain => s.(ch := s.ch[1..], batch := s.batch + [s.ch[0]])
    case DrainEnd => s.(pc := if s.batch != [] then LastFlush else Finished)
    case Close => s.(closedAt := Some(|s.accepted|))
    case CloseReturns => s.(returned := true)
  }

  /** The state after the given steps; a step that is not possible when its turn comes is passed over. */
  function After(acts: seq<Act>): State {
    if acts == [] then Start
    else
      var before, a := After(acts[..|acts| - 1]), acts[|acts| - 1];
      if Enabled(before, a) then Step(before, a) else before
  }

  ghost predicate Inv(s: State) {
    && Concat(s.flushed) + s.batch + s.ch == s.accepted
    && |s.ch| <= CHANNEL_SIZE
    && (s.pc.Waiting? ==> |s.batch| < BATCH_SIZE)
    && (s.pc.Flushing? ==> 0 < |s.batch| <= BATCH_SIZE)
    && (s.pc.LastFlush? ==> s.batch != [])
    && (s.pc.Finished? ==> s.batch == [])
    && (s.closedAt.Some? ==> s.closedAt.value <= |s.accepted|)
    && (s.pc.Draining? || s.pc.LastFlush? || s.pc.Finished? ==> s.closedAt.Some?)
    && (s.pc.LastFlush? || s.pc.Finished? ==> s.closedAt.value <= |Concat(s.flushed)| + |s.batch|)
    && (s.returned ==> s.pc.Finished?)
    && (forall i :: 0 <= i < |s.flushed| ==> s.flushed[i] != [])
    && (forall i :: 0 <= i < |s.flushed| - (if s.pc.Finished? then 1 else 0) ==> |s.flushed[i]| <= BATCH_SIZE)
  }

  lemma Regroup(flushed: seq<Entry>, batch: seq<Entry>, ch: seq<Entry>)
    requires ch != []
    ensures flushed + (batch + [ch[0]]) + ch[1..] == flushed + batch + ch
  {
  }

  lemma StepKeepsInv(s: State, a: Act)
    requires Inv(s) && Enabled(s, a)
    ensures Inv(Step(s, a))
  {
    hide Concat;
    match a {
      case Enqueue(entry) =>
        assert Concat(s.flushed) + s.batch + (s.ch + [entry]) == Concat(s.flushed) + s.batch + s.ch + [entry];
      case Receive => Regroup(Concat(s.flushed), s.batch, s.ch);
      case Drain => Regroup(Concat(s.flushed), s.batch, s.ch);
      case Flush =>
        ConcatSnoc(s.flushed, s.batch);
        assert Concat(s.flushed) + s.batch + [] + s.ch == s.accepted;
      case Tick =>
      case SeeDone =>
      case DrainEnd =>
      case Close =>
      case CloseReturns =>
    }
  }

  lemma {:induction false} RunsKeepInv(acts: seq<Act>)
    ensures Inv(After(acts))
    decreases |acts|
  {
    if acts != [] {
      var before := After(acts[..|acts| - 1]);
      hide Inv, Step, Enabled;
      RunsKeepInv(acts[..|acts| - 1]);
      if Enabled(before, acts[|acts| - 1]) {
        StepKeepsInv(before, acts[|acts| - 1]);
      }
    } else {
      assert Inv(Start);
    }
  }

  /** No accepted entry is lost, doubled or overtaken, wherever a run stands. */
  lemma NothingLost(acts: seq<Act>)
    ensures var s := After(acts); Concat(s.flushed) + s.batch + s.ch == s.accepted && |s.ch| <= 1000
  {
    RunsKeepInv(acts);
  }

  /** An entry is dropped if and only if a thousand are waiting. */
  lemma DroppedIff(acts: seq<Act>, entry: Entry)
    ensures var s, t := After(acts), After(acts + [Enqueue(entry)]);
            t == if |s.ch| >= 1000 then s else s.(accepted := s.accepted + [entry], ch := s.ch + [entry])
  {
    AfterSnoc(acts, Enqueue(entry));
  }

  /** A batch is flushed at once when it has a hundred entries, and no sooner unless the timer fires. */
  lemma FullBatchesGoAtOnce(acts: seq<Act>)
    requires Enabled(After(acts), Receive)
    ensures var s, t := After(acts), After(acts + [Receive]);
            && s.ch != [] && t.ch == s.ch[1..] && t.batch == s.batch + [s.ch[0]] && |t.batch| <= 100
            && t.pc == (if |t.batch| == 100 then Flushing else Waiting)
  {
    AfterSnoc(acts, Receive);
    RunsKeepInv(acts);
    hide After, Concat;
  }

  /** What keeps the consumer busy. */
  function Load(s: State): nat {
    4 * |s.ch| + (if s.batch == [] then 0 else if s.pc.Flushing? then 2 else 3)
  }

  /**
   Left alone, the consumer writes everything accepted: what fills a batch at once, the
   rest when the timer fires.
   */
  lemma {:induction false} EverythingGetsWritten(acts: seq<Act>) returns (more: seq<Act>)
    requires After(acts).pc.Waiting? || After(acts).pc.Flushing?
    ensures forall i :: 0 <= i < |more| ==> more[i] in {Receive, Tick, Flush}
    ensures var s := After(acts + more);
            s.ch == [] && s.batch == [] && s.accepted == After(acts).accepted && Concat(s.flushed) == s.accepted
    decreases Load(After(acts))
  {
    RunsKeepInv(acts);
    var s := After(acts);
    more := [];
    if s.pc.Waiting? && s.ch == [] && s.batch == [] {
      hide Concat;
      assert acts + more == acts && Concat(s.flushed) + [] + [] == Concat(s.flushed);
    } else {
      var a := if s.pc.Flushing? then Flush else if s.ch != [] then Receive else Tick;
      AfterSnoc(acts, a);
      hide After, Concat;
      var rest := EverythingGetsWritten(acts + [a]);
      more := [a] + rest;
      assert acts + more == acts + [a] + rest;
    }
  }

  /** Batches hold 1 to 100 entries, save that the one flushed by the shutdown may be larger. */
  lemma BatchSizes(acts: seq<Act>)
    ensures var s := After(acts);
            && (forall i :: 0 <= i < |s.flushed| ==> 1 <= |s.flushed[i]|)
            && (forall i :: 0 <= i < |s.flushed| ==>
                  |s.flushed[i]| <= 100 || (i == |s.flushed| - 1 && s.pc.Finished?))
  {
    RunsKeepInv(acts);
    hide After;
  }

  ghost predicate IsPrefix<T>(a: seq<T>, b: seq<T>) {
    |a| <= |b| && a == b[..|a|]
  }

  lemma AfterSnoc(acts: seq<Act>, a: Act)
    ensures After(acts + [a]) == if Enabled(After(acts), a) then Step(After(acts), a) else After(acts)
  {
    assert (acts + [a])[..|acts|] == acts;
  }

  /** One step takes nothing accepted back, and close is called once. */
  lemma StepOnlyAdds(s: State, a: Act)
    requires Enabled(s, a)
    ensures IsPrefix(s.accepted, Step(s, a).accepted)
    ensures s.closedAt.Some? ==> Step(s, a).closedAt == s.closedAt
  {
  }

  /** So over a run: what was accepted stays accepted, and the moment close was called is kept. */
  lemma {:induction false} AcceptedOnlyGrows(acts: seq<Act>, later: seq<Act>)
    ensures IsPrefix(After(acts).accepted, After(acts + later).accepted)
    ensures After(acts).closedAt.Some? ==> After(acts + later).closedAt == After(acts).closedAt
    decreases |later|
  {
    if later == [] {
      assert acts + later == acts;
    } else {
      var rest, a := later[..|later| - 1], later[|later| - 1];
      assert acts + later == acts + rest + [a];
      AfterSnoc(acts + rest, a);
      hide After, Step, Enabled;
      AcceptedOnlyGrows(acts, rest);
      if Enabled(After(acts + rest), a) {
        StepOnlyAdds(After(acts + rest), a);
      }
    }
  }

  /**
   Once close has returned, everything accepted before it was called has been handed
   over, in order: `acts` is the run up to the call, `later` what came after it.
   */
  lemma ClosedMeansWritten(acts: seq<Act>, later: seq<Act>)
    requires After(acts).closedAt.None? && After(acts + [Close] + later).returned
    ensures IsPrefix(After(acts).accepted, Concat(After(acts + [Close] + later).flushed))
  {
    AfterSnoc(acts, Close);
    AcceptedOnlyGrows(acts, [Close] + later);
    assert acts + ([Close] + later) == acts + [Close] + later;
    AcceptedOnlyGrows(acts + [Close], later);
    RunsKeepInv(acts + [Close] + later);
    hide Concat, After;
    var s := After(acts + [Close] + later);
    assert Concat(s.flushed) + [] + s.ch == s.accepted;
  }

  /** A run in which close has returned contains the call. */
  lemma {:induction false} ReturnedWasCalled(acts: seq<Act>)
    requires After(acts).closedAt.Some?
    ensures exists n :: 0 <= n < |acts| && acts[n] == Close && After(acts[..n]).closedAt.None?
    decreases |acts|
  {
    var n := |acts| - 1;
    if After(acts[..n]).closedAt.Some? {
      ReturnedWasCalled(acts[..n]);
      var k :| 0 <= k < n && acts[..n][k] == Close && After(acts[..n][..k]).closedAt.None?;
      assert acts[..n][..k] == acts[..k] && acts[k] == Close;
    } else {
      assert acts[n] == Close;
    }
  }

  /** What is left for the consumer to do after close was called. */
  function ToDo(s: State): nat {
    match s.pc
    case Flushing => |s.ch| + 4
    case Waiting => |s.ch| + 3
    case Draining => |s.ch| + 2
    case LastFlush => 1
    case Finished => 0
  }

  /** The step the consumer takes once it has seen that close was called. */
  function Next(s: State): Act
    requires s.closedAt.Some? && !s.pc.Finished?
    ensures Enabled(s, Next(s))
  {
    match s.pc
    case Flushing => Flush
    case LastFlush => Flush
    case Waiting => SeeDone
    case Draining => if s.ch != [] then Drain else DrainEnd
  }

  function Finish(s: State): State
    requires s.closedAt.Some?
    decreases ToDo(s)
  {
    if s.pc.Finished? then s else Finish(Step(s, Next(s)))
  }

  /**
   Close does not wait for ever: left alone, the consumer finishes; and unless it had
   already taken its last look at the channel, it has written everything accepted.
   */
  lemma {:induction false} CloseEnds(s: State)
    requires Inv(s) && s.closedAt.Some?
    ensures Finish(s).pc.Finished? && Inv(Finish(s))
    ensures (s.pc.LastFlush? || s.pc.Finished? ==> s.ch == []) ==> Concat(Finish(s).flushed) == s.accepted
    decreases ToDo(s)
  {
    if s.pc.Finished? {
      hide Concat;
      assert s.ch == [] ==> Concat(s.flushed) + [] + [] == s.accepted;
    } else {
      StepKeepsInv(s, Next(s));
      hide Concat;
      CloseEnds(Step(s, Next(s)));
    }
  }

  // ---- The writer ----

  class Writer {
    var ch: seq<Entry>
    var batch: array<Entry>
    var len: nat
    var written: seq<seq<AuditLog>> // the batches AppendBatch was called with
    var pc: Pc
    ghost var accepted: seq<Entry>
    ghost var flushed: seq<seq<Entry>>
    ghost var closedAt: Option<nat>
    var closed: bool
    var returned: bool

    constructor (blank: Entry)
      ensures Valid() && View() == Start && fresh(batch)
    {
      ch, len, written, pc, closed, returned := [], 0, [], Waiting, false, false;
      batch := new Entry[BATCH_SIZE](i => blank);
      accepted, flushed, closedAt := [], [], None;
    }

    ghost predicate Valid()
      reads this, batch
    {
      && len <= batch.Length && batch.Length >= BATCH_SIZE
      && |written| == |flushed| && (forall i :: 0 <= i < |written| ==> written[i] == Logs(flushed[i]))
      && (closed <==> closedAt.Some?)
      && Inv(View())
    }

    ghost function View(): State
      reads this, batch
      requires len <= batch.Length
    {
      State(accepted, ch, batch[..len], flushed, pc, closedAt, returned)
    }

    /** enqueue: a full channel drops the entry. */
    method Enqueue(entry: Entry)
      requires Valid()
      modifies this`ch, this`accepted
      ensures Valid() && View() == Step(old(View()), Act.Enqueue(entry))
    {
      StepKeepsInv(View(), Act.Enqueue(entry));
      hide Inv;
      if |ch| < CHANNEL_SIZE {
        ch := ch + [entry];
        accepted := accepted + [entry];
      }
    }

    /** append: the storage is reused, and replaced when it is full. */
    method Append(entry: Entry)
      requires len <= batch.Length
      modifies this`batch, this`len, batch
      ensures batch == old(batch) || fresh(batch)
      ensures len == old(len) + 1 <= batch.Length && batch.Length >= old(batch.Length)
      ensures batch[..len] == old(batch[..len]) + [entry]
    {
      if len == batch.Length {
        var larger := new Entry[2 * len + 1](i requires 0 <= i reads this, batch =>
          if i < batch.Length then batch[i] else entry);
        batch := larger;
      }
      batch[len] := entry;
      len := len + 1;
    }

    /** The consumer takes an entry; a full batch is to be flushed. */
    method OnEntry()
      requires Valid() && Enabled(View(), Receive)
      modifies this, batch
      ensures batch == old(batch) || fresh(batch)
      ensures Valid() && View() == Step(old(View()), Receive)
    {
      StepKeepsInv(View(), Receive);
      hide Inv;
      var entry := ch[0];
      ch := ch[1..];
      Append(entry);
      if len >= BATCH_SIZE {
        pc := Flushing;
      }
    }

    method OnTimer()
      requires Valid() && Enabled(View(), Tick)
      modifies this`pc
      ensures Valid() && View() == Step(old(View()), Tick)
    {
      StepKeepsInv(View(), Tick);
      hide Inv;
      if len > 0 {
        pc := Flushing;
      }
    }

    /** flush: the entries are copied out before the storage is truncated. */
    method OnFlush()
      requires Valid() && Enabled(View(), Flush)
      modifies this`written, this`flushed, this`len, this`pc
      ensures Valid() && View() == Step(old(View()), Flush)
      ensures written == old(written) + [Logs(old(View().batch))]
    {
      StepKeepsInv(View(), Flush);
      assert len > 0;
      hide Inv;
      var logs := CopyOut();
      written := written + [logs];
      flushed := flushed + [batch[..len]];
      len := 0;
      pc := if pc.Flushing? then Waiting else Finished;
    }

    method CopyOut() returns (logs: seq<AuditLog>)
      requires 0 < len <= batch.Length
      ensures logs == Logs(batch[..len])
      ensures forall i :: 0 <= i < len ==>
                && logs[i].userId == batch[i].userId && logs[i].username == batch[i].username
                && logs[i].action == batch[i].action && logs[i].resource == batch[i].resource
                && logs[i].detail == batch[i].detail && logs[i].ip == batch[i].ip
                && logs[i].userAgent == batch[i].userAgent && logs[i].kind == batch[i].logType
                && logs[i].createdAt == batch[i].createdAt
    {
      var blank := ToLog(batch[0]);
      var copy := new AuditLog[len](i => blank);
      var i := 0;
      while i < len
        invariant 0 <= i <= len && fresh(copy) && copy.Length == len
        invariant forall k :: 0 <= k < i ==> copy[k] == ToLog(batch[k])
      {
        var e := batch[i];
        copy[i] := AuditLog(e.userId, e.username, e.action, e.resource, e.detail,
                            e.ip, e.userAgent, e.logType, e.createdAt);
        i := i + 1;
      }
      logs := copy[..];
    }

    method OnClose()
      requires Valid() && Enabled(View(), Act.Close)
      modifies this`closed, this`closedAt
      ensures Valid() && View() == Step(old(View()), Act.Close)
    {
      StepKeepsInv(View(), Act.Close);
      hide Inv;
      closed := true;
      closedAt := Some(|accepted|);
    }

    method OnDrain()
      requires Valid() && Enabled(View(), Drain)
      modifies this`ch, this`batch, this`len, batch
      ensures batch == old(batch) || fresh(batch)
      ensures Valid() && View() == Step(old(View()), Drain)
    {
      StepKeepsInv(View(), Drain);
      hide Inv;
      var entry := ch[0];
      ch := ch[1..];
      Append(entry);
    }

    method DrainChannel()
      requires Valid() && pc.Draining? && closed
      modifies this`ch, this`batch, this`len, batch
      ensures Valid() && pc.Draining? && closed && ch == []
      ensures Finish(View()) == Finish(old(View()))
    {
      hide Inv, Step;
      while ch != []
        invariant Valid() && closed && pc.Draining?
        invariant batch == old(batch) || fresh(batch)
        invariant Finish(View()) == Finish(old(View()))
        decreases |ch|
      {
        ghost var before := View();
        OnDrain();
        DrainStep(before);
      }
    }

    /** The consumer has seen that close was called: drain the channel, flush the rest, finish. */
    method OnDone()
      requires Valid() && Enabled(View(), SeeDone)
      modifies this, batch
      ensures Valid() && View() == Finish(old(View())) && pc.Finished?
    {
      StepKeepsInv(View(), SeeDone);
      hide Inv;
      pc := Draining;
      DrainChannel();
      ghost var drained := View();
      StepKeepsInv(drained, DrainEnd);
      if len > 0 {
        pc := LastFlush;
        OnFlush();
      } else {
        pc := Finished;
      }
      LastSteps(drained);
    }
  }

  lemma DrainStep(s: State)
    requires s.closedAt.Some? && Enabled(s, Drain)
    ensures Next(s) == Drain && |Step(s, Drain).ch| == |s.ch| - 1
    ensures Finish(s) == Finish(Step(s, Drain))
  {
  }

  lemma LastSteps(s: State)
    requires s.closedAt.Some? && Enabled(s, DrainEnd)
    ensures var ended := Step(s, DrainEnd);
            Finish(s) == if ended.pc.Finished? then ended else Step(ended, Flush)
  {
    var ended := Step(s, DrainEnd);
    assert Finish(s) == Finish(ended);
    if !ended.pc.Finished? {
      assert Finish(ended) == Finish(Step(ended, Flush));
    }
  }
}
