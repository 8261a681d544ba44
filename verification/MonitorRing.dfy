/**
 The ring buffer of collected points (internal/domain/monitor/service.go): sixty slots,
 written in turn, emptied by a flush.
 */
module MonitorRing {
  import opened Common

  const RING_SIZE := 60

  /** The newest elements of `s`, as many as the ring holds. */
  function Newest<T>(s: seq<T>): seq<T> {
    if |s| <= RING_SIZE then s else s[|s| - RING_SIZE..]
  }

  lemma NewestSnoc<T>(s: seq<T>, x: T)
    requires |s| <= RING_SIZE
    ensures |Newest(s + [x])| == if |s| < RING_SIZE then |s| + 1 else RING_SIZE
    ensures forall i :: 0 <= i < |Newest(s + [x])| - 1 ==> Newest(s + [x])[i] == if |s| < RING_SIZE then s[i] else s[i + 1]
    ensures Newest(s + [x])[|Newest(s + [x])| - 1] == x
  {
  }

  class Ring<T> {
    const slots: array<Option<T>>
    var head: int
    var count: int

    constructor ()
      ensures Valid() && Points() == [] && fresh(slots)
    {
      slots := new Option<T>[RING_SIZE](i => None);
      head, count := 0, 0;
    }

    ghost predicate Valid()
      reads this, slots
    {
      && slots.Length == RING_SIZE && 0 <= head < RING_SIZE && 0 <= count <= RING_SIZE
      && forall i :: 0 <= i < count ==> slots[Slot(head, count, i)].Some?
    }

    /** The points not yet flushed, oldest first. */
    ghost function Points(): (s: seq<T>)
      reads this, slots
      requires Valid()
      ensures |s| == count
    {
      seq(count, i requires 0 <= i < count && Valid() reads this, slots => slots[Slot(head, count, i)].value)
    }

    /** addToBuffer. */
    method Add(p: T)
      requires Valid()
      modifies this, slots
      ensures Valid()
      ensures Points() == Newest(old(Points()) + [p])
    {
      ghost var before, was := Points(), count;
      forall i | 0 <= i < RING_SIZE - 1 && (was < RING_SIZE ==> i < was) {
        NextSlot(head, was, i);
      }
      NewestSnoc(before, p);
      hide Slot, Newest;
      slots[head] := Some(p);
      head := (head + 1) % RING_SIZE;
      if count < RING_SIZE {
        count := count + 1;
      }
      forall i | 0 <= i < count ensures slots[Slot(head, count, i)] == Some(Newest(before + [p])[i]) {
      }
    }

    /** flushBuffer: what is handed to the repository, nothing if there is nothing. */
    method Flush() returns (points: seq<T>)
      requires Valid()
      modifies this`count
      ensures Valid()
      ensures points == old(Points()) && Points() == []
    {
      if count == 0 {
        return [];
      }
      points := [];
      var tail := (head - count + RING_SIZE) % RING_SIZE;
      var i := 0;
      while i < count
        invariant 0 <= i <= count
        invariant points == Points()[..i]
      {
        assert (tail + i) % RING_SIZE == Slot(head, count, i);
        points := points + [slots[(tail + i) % RING_SIZE].value];
        i := i + 1;
      }
      count := 0;
    }

    /** GetLatestPoint. */
    method Latest() returns (p: Option<T>)
      requires Valid()
      ensures p == if Points() == [] then None else Some(Points()[|Points()| - 1])
    {
      if count == 0 {
        return None;
      }
      assert (head - 1 + RING_SIZE) % RING_SIZE == Slot(head, count, count - 1);
      p := slots[(head - 1 + RING_SIZE) % RING_SIZE];
    }
  }

  /** Where the i-th oldest of `count` points is when `head` is written next. */
  function Slot(head: int, count: int, i: int): (j: int)
    requires 0 <= head < RING_SIZE && 0 <= i < count <= RING_SIZE
    ensures 0 <= j < RING_SIZE
  {
    if head - count + i < 0 then head - count + i + RING_SIZE else head - count + i
  }

  /** Writing the next slot leaves the other points where they are. */
  lemma NextSlot(head: int, count: int, i: int)
    requires 0 <= head < RING_SIZE && 0 <= count <= RING_SIZE && 0 <= i
    requires if count < RING_SIZE then i < count else i < RING_SIZE - 1
    ensures var next := (head + 1) % RING_SIZE;
            if count < RING_SIZE then Slot(next, count + 1, i) == Slot(head, count, i) != head
            else Slot(next, count, i) == Slot(head, count, i + 1) != head
  {
  }

  // ---- Runs ----

  datatype Op<T> = Add(point: T) | Flush

  /** Every point added so far. */
  function All<T>(ops: seq<Op<T>>): seq<T> {
    if |ops| == 0 then []
    else All(ops[..|ops| - 1]) + (if ops[|ops| - 1].Add? then [ops[|ops| - 1].point] else [])
  }

  /** The points added since the last flush. */
  function Since<T>(ops: seq<Op<T>>): seq<T> {
    if |ops| == 0 || ops[|ops| - 1].Flush? then [] else Since(ops[..|ops| - 1]) + [ops[|ops| - 1].point]
  }

  /** What the ring holds, operation by operation. */
  function Held<T>(ops: seq<Op<T>>): seq<T> {
    if |ops| == 0 || ops[|ops| - 1].Flush? then [] else Newest(Held(ops[..|ops| - 1]) + [ops[|ops| - 1].point])
  }

  /** The batches handed over. */
  function Saved<T>(ops: seq<Op<T>>): seq<seq<T>> {
    if |ops| == 0 then []
    else
      var before, held := Saved(ops[..|ops| - 1]), Held(ops[..|ops| - 1]);
      if ops[|ops| - 1].Flush? && held != [] then before + [held] else before
  }

  lemma NewestOfNewest<T>(s: seq<T>, x: T)
    ensures Newest(Newest(s) + [x]) == Newest(s + [x])
  {
  }

  /** The ring holds the newest of the points since the last flush, and a flush hands over just these. */
  lemma {:induction false} HeldIsNewest<T>(ops: seq<Op<T>>)
    ensures Held(ops) == Newest(Since(ops))
    ensures Newest(Since(ops)) == if |Since(ops)| <= 60 then Since(ops) else Since(ops)[|Since(ops)| - 60..]
    decreases |ops|
  {
    if |ops| > 0 {
      HeldIsNewest(ops[..|ops| - 1]);
      if ops[|ops| - 1].Add? {
        hide Newest;
        NewestOfNewest(Since(ops[..|ops| - 1]), ops[|ops| - 1].point);
      }
    }
  }

  lemma FlushHandsOverNewest<T>(ops: seq<Op<T>>)
    ensures Saved(ops + [Flush]) == if Since(ops) == [] then Saved(ops) else Saved(ops) + [Newest(Since(ops))]
  {
    assert (ops + [Flush])[..|ops|] == ops;
    HeldIsNewest(ops);
  }

  lemma {:induction false} HeldIsLatest<T>(ops: seq<Op<T>>)
    ensures |Held(ops)| <= |All(ops)| && Held(ops) == All(ops)[|All(ops)| - |Held(ops)|..]
    decreases |ops|
  {
    if |ops| > 0 {
      HeldIsLatest(ops[..|ops| - 1]);
    }
  }

  function From(first: nat, n: nat): seq<nat> {
    seq(n, i requires 0 <= i => first + i)
  }

  /** Where in the collection order the saved points come from. */
  function Origins<T>(ops: seq<Op<T>>): seq<nat> {
    if |ops| == 0 then []
    else
      var rest := ops[..|ops| - 1];
      HeldIsLatest(rest);
      var first := |All(rest)| - |Held(rest)|;
      Origins(rest) + (if ops[|ops| - 1].Flush? then From(first, |Held(rest)|) else [])
  }

  /** `at` picks `picked` out of `all`, in order and never the same place twice, all before `limit`. */
  ghost predicate Picks<T>(at: seq<nat>, picked: seq<T>, all: seq<T>, limit: int) {
    && |at| == |picked|
    && (forall i, j :: 0 <= i < j < |at| ==> at[i] < at[j])
    && (forall i :: 0 <= i < |at| ==> at[i] < limit && at[i] < |all| && all[at[i]] == picked[i])
  }

  lemma PicksTheRest<T>(at: seq<nat>, picked: seq<T>, all: seq<T>, first: nat)
    requires first <= |all| && Picks(at, picked, all, first)
    ensures Picks(at + From(first, |all| - first), picked + all[first..], all, |all|)
  {
  }

  lemma PicksMore<T>(at: seq<nat>, picked: seq<T>, all: seq<T>, more: seq<T>, limit: int, limit': int)
    requires Picks(at, picked, all, limit) && limit <= limit'
    ensures Picks(at, picked, all + more, limit')
  {
  }

  lemma AfterFlush<T>(ops: seq<Op<T>>)
    requires |ops| > 0 && ops[|ops| - 1].Flush?
    ensures var rest := ops[..|ops| - 1];
            && All(ops) == All(rest) && Held(ops) == []
            && |Held(rest)| <= |All(rest)|
            && Concat(Saved(ops)) == Concat(Saved(rest)) + All(rest)[|All(rest)| - |Held(rest)|..]
            && Origins(ops) == Origins(rest) + From(|All(rest)| - |Held(rest)|, |Held(rest)|)
  {
    var rest := ops[..|ops| - 1];
    HeldIsLatest(rest);
    ConcatSnoc(Saved(rest), Held(rest));
    hide Concat, Newest, From;
  }

  lemma AfterAdd<T>(ops: seq<Op<T>>)
    requires |ops| > 0 && ops[|ops| - 1].Add?
    ensures var rest := ops[..|ops| - 1];
            && All(ops) == All(rest) + [ops[|ops| - 1].point]
            && |Held(ops)| <= |Held(rest)| + 1
            && Saved(ops) == Saved(rest) && Origins(ops) == Origins(rest)
  {
    hide Newest;
    NewestGrowsByOne(Held(ops[..|ops| - 1]), ops[|ops| - 1].point);
  }

  lemma NothingYet<T>(ops: seq<Op<T>>)
    requires |ops| == 0
    ensures Picks(Origins(ops), Concat(Saved(ops)), All(ops), |All(ops)| - |Held(ops)|)
  {
  }

  /** No point is saved twice, and they are saved in the order they were collected in. */
  lemma {:induction false} NothingTwice<T>(ops: seq<Op<T>>)
    ensures Picks(Origins(ops), Concat(Saved(ops)), All(ops), |All(ops)| - |Held(ops)|)
    decreases |ops|
  {
    hide *;
    if |ops| == 0 {
      NothingYet(ops);
    } else {
      var rest := ops[..|ops| - 1];
      NothingTwice(rest);
      if ops[|ops| - 1].Flush? {
        AfterFlush(ops);
        PicksTheRest(Origins(rest), Concat(Saved(rest)), All(rest), |All(rest)| - |Held(rest)|);
      } else {
        AfterAdd(ops);
        PicksMore(Origins(rest), Concat(Saved(rest)), All(rest), [ops[|ops| - 1].point],
                  |All(rest)| - |Held(rest)|, |All(ops)| - |Held(ops)|);
      }
    }
  }

  lemma NewestGrowsByOne<T>(s: seq<T>, x: T)
    ensures |Newest(s + [x])| <= |s| + 1
  {
  }

  lemma NewestEndsAlike<T>(s: seq<T>)
    ensures Newest(s) == [] <==> s == []
    ensures s != [] ==> Newest(s)[|Newest(s)| - 1] == s[|s| - 1]
  {
  }

  /** How many points were overwritten before they could be saved. */
  function Lost<T>(ops: seq<Op<T>>): nat {
    if |ops| == 0 then 0
    else
      Lost(ops[..|ops| - 1])
      + (if ops[|ops| - 1].Add? && |Held(ops[..|ops| - 1])| == RING_SIZE then 1 else 0)
  }

  /** At no moment more points were added since the last flush than the ring holds. */
  predicate NeverOverfull<T>(ops: seq<Op<T>>) {
    |ops| == 0 || (NeverOverfull(ops[..|ops| - 1]) && |Since(ops)| <= 60)
  }

  lemma HeldSize<T>(ops: seq<Op<T>>)
    ensures |Held(ops)| == if |Since(ops)| <= 60 then |Since(ops)| else 60
  {
    HeldIsNewest(ops);
    hide Newest, Held, Since;
  }

  /** A flush changes no count but moves what is held to what is saved. */
  lemma FlushCounts<T>(ops: seq<Op<T>>)
    requires |ops| > 0 && ops[|ops| - 1].Flush?
    ensures var rest := ops[..|ops| - 1];
            && |Concat(Saved(ops))| == |Concat(Saved(rest))| + |Held(rest)|
            && |Held(ops)| == 0 && |Since(ops)| == 0
            && Lost(ops) == Lost(rest) && All(ops) == All(rest)
  {
    var rest := ops[..|ops| - 1];
    ConcatSnoc(Saved(rest), Held(rest));
    hide Concat, Newest;
  }

  /** One more point is held, unless the ring was full: then one is lost. */
  lemma AddCounts<T>(ops: seq<Op<T>>)
    requires |ops| > 0 && ops[|ops| - 1].Add?
    ensures var rest := ops[..|ops| - 1];
            && Saved(ops) == Saved(rest)
            && |Since(ops)| == |Since(rest)| + 1 && |All(ops)| == |All(rest)| + 1
            && Lost(ops) == Lost(rest) + (if |Since(rest)| >= 60 then 1 else 0)
            && |Held(ops)| == |Held(rest)| + (if |Since(rest)| >= 60 then 0 else 1)
  {
    var rest := ops[..|ops| - 1];
    HeldSize(rest);
    HeldSize(ops);
    hide Held, Newest;
  }

  lemma {:induction false} EveryPointIsCounted<T>(ops: seq<Op<T>>)
    ensures |Concat(Saved(ops))| + |Held(ops)| + Lost(ops) == |All(ops)|
    ensures Lost(ops) == 0 <==> NeverOverfull(ops)
    decreases |ops|
  {
    if |ops| > 0 {
      EveryPointIsCounted(ops[..|ops| - 1]);
      if ops[|ops| - 1].Flush? {
        FlushCounts(ops);
      } else {
        AddCounts(ops);
      }
      hide Concat, Saved, Held, Since, All, Lost;
    }
  }

  /** Everything collected is saved or still held, in order, if and only if the ring never overflowed. */
  lemma {:induction false} NoneLostIff<T>(ops: seq<Op<T>>)
    ensures Concat(Saved(ops)) + Held(ops) == All(ops) <==> NeverOverfull(ops)
    decreases |ops|
  {
    EveryPointIsCounted(ops);
    if NeverOverfull(ops) && |ops| > 0 {
      var rest := ops[..|ops| - 1];
      NoneLostIff(rest);
      HeldIsNewest(rest);
      HeldIsNewest(ops);
      if ops[|ops| - 1].Flush? {
        ConcatSnoc(Saved(rest), Held(rest));
      } else {
        assert Held(ops) == Held(rest) + [ops[|ops| - 1].point];
      }
    }
  }

  /** The ring, driven through any run, saves what the run says. */
  method Collect<T>(ops: seq<Op<T>>) returns (saved: seq<seq<T>>, latest: Option<T>)
    ensures saved == Saved(ops)
    ensures latest == if Since(ops) == [] then None else Some(Since(ops)[|Since(ops)| - 1])
  {
    var ring := new Ring<T>();
    saved := [];
    var i := 0;
    hide Newest;
    while i < |ops|
      invariant 0 <= i <= |ops| && ring.Valid() && fresh(ring) && fresh(ring.slots)
      invariant ring.Points() == Held(ops[..i]) && saved == Saved(ops[..i])
    {
      assert ops[..i + 1][..i] == ops[..i] && ops[..i + 1][i] == ops[i];
      ghost var held := ring.Points();
      match ops[i] {
        case Add(p) => ring.Add(p);
        case Flush =>
          var points := ring.Flush();
          saved := if points == [] then saved else saved + [points];
      }
      i := i + 1;
    }
    assert ops[..i] == ops;
    HeldIsNewest(ops);
    NewestEndsAlike(Since(ops));
    latest := ring.Latest();
  }
}
