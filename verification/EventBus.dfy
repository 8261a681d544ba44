/**
 The plugin event bus (internal/plugin/events.go).

 One publisher at a time holds the mutex; each subscription has a bounded queue and a
 consumer goroutine of its own.  A run is any sequence of `Label`s: publishing is cut
 into its channel operations (try to send, drain the oldest, try again), and consumers
 take, call their handler, back off and quit between any two of them.  A label that is
 not enabled leaves the state alone.
 */
module EventBus {
  import opened Common

  const QUEUE_SIZE: nat := 1000
  const MAX_ATTEMPTS: nat := 5

  type Handle = nat

  datatype Event = Event(id: string, name: string)

  datatype Outcome = Ok | Fail | Panic

  datatype Consumer =
    | Waiting
    | Delivering(evt: Event, attempt: nat)
    | BackingOff(evt: Event, attempt: nat)
    | Gone

  /** An event that left a queue: taken by the consumer, or dropped in the `during`-th publish. */
  datatype Exit = Taken(evt: Event) | Dropped(evt: Event, during: nat)

  /** The `attempt`-th handler call for the `n`-th event the consumer took. */
  datatype Call = Call(n: int, evt: Event, attempt: nat, outcome: Outcome)

  /**
   A subscription: its queue, its closed flag and its consumer, and three histories the
   program does not keep: the events published to it, the events that left its queue,
   and the calls of its handler; `overflows` holds the publishes that found it full.
   */
  datatype Subscription = Subscription(
    id: string, queue: seq<Event>, closed: bool, consumer: Consumer,
    published: seq<Event>, exits: seq<Exit>, calls: seq<Call>, overflows: set<nat>)

  datatype Phase = TrySend | Drain | Resend

  datatype Publisher = Idle | Sending(evt: Event, todo: seq<Handle>, phase: Phase)

  datatype Bus = Bus(
    subs: map<Handle, Subscription>,
    next: Handle,
    registry: map<string, map<string, Handle>>,
    publisher: Publisher)

  const EmptyBus := Bus(map[], 0, map[], Idle)

  datatype Label =
    | Subscribe(id: string, events: seq<string>)
    | Unsubscribe(id: string)
    | Publish(evt: Event, order: seq<Handle>)
    | PublisherStep
    | Take(h: Handle)
    | CallHandler(h: Handle, outcome: Outcome)
    | WakeUp(h: Handle)
    | GiveUp(h: Handle)
    | Quit(h: Handle)

  // ---- What a step does to one subscription ----

  function Pushed(s: Subscription, evt: Event): Subscription {
    s.(queue := s.queue + [evt])
  }

  function Drained(s: Subscription): Subscription {
    if s.queue == [] then s
    else s.(queue := s.queue[1..], exits := s.exits + [Dropped(s.queue[0], |s.published|)])
  }

  function TakenFrom(s: Subscription): Subscription {
    if !s.consumer.Waiting? || s.queue == [] then s
    else s.(queue := s.queue[1..], exits := s.exits + [Taken(s.queue[0])], consumer := Delivering(s.queue[0], 1))
  }

  function Called(s: Subscription, outcome: Outcome): Subscription {
    if !s.consumer.Delivering? then s
    else
      var attempt := s.consumer.attempt;
      s.(calls := s.calls + [Call(|TakenEvents(s.exits)| - 1, s.consumer.evt, attempt, outcome)],
         consumer := if !outcome.Fail? || attempt >= MAX_ATTEMPTS then Waiting
                     else BackingOff(s.consumer.evt, attempt))
  }

  function TakenEvents(exits: seq<Exit>): seq<Event> {
    if exits == [] then []
    else
      var n := |exits| - 1;
      TakenEvents(exits[..n]) + (if exits[n].Taken? then [exits[n].evt] else [])
  }

  function ExitEvents(exits: seq<Exit>): seq<Event> {
    seq(|exits|, i requires 0 <= i < |exits| => exits[i].evt)
  }

  // ---- Steps of the bus ----

  function Lookup(registry: map<string, map<string, Handle>>, name: string): map<string, Handle> {
    if name in registry then registry[name] else map[]
  }

  /** Who has subscribed to the event, and under which handle. */
  function Registered(b: Bus, name: string): map<string, Handle> {
    Lookup(b.registry, name)
  }

  /** The old subscription Subscribe closes: that of the first listed event which has one. */
  function OldOf(b: Bus, id: string, events: seq<string>): Option<Handle> {
    if events == [] then None
    else if id in Registered(b, events[0]) then Some(Registered(b, events[0])[id])
    else OldOf(b, id, events[1..])
  }

  function Enrolled(registry: map<string, map<string, Handle>>, id: string, events: seq<string>, h: Handle)
    : map<string, map<string, Handle>>
    decreases |events|
  {
    if events == [] then registry
    else
      var e := events[0];
      Enrolled(registry[e := Lookup(registry, e)[id := h]], id, events[1..], h)
  }

  function Close(subs: map<Handle, Subscription>, hs: set<Handle>): map<Handle, Subscription> {
    map h | h in subs :: if h in hs then subs[h].(closed := true) else subs[h]
  }

  function DoSubscribe(b: Bus, id: string, events: seq<string>): Bus {
    var old' := OldOf(b, id, events);
    var subs := if old'.Some? then Close(b.subs, {old'.value}) else b.subs;
    var h := b.next;
    b.(next := h + 1,
       subs := subs[h := Subscription(id, [], false, Waiting, [], [], [], {})],
       registry := Enrolled(b.registry, id, events, h))
  }

  function HandlesOf(b: Bus, id: string): set<Handle> {
    set e | e in b.registry && id in b.registry[e] :: b.registry[e][id]
  }

  function DoUnsubscribe(b: Bus, id: string): Bus {
    b.(subs := Close(b.subs, HandlesOf(b, id)),
       registry := map e | e in b.registry && b.registry[e] - {id} != map[] :: b.registry[e] - {id})
  }

  /** `order` enumerates the subscriptions of the event's name: the iteration order of a Go map. */
  predicate Enumerates(order: seq<Handle>, m: map<string, Handle>) {
    && (set h | h in order) == m.Values
    && forall i, j :: 0 <= i < j < |order| ==> order[i] != order[j]
  }

  function DoPublish(b: Bus, evt: Event, order: seq<Handle>): Bus {
    b.(subs := map h | h in b.subs ::
         if h in order then b.subs[h].(published := b.subs[h].published + [evt]) else b.subs[h],
       publisher := Sending(evt, order, TrySend))
  }

  function PublisherMoves(b: Bus): Bus {
    match b.publisher
    case Idle => b
    case Sending(evt, todo, phase) =>
      if todo == [] then b.(publisher := Idle)
      else
        var h := todo[0];
        if h !in b.subs then b
        else
          var s := b.subs[h];
          match phase
          case TrySend =>
            if |s.queue| < QUEUE_SIZE
            then b.(subs := b.subs[h := Pushed(s, evt)], publisher := Sending(evt, todo[1..], TrySend))
            else b.(subs := b.subs[h := s.(overflows := s.overflows + {|s.published|})],
                    publisher := Sending(evt, todo, Drain))
          case Drain =>
            b.(subs := b.subs[h := Drained(s)], publisher := Sending(evt, todo, Resend))
          case Resend =>
            b.(subs := if |s.queue| < QUEUE_SIZE then b.subs[h := Pushed(s, evt)] else b.subs,
               publisher := Sending(evt, todo[1..], TrySend))
  }

  function ConsumerMoves(s: Subscription, l: Label): Subscription {
    match l
    case Take(_) => TakenFrom(s)
    case CallHandler(_, outcome) => Called(s, outcome)
    case WakeUp(_) =>
      if s.consumer.BackingOff? then s.(consumer := Delivering(s.consumer.evt, s.consumer.attempt + 1)) else s
    case GiveUp(_) => if s.consumer.BackingOff? && s.closed then s.(consumer := Waiting) else s
    case Quit(_) => if s.consumer.Waiting? && s.closed then s.(consumer := Gone) else s
    case _ => s
  }

  predicate OfConsumer(l: Label) {
    l.Take? || l.CallHandler? || l.WakeUp? || l.GiveUp? || l.Quit?
  }

  function Step(b: Bus, l: Label): Bus {
    if OfConsumer(l) then
      if l.h in b.subs then b.(subs := b.subs[l.h := ConsumerMoves(b.subs[l.h], l)]) else b
    else if l.PublisherStep? then PublisherMoves(b)
    else if !b.publisher.Idle? then b // the mutex is taken
    else match l
      case Subscribe(id, events) => DoSubscribe(b, id, events)
      case Unsubscribe(id) => DoUnsubscribe(b, id)
      case Publish(evt, order) =>
        if Enumerates(order, Registered(b, evt.name)) then DoPublish(b, evt, order) else b
      case _ => b
  }

  function Run(b: Bus, labels: seq<Label>): Bus
    decreases |labels|
  {
    if labels == [] then b else Run(Step(b, labels[0]), labels[1..])
  }

  // ---- The invariant ----

  /** The event on its way to subscription `h`, if the publisher has not got to it yet. */
  function Pending(b: Bus, h: Handle): seq<Event> {
    if b.publisher.Sending? && h in b.publisher.todo then [b.publisher.evt] else []
  }

  /** Nothing is lost: what was published left the queue, is queued, or is on its way, in this order. */
  ghost predicate QueueInv(s: Subscription, pending: seq<Event>) {
    && |s.queue| <= QUEUE_SIZE
    && s.published == ExitEvents(s.exits) + s.queue + pending
  }

  /** A publish drops at most one event, and only if it found the queue full. */
  ghost predicate DropsOk(exits: seq<Exit>, overflows: set<nat>, published: nat, undrained: bool) {
    && (forall i :: 0 <= i < |exits| && exits[i].Dropped? ==>
          exits[i].during in overflows && exits[i].during <= published)
    && (forall i, j :: 0 <= i < j < |exits| && exits[i].Dropped? && exits[j].Dropped? ==>
          exits[i].during < exits[j].during)
    && (undrained ==> forall i :: 0 <= i < |exits| && exits[i].Dropped? ==> exits[i].during < published)
  }

  /** The last word on an event: it was handled, given up after all attempts, or its subscription closed. */
  predicate Final(c: Call, closed: bool) {
    !c.outcome.Fail? || c.attempt == MAX_ATTEMPTS || closed
  }

  /** Call `c` may follow call `p`: it retries a failure, or starts on the next event. */
  predicate Follows(p: Call, c: Call, closed: bool) {
    if c.attempt == 1 then c.n == p.n + 1 && Final(p, closed)
    else c.n == p.n && c.attempt == p.attempt + 1 && p.outcome.Fail?
  }

  /** The handler calls are one run of at most MAX_ATTEMPTS calls per event taken, in order. */
  ghost predicate CallsOk(taken: seq<Event>, calls: seq<Call>, closed: bool) {
    && (forall k :: 0 <= k < |calls| ==>
          && 0 <= calls[k].n < |taken| && calls[k].evt == taken[calls[k].n]
          && 1 <= calls[k].attempt <= MAX_ATTEMPTS)
    && (|calls| > 0 ==> calls[0].n == 0 && calls[0].attempt == 1)
    && (forall k, l :: 0 <= k && l == k + 1 && l < |calls| ==> Follows(calls[k], calls[l], closed))
  }

  /** Where the consumer stands with respect to the last event taken and the last call made. */
  ghost predicate ConsumerOk(taken: seq<Event>, calls: seq<Call>, consumer: Consumer, closed: bool) {
    var last := if calls == [] then -1 else calls[|calls| - 1].n;
    match consumer
    case Delivering(evt, attempt) =>
      && |taken| > 0 && evt == taken[|taken| - 1] && 1 <= attempt <= MAX_ATTEMPTS
      && if attempt == 1 then last == |taken| - 2 && (calls != [] ==> Final(calls[|calls| - 1], closed))
         else calls != [] && calls[|calls| - 1] == Call(|taken| - 1, evt, attempt - 1, Fail)
    case BackingOff(evt, attempt) =>
      && |taken| > 0 && evt == taken[|taken| - 1] && attempt < MAX_ATTEMPTS
      && calls != [] && calls[|calls| - 1] == Call(|taken| - 1, evt, attempt, Fail)
    case _ => last == |taken| - 1 && (calls != [] ==> Final(calls[|calls| - 1], closed))
  }

  ghost predicate DropInv(s: Subscription, undrained: bool) {
    DropsOk(s.exits, s.overflows, |s.published|, undrained)
  }

  ghost predicate CallInv(s: Subscription) {
    && CallsOk(TakenEvents(s.exits), s.calls, s.closed)
    && ConsumerOk(TakenEvents(s.exits), s.calls, s.consumer, s.closed)
  }

  /** The publisher still has `h` before it and has not drained its queue. */
  ghost predicate Undrained(b: Bus, h: Handle) {
    b.publisher.Sending? && h in b.publisher.todo && (b.publisher.phase.Resend? ==> b.publisher.todo[0] != h)
  }

  ghost predicate SubInv(b: Bus, h: Handle)
    requires h in b.subs
  {
    QueueInv(b.subs[h], Pending(b, h)) && DropInv(b.subs[h], Undrained(b, h)) && CallInv(b.subs[h])
  }

  ghost predicate PublisherInv(b: Bus) {
    b.publisher.Sending? ==>
      && (forall h :: h in b.publisher.todo ==> h in b.subs)
      && (forall i, j :: 0 <= i < j < |b.publisher.todo| ==> b.publisher.todo[i] != b.publisher.todo[j])
      && (b.publisher.phase != TrySend ==> b.publisher.todo != [])
      && (b.publisher.phase.Drain? ==>
            |b.subs[b.publisher.todo[0]].published| in b.subs[b.publisher.todo[0]].overflows)
      && (b.publisher.phase.Resend? ==> |b.subs[b.publisher.todo[0]].queue| < QUEUE_SIZE)
  }

  ghost predicate RegistryInv(b: Bus) {
    && (forall h :: h in b.subs <==> 0 <= h < b.next)
    && forall e, id :: e in b.registry && id in b.registry[e] ==> b.registry[e][id] in b.subs
  }

  ghost predicate Inv(b: Bus) {
    && RegistryInv(b) && PublisherInv(b)
    && forall h :: h in b.subs ==> SubInv(b, h)
  }

  // ---- One subscription ----

  lemma ExitSnoc(exits: seq<Exit>, x: Exit)
    ensures ExitEvents(exits + [x]) == ExitEvents(exits) + [x.evt]
    ensures x.Taken? ==> TakenEvents(exits + [x]) == TakenEvents(exits) + [x.evt]
    ensures x.Dropped? ==> TakenEvents(exits + [x]) == TakenEvents(exits)
  {
    assert (exits + [x])[..|exits|] == exits;
  }

  lemma DrainingKeepsDrops(exits: seq<Exit>, evt: Event, overflows: set<nat>, published: nat)
    requires DropsOk(exits, overflows, published, true) && published in overflows
    ensures DropsOk(exits + [Dropped(evt, published)], overflows, published, false)
  {
  }

  /** The oldest queued event becomes the newest that left. */
  lemma HeadLeaves(s: Subscription, x: Exit, pending: seq<Event>)
    requires QueueInv(s, pending) && s.queue != [] && x.evt == s.queue[0]
    ensures QueueInv(s.(queue := s.queue[1..], exits := s.exits + [x]), pending)
  {
    ExitSnoc(s.exits, x);
  }

  lemma DrainingKeeps(s: Subscription, evt: Event)
    requires QueueInv(s, [evt]) && CallInv(s) && DropInv(s, true) && |s.published| in s.overflows
    ensures QueueInv(Drained(s), [evt]) && CallInv(Drained(s)) && DropInv(Drained(s), false)
    ensures |Drained(s).queue| < QUEUE_SIZE
  {
    assert |s.queue| <= QUEUE_SIZE;
    assert DropInv(s, false);
    hide CallsOk, ConsumerOk, DropsOk, QueueInv, TakenEvents;
    if s.queue != [] {
      DrainingKeepsDrops(s.exits, s.queue[0], s.overflows, |s.published|);
      HeadLeaves(s, Dropped(s.queue[0], |s.published|), [evt]);
      ExitSnoc(s.exits, Dropped(s.queue[0], |s.published|));
    }
  }

  lemma PushingKeeps(s: Subscription, evt: Event, undrained: bool)
    requires QueueInv(s, [evt]) && CallInv(s) && DropInv(s, undrained) && |s.queue| < QUEUE_SIZE
    ensures QueueInv(Pushed(s, evt), []) && CallInv(Pushed(s, evt)) && DropInv(Pushed(s, evt), false)
  {
    hide CallsOk, ConsumerOk;
  }

  lemma OverflowKeeps(s: Subscription, evt: Event)
    requires QueueInv(s, [evt]) && CallInv(s) && DropInv(s, true)
    ensures var t := s.(overflows := s.overflows + {|s.published|});
            QueueInv(t, [evt]) && CallInv(t) && DropInv(t, true)
  {
    hide CallsOk, ConsumerOk;
  }

  lemma PublishingKeeps(s: Subscription, evt: Event)
    requires QueueInv(s, []) && CallInv(s) && DropInv(s, false)
    ensures var t := s.(published := s.published + [evt]); QueueInv(t, [evt]) && CallInv(t) && DropInv(t, true)
  {
    hide CallsOk, ConsumerOk;
  }

  lemma ClosingKeeps(s: Subscription)
    requires QueueInv(s, []) && CallInv(s) && DropInv(s, false)
    ensures var t := s.(closed := true); QueueInv(t, []) && CallInv(t) && DropInv(t, false)
  {
    hide TakenEvents, ExitEvents, DropsOk;
  }

  lemma FreshSubscription(id: string)
    ensures var t := Subscription(id, [], false, Waiting, [], [], [], {});
            QueueInv(t, []) && CallInv(t) && DropInv(t, false)
  {
    assert TakenEvents([]) == [] && ExitEvents([]) == [];
  }

  lemma TakingKeepsCalls(taken: seq<Event>, calls: seq<Call>, evt: Event, closed: bool)
    requires CallsOk(taken, calls, closed) && ConsumerOk(taken, calls, Waiting, closed)
    ensures CallsOk(taken + [evt], calls, closed) && ConsumerOk(taken + [evt], calls, Delivering(evt, 1), closed)
  {
  }

  lemma TakingKeepsDrops(exits: seq<Exit>, evt: Event, overflows: set<nat>, published: nat, undrained: bool)
    requires DropsOk(exits, overflows, published, undrained)
    ensures DropsOk(exits + [Taken(evt)], overflows, published, undrained)
  {
  }

  lemma TakingKeeps(s: Subscription, pending: seq<Event>, undrained: bool)
    requires QueueInv(s, pending) && DropInv(s, undrained) && CallInv(s)
    ensures QueueInv(TakenFrom(s), pending) && DropInv(TakenFrom(s), undrained) && CallInv(TakenFrom(s))
  {
    hide ExitEvents, TakenEvents, CallsOk, ConsumerOk, DropsOk;
    if s.consumer.Waiting? && s.queue != [] {
      var evt := s.queue[0];
      HeadLeaves(s, Taken(evt), pending);
      ExitSnoc(s.exits, Taken(evt));
      TakingKeepsCalls(TakenEvents(s.exits), s.calls, evt, s.closed);
      TakingKeepsDrops(s.exits, evt, s.overflows, |s.published|, undrained);
    }
  }

  lemma CallingKeeps(s: Subscription, outcome: Outcome)
    requires CallInv(s)
    ensures CallInv(Called(s, outcome))
  {
    hide TakenEvents;
  }

  lemma ConsumerKeepsCalls(s: Subscription, l: Label)
    requires CallInv(s) && OfConsumer(l) && !l.Take?
    ensures CallInv(ConsumerMoves(s, l))
  {
    hide TakenEvents;
    if l.CallHandler? {
      CallingKeeps(s, l.outcome);
    }
  }

  // ---- The bus ----

  /** No consumer move touches what the publisher sees, except that it may shorten the queue. */
  lemma ConsumerKeepsSubscription(s: Subscription, l: Label, pending: seq<Event>, undrained: bool)
    requires QueueInv(s, pending) && DropInv(s, undrained) && CallInv(s) && OfConsumer(l)
    ensures var t := ConsumerMoves(s, l);
            && QueueInv(t, pending) && DropInv(t, undrained) && CallInv(t)
            && |t.queue| <= |s.queue| && t.published == s.published && t.overflows == s.overflows
  {
    hide *;
    if l.Take? {
      TakingKeeps(s, pending, undrained);
      TakingIsTaken(s, l);
    } else {
      ConsumerKeepsCalls(s, l);
      OtherMovesKeepQueue(s, l, pending, undrained);
    }
  }

  lemma TakingIsTaken(s: Subscription, l: Label)
    requires l.Take?
    ensures var t := TakenFrom(s);
            ConsumerMoves(s, l) == t && |t.queue| <= |s.queue| && t.published == s.published && t.overflows == s.overflows
  {
  }

  lemma OtherMovesKeepQueue(s: Subscription, l: Label, pending: seq<Event>, undrained: bool)
    requires OfConsumer(l) && !l.Take? && QueueInv(s, pending) && DropInv(s, undrained)
    ensures var t := ConsumerMoves(s, l);
            && QueueInv(t, pending) && DropInv(t, undrained)
            && t.queue == s.queue && t.published == s.published && t.overflows == s.overflows
  {
    hide DropsOk, ExitEvents, TakenEvents;
  }

  lemma ConsumerKeepsInv(b: Bus, l: Label)
    requires Inv(b) && OfConsumer(l)
    ensures Inv(Step(b, l))
  {
    hide QueueInv, DropInv, CallInv, RegistryInv, ConsumerMoves;
    if l.h in b.subs {
      assert SubInv(b, l.h);
      ConsumerKeepsSubscription(b.subs[l.h], l, Pending(b, l.h), Undrained(b, l.h));
      assert Step(b, l).subs[l.h] == ConsumerMoves(b.subs[l.h], l);
      OneSubscriptionChanges(b, Step(b, l), l.h);
    }
  }

  /** A step that replaces one subscription leaves the others' share of the publisher alone. */
  lemma OneSubscriptionChanges(b: Bus, c: Bus, h: Handle)
    requires Inv(b) && h in b.subs && h in c.subs
    requires c == b.(subs := b.subs[h := c.subs[h]], publisher := c.publisher)
    requires PublisherInv(c) && SubInv(c, h)
    requires forall g :: g in b.subs && g != h ==>
               Pending(c, g) == Pending(b, g) && (Undrained(c, g) <==> Undrained(b, g))
    ensures Inv(c)
  {
    hide QueueInv, DropInv, CallInv, PublisherInv, Pending, Undrained;
    assert c.subs.Keys == b.subs.Keys;
    forall g | g in c.subs ensures SubInv(c, g) {
      if g != h {
        assert SubInv(b, g);
      }
    }
  }

  lemma TrySendKeepsInv(b: Bus)
    requires Inv(b) && b.publisher.Sending? && b.publisher.todo != [] && b.publisher.phase.TrySend?
    ensures Inv(PublisherMoves(b))
  {
    hide QueueInv, DropInv, CallInv;
    var h, todo := b.publisher.todo[0], b.publisher.todo;
    var s, evt := b.subs[h], b.publisher.evt;
    assert SubInv(b, h) && Pending(b, h) == [evt] && Undrained(b, h);
    assert forall g :: g in todo[1..] <==> g in todo && g != h;
    if |s.queue| < QUEUE_SIZE {
      PushingKeeps(s, evt, Undrained(b, h));
    } else {
      OverflowKeeps(s, evt);
    }
    OneSubscriptionChanges(b, PublisherMoves(b), h);
  }

  lemma DrainKeepsInv(b: Bus)
    requires Inv(b) && b.publisher.Sending? && b.publisher.todo != [] && b.publisher.phase.Drain?
    ensures Inv(PublisherMoves(b))
  {
    hide QueueInv, DropInv, CallInv;
    var h := b.publisher.todo[0];
    assert SubInv(b, h) && Pending(b, h) == [b.publisher.evt];
    DrainingKeeps(b.subs[h], b.publisher.evt);
    hide Drained;
    OneSubscriptionChanges(b, PublisherMoves(b), h);
  }

  lemma ResendKeepsInv(b: Bus)
    requires Inv(b) && b.publisher.Sending? && b.publisher.todo != [] && b.publisher.phase.Resend?
    ensures Inv(PublisherMoves(b))
  {
    hide QueueInv, DropInv, CallInv;
    var h, todo := b.publisher.todo[0], b.publisher.todo;
    assert SubInv(b, h) && Pending(b, h) == [b.publisher.evt];
    assert forall g :: g in todo[1..] <==> g in todo && g != h;
    PushingKeeps(b.subs[h], b.publisher.evt, false);
    OneSubscriptionChanges(b, PublisherMoves(b), h);
  }

  lemma PublisherKeepsInv(b: Bus)
    requires Inv(b)
    ensures Inv(PublisherMoves(b))
  {
    if b.publisher.Sending? {
      if b.publisher.todo == [] {
        hide QueueInv, DropInv, CallInv, RegistryInv;
        forall g | g in b.subs ensures SubInv(PublisherMoves(b), g) {
          assert SubInv(b, g);
        }
      } else {
        hide *;
        match b.publisher.phase
        case TrySend => TrySendKeepsInv(b);
        case Drain => DrainKeepsInv(b);
        case Resend => ResendKeepsInv(b);
      }
    }
  }

  lemma {:induction false} EnrolledHandles(registry: map<string, map<string, Handle>>, id: string, events: seq<string>, h: Handle)
    ensures forall e, i :: e in Enrolled(registry, id, events, h) && i in Enrolled(registry, id, events, h)[e] ==>
              Enrolled(registry, id, events, h)[e][i] == h
              || (e in registry && i in registry[e] && Enrolled(registry, id, events, h)[e][i] == registry[e][i])
    decreases |events|
  {
    if events != [] {
      var m := Lookup(registry, events[0]);
      EnrolledHandles(registry[events[0] := m[id := h]], id, events[1..], h);
    }
  }

  /** With the mutex free, subscriptions are only opened and closed. */
  ghost predicate OpensAndCloses(b: Bus, c: Bus) {
    && b.publisher.Idle? && c.publisher.Idle?
    && forall g :: g in c.subs ==>
         || (g in b.subs && (c.subs[g] == b.subs[g] || c.subs[g] == b.subs[g].(closed := true)))
         || c.subs[g] == Subscription(c.subs[g].id, [], false, Waiting, [], [], [], {})
  }

  lemma OpeningAndClosingKeepInv(b: Bus, c: Bus)
    requires Inv(b) && RegistryInv(c) && OpensAndCloses(b, c)
    ensures Inv(c)
  {
    hide QueueInv, CallInv, DropInv, RegistryInv;
    forall g | g in c.subs ensures SubInv(c, g) {
      if g in b.subs {
        assert SubInv(b, g);
        ClosingKeeps(b.subs[g]);
      }
      FreshSubscription(c.subs[g].id);
    }
  }

  lemma SubscribeKeepsInv(b: Bus, id: string, events: seq<string>)
    requires RegistryInv(b) && b.publisher.Idle?
    ensures RegistryInv(DoSubscribe(b, id, events)) && OpensAndCloses(b, DoSubscribe(b, id, events))
  {
    EnrolledHandles(b.registry, id, events, b.next);
    hide Enrolled, OldOf;
    var c := DoSubscribe(b, id, events);
    assert c.subs.Keys == b.subs.Keys + {b.next};
  }

  lemma UnsubscribeKeepsInv(b: Bus, id: string)
    requires RegistryInv(b) && b.publisher.Idle?
    ensures RegistryInv(DoUnsubscribe(b, id)) && OpensAndCloses(b, DoUnsubscribe(b, id))
  {
    assert DoUnsubscribe(b, id).subs.Keys == b.subs.Keys;
  }

  lemma EnumeratedExist(b: Bus, name: string, order: seq<Handle>)
    requires RegistryInv(b) && Enumerates(order, Registered(b, name))
    ensures forall h :: h in order ==> h in b.subs
  {
    forall h | h in order ensures h in b.subs {
      assert h in (set k | k in order);
      assert h in Registered(b, name).Values;
      var id :| id in Registered(b, name) && Registered(b, name)[id] == h;
    }
  }

  lemma PublishKeepsInv(b: Bus, evt: Event, order: seq<Handle>)
    requires Inv(b) && b.publisher.Idle? && Enumerates(order, Registered(b, evt.name))
    ensures Inv(DoPublish(b, evt, order))
  {
    hide QueueInv, DropInv, CallInv;
    var c := DoPublish(b, evt, order);
    assert c.subs.Keys == b.subs.Keys;
    EnumeratedExist(b, evt.name, order);
    forall g | g in c.subs ensures SubInv(c, g) {
      assert SubInv(b, g);
      PublishingKeeps(b.subs[g], evt);
    }
  }

  lemma StepKeepsInv(b: Bus, l: Label)
    requires Inv(b)
    ensures Inv(Step(b, l))
  {
    assert RegistryInv(b);
    hide Inv, RegistryInv, OpensAndCloses;
    if OfConsumer(l) {
      ConsumerKeepsInv(b, l);
    } else if l.PublisherStep? {
      PublisherKeepsInv(b);
    } else if b.publisher.Idle? {
      match l
      case Subscribe(id, events) =>
        SubscribeKeepsInv(b, id, events);
        OpeningAndClosingKeepInv(b, Step(b, l));
      case Unsubscribe(id) =>
        UnsubscribeKeepsInv(b, id);
        OpeningAndClosingKeepInv(b, Step(b, l));
      case Publish(evt, order) =>
        if Enumerates(order, Registered(b, evt.name)) {
          PublishKeepsInv(b, evt, order);
        }
    }
  }

  lemma {:induction false} RunKeepsInv(b: Bus, labels: seq<Label>)
    requires Inv(b)
    ensures Inv(Run(b, labels))
    decreases |labels|
  {
    hide Inv, Step;
    if labels != [] {
      StepKeepsInv(b, labels[0]);
      RunKeepsInv(Step(b, labels[0]), labels[1..]);
    }
  }

  // ---- What every interleaving guarantees ----

  /** `a` arises from `b` by leaving elements out. */
  predicate Subsequence<T(==)>(a: seq<T>, b: seq<T>) {
    || a == []
    || (b != [] && (Subsequence(a, b[1..]) || (a[0] == b[0] && Subsequence(a[1..], b[1..]))))
  }

  ghost predicate NoDuplicates<T>(s: seq<T>) {
    forall i, j :: 0 <= i < j < |s| ==> s[i] != s[j]
  }

  lemma {:induction false} SubsequenceReflexive<T>(a: seq<T>)
    ensures Subsequence(a, a)
  {
    if a != [] {
      SubsequenceReflexive(a[1..]);
    }
  }

  lemma {:induction false} SubsequenceMembers<T>(a: seq<T>, b: seq<T>)
    requires Subsequence(a, b)
    ensures forall x :: x in a ==> x in b
    ensures NoDuplicates(b) ==> NoDuplicates(a)
    decreases |b|
  {
    if a != [] {
      assert b == [b[0]] + b[1..];
      if Subsequence(a, b[1..]) {
        SubsequenceMembers(a, b[1..]);
      } else {
        SubsequenceMembers(a[1..], b[1..]);
        assert a == [a[0]] + a[1..];
        if NoDuplicates(b) {
          forall i, j | 0 <= i < j < |a| ensures a[i] != a[j] {
            assert a[j] == a[1..][j - 1] && a[j] in b[1..];
            assert i > 0 ==> a[i] == a[1..][i - 1];
          }
        }
      }
    }
  }

  lemma {:induction false} TakenIsSubsequence(exits: seq<Exit>, rest: seq<Event>)
    ensures Subsequence(TakenEvents(exits) + rest, ExitEvents(exits) + rest)
    decreases |exits|
  {
    hide Subsequence;
    if exits == [] {
      assert TakenEvents(exits) + rest == rest && ExitEvents(exits) + rest == rest;
      SubsequenceReflexive(rest);
    } else {
      var n := |exits| - 1;
      var x := exits[n];
      ExitSnoc(exits[..n], x);
      assert exits == exits[..n] + [x];
      assert ExitEvents(exits) + rest == ExitEvents(exits[..n]) + ([x.evt] + rest);
      TakenIsSubsequence(exits[..n], [x.evt] + rest);
      if x.Taken? {
        assert TakenEvents(exits) + rest == TakenEvents(exits[..n]) + ([x.evt] + rest);
      } else {
        SubsequenceDropsOne(TakenEvents(exits[..n]), x.evt, rest, ExitEvents(exits) + rest);
      }
    }
  }

  lemma {:induction false} SubsequenceDropsOne<T>(a: seq<T>, x: T, rest: seq<T>, b: seq<T>)
    requires Subsequence(a + ([x] + rest), b)
    ensures Subsequence(a + rest, b)
    decreases |b|
  {
    var c := a + ([x] + rest);
    if a + rest != [] {
      if Subsequence(c, b[1..]) {
        SubsequenceDropsOne(a, x, rest, b[1..]);
      } else if a == [] {
        assert c[1..] == rest && a + rest == rest;
      } else {
        assert c[1..] == a[1..] + ([x] + rest) && (a + rest)[1..] == a[1..] + rest;
        SubsequenceDropsOne(a[1..], x, rest, b[1..]);
      }
    }
  }

  ghost predicate Reachable(b: Bus) {
    exists labels :: Run(EmptyBus, labels) == b
  }

  lemma EmptyInv()
    ensures Inv(EmptyBus)
  {
    assert EmptyBus.subs == map[] && EmptyBus.registry == map[];
  }

  lemma ReachableBusInv(b: Bus)
    requires Reachable(b)
    ensures Inv(b)
  {
    hide Inv, Run;
    EmptyInv();
    var labels :| Run(EmptyBus, labels) == b;
    RunKeepsInv(EmptyBus, labels);
  }

  lemma ReachableInv(b: Bus, h: Handle)
    requires Reachable(b) && h in b.subs
    ensures QueueInv(b.subs[h], Pending(b, h)) && DropInv(b.subs[h], Undrained(b, h)) && CallInv(b.subs[h])
  {
    ReachableBusInv(b);
    hide QueueInv, DropInv, CallInv, RegistryInv, PublisherInv, Pending, Undrained;
    assert SubInv(b, h);
  }

  /**
   Whatever the interleaving, nothing published to a subscription is lost but by being
   dropped, and what its consumer took, followed by what is queued, is in publishing
   order and without duplicates.
   */
  lemma DeliveryInOrder(b: Bus, h: Handle)
    requires Reachable(b) && h in b.subs
    ensures var s := b.subs[h];
            && s.published == ExitEvents(s.exits) + s.queue + Pending(b, h)
            && Subsequence(TakenEvents(s.exits) + s.queue + Pending(b, h), s.published)
            && (NoDuplicates(s.published) ==> NoDuplicates(TakenEvents(s.exits) + s.queue))
            && |s.queue| <= 1000
  {
    hide *;
    var s := b.subs[h];
    QueueFacts(b, h);
    var rest := s.queue + Pending(b, h);
    TakenIsSubsequence(s.exits, rest);
    assert s.published == ExitEvents(s.exits) + rest;
    assert TakenEvents(s.exits) + s.queue + Pending(b, h) == TakenEvents(s.exits) + rest;
    SubsequenceMembers(TakenEvents(s.exits) + rest, s.published);
    PrefixHasNoDuplicates(TakenEvents(s.exits) + s.queue, Pending(b, h));
  }

  lemma QueueFacts(b: Bus, h: Handle)
    requires Reachable(b) && h in b.subs
    ensures b.subs[h].published == ExitEvents(b.subs[h].exits) + b.subs[h].queue + Pending(b, h)
    ensures |b.subs[h].queue| <= 1000
  {
    hide Reachable, CallInv, DropInv, Pending, ExitEvents;
    ReachableInv(b, h);
  }

  lemma PrefixHasNoDuplicates<T>(a: seq<T>, more: seq<T>)
    ensures NoDuplicates(a + more) ==> NoDuplicates(a)
  {
    assert forall i :: 0 <= i < |a| ==> (a + more)[i] == a[i];
  }

  function DroppedIn(exits: seq<Exit>): seq<nat> {
    if exits == [] then []
    else
      var n := |exits| - 1;
      DroppedIn(exits[..n]) + (if exits[n].Dropped? then [exits[n].during] else [])
  }

  lemma {:induction false} CountExits(exits: seq<Exit>)
    ensures |exits| == |TakenEvents(exits)| + |DroppedIn(exits)|
    decreases |exits|
  {
    if exits != [] {
      CountExits(exits[..|exits| - 1]);
    }
  }

  /** An event is dropped only in a publish that found the queue full. */
  lemma DropsOnlyOnOverflow(b: Bus, h: Handle, i: nat)
    requires Reachable(b) && h in b.subs && i < |b.subs[h].exits|
    ensures var s := b.subs[h];
            s.exits[i].Dropped? ==> s.exits[i].during in s.overflows && s.exits[i].during <= |s.published|
  {
    ReachableInv(b, h);
  }

  /** One publish drops at most one event, and later publishes drop later. */
  lemma OneDropPerPublish(b: Bus, h: Handle, i: nat, j: nat)
    requires Reachable(b) && h in b.subs && i < j < |b.subs[h].exits|
    ensures var exits := b.subs[h].exits;
            exits[i].Dropped? && exits[j].Dropped? ==> exits[i].during < exits[j].during
  {
    ReachableInv(b, h);
  }

  /** Published events are taken, dropped, queued or on their way. */
  lemma EveryEventIsCounted(b: Bus, h: Handle)
    requires Reachable(b) && h in b.subs
    ensures var s := b.subs[h];
            |s.published| == |TakenEvents(s.exits)| + |DroppedIn(s.exits)| + |s.queue| + |Pending(b, h)|
  {
    QueueFacts(b, h);
    CountExits(b.subs[h].exits);
  }

  /**
   The last `default` of Publish is unreachable: the second attempt to send always
   finds room, so the event being published ends up in the queue, at its end.
   */
  lemma SecondSendNeverFails(b: Bus)
    requires Reachable(b) && b.publisher.Sending? && b.publisher.phase.Resend?
    ensures && b.publisher.todo != [] && b.publisher.todo[0] in b.subs
            && var h := b.publisher.todo[0];
               && |b.subs[h].queue| < QUEUE_SIZE
               && PublisherMoves(b).subs[h].queue == b.subs[h].queue + [b.publisher.evt]
  {
    ReachableBusInv(b);
    hide QueueInv, DropInv, CallInv, RegistryInv;
  }

  lemma {:induction false} CallsAscend(taken: seq<Event>, calls: seq<Call>, closed: bool, k: nat, l: nat)
    requires CallsOk(taken, calls, closed) && k <= l < |calls|
    ensures calls[k].n <= calls[l].n
    ensures calls[k].n == calls[l].n ==> calls[l].attempt == calls[k].attempt + (l - k)
    decreases l
  {
    if k < l {
      CallsAscend(taken, calls, closed, k, l - 1);
      assert Follows(calls[l - 1], calls[l], closed);
    }
  }

  /** All calls made for one taken event are consecutive, for that event, and at most five. */
  lemma OneRunOfCallsPerEvent(b: Bus, h: Handle, k: nat, l: nat)
    requires Reachable(b) && h in b.subs
    requires var calls := b.subs[h].calls;
             k <= l < |calls| && calls[k].n == calls[l].n
    ensures var s := b.subs[h];
            && l - k < 5
            && (forall m :: k <= m <= l ==> s.calls[m].n == s.calls[k].n && s.calls[m].evt == s.calls[k].evt)
            && 0 <= s.calls[k].n < |TakenEvents(s.exits)| && s.calls[k].evt == TakenEvents(s.exits)[s.calls[k].n]
  {
    ReachableInv(b, h);
    var s := b.subs[h];
    var taken := TakenEvents(s.exits);
    CallsAscend(taken, s.calls, s.closed, k, l);
    forall m | k <= m <= l ensures s.calls[m].n == s.calls[k].n && s.calls[m].evt == s.calls[k].evt {
      CallsAscend(taken, s.calls, s.closed, k, m);
      CallsAscend(taken, s.calls, s.closed, m, l);
    }
  }

  lemma {:induction false} CallsReach(taken: seq<Event>, calls: seq<Call>, closed: bool, l: nat, n: nat)
      returns (k: nat)
    requires CallsOk(taken, calls, closed) && l < |calls| && n <= calls[l].n
    ensures k <= l && calls[k].n == n && (k == l || calls[k + 1].n == n + 1)
    decreases l
  {
    if calls[l].n == n {
      k := l;
    } else {
      assert Follows(calls[l - 1], calls[l], closed);
      k := CallsReach(taken, calls, closed, l - 1, n);
    }
  }

  /**
   Delivery is at least once: as long as the subscription is open, an event the
   consumer is done with was called until a call did not fail, or five times.
   */
  lemma OpenSubscriptionsRetry(b: Bus, h: Handle, n: nat) returns (k: nat)
    requires Reachable(b) && h in b.subs && !b.subs[h].closed
    requires var s := b.subs[h];
             n < |TakenEvents(s.exits)| && (n + 1 < |TakenEvents(s.exits)| || s.consumer.Waiting?)
    ensures var s := b.subs[h];
            && k < |s.calls| && s.calls[k].n == n
            && (!s.calls[k].outcome.Fail? || s.calls[k].attempt == 5)
  {
    ReachableInv(b, h);
    var s := b.subs[h];
    var last := |s.calls| - 1;
    k := CallsReach(TakenEvents(s.exits), s.calls, s.closed, last, n);
    assert k < last ==> Follows(s.calls[k], s.calls[k + 1], s.closed);
  }

  /**
   A finished event of an open subscription was called in vain up to its last call.  It
   ended before the fifth call and without success if and only if a call panicked.
   */
  lemma PanicEndsDelivery(b: Bus, h: Handle, n: nat) returns (k: nat)
    requires Reachable(b) && h in b.subs && !b.subs[h].closed
    requires var s := b.subs[h];
             n < |TakenEvents(s.exits)| && (n + 1 < |TakenEvents(s.exits)| || s.consumer.Waiting?)
    ensures var calls := b.subs[h].calls;
            && k < |calls| && calls[k].n == n
            && (forall m :: 0 <= m < |calls| && calls[m].n == n && m != k ==> m < k && calls[m].outcome.Fail?)
            && (calls[k].attempt < 5 && !calls[k].outcome.Ok?
                <==> calls[k].attempt < 5 && exists m :: 0 <= m < |calls| && calls[m].n == n && calls[m].outcome.Panic?)
  {
    ReachableInv(b, h);
    var s := b.subs[h];
    var taken, last := TakenEvents(s.exits), |s.calls| - 1;
    k := CallsReach(taken, s.calls, s.closed, last, n);
    assert k < last ==> Follows(s.calls[k], s.calls[k + 1], s.closed);
    forall m | 0 <= m < |s.calls| && s.calls[m].n == n && m != k ensures m < k && s.calls[m].outcome.Fail? {
      OthersFailed(taken, s.calls, s.closed, k, m);
    }
  }

  lemma OthersFailed(taken: seq<Event>, calls: seq<Call>, closed: bool, k: nat, m: nat)
    requires CallsOk(taken, calls, closed) && k < |calls| && m < |calls| && m != k && calls[m].n == calls[k].n
    requires k + 1 < |calls| ==> calls[k + 1].n == calls[k].n + 1
    ensures m < k && calls[m].outcome.Fail?
  {
    if k < m {
      CallsAscend(taken, calls, closed, k + 1, m);
    } else {
      CallsAscend(taken, calls, closed, m, m + 1);
      CallsAscend(taken, calls, closed, m + 1, k);
      assert Follows(calls[m], calls[m + 1], closed);
    }
  }

  // ---- Subscribing and unsubscribing ----

  lemma {:induction false} EnrolledExactly(registry: map<string, map<string, Handle>>, id: string, events: seq<string>,
                                           h: Handle, name: string)
    ensures Lookup(Enrolled(registry, id, events, h), name)
         == if name in events then Lookup(registry, name)[id := h] else Lookup(registry, name)
    decreases |events|
  {
    if events != [] {
      assert events == [events[0]] + events[1..];
      EnrolledExactly(registry[events[0] := Lookup(registry, events[0])[id := h]], id, events[1..], h, name);
    }
  }

  /** OldOf finds the id's subscription to the first listed event that has one. */
  lemma {:induction false} OldOfIsFirst(b: Bus, id: string, events: seq<string>)
    ensures match OldOf(b, id, events)
            case None => forall e :: e in events ==> id !in Registered(b, e)
            case Some(h) => exists i :: 0 <= i < |events| && id in Registered(b, events[i]) && Registered(b, events[i])[id] == h
                              && forall k :: 0 <= k < i ==> id !in Registered(b, events[k])
  {
    if events != [] {
      assert events == [events[0]] + events[1..];
      OldOfIsFirst(b, id, events[1..]);
      if OldOf(b, id, events).Some? && id !in Registered(b, events[0]) {
        var i :| 0 <= i < |events[1..]| && id in Registered(b, events[1..][i])
                 && Registered(b, events[1..][i])[id] == OldOf(b, id, events).value
                 && forall k :: 0 <= k < i ==> id !in Registered(b, events[1..][k]);
        assert events[i + 1] == events[1..][i];
        assert forall k :: 0 < k < i + 1 ==> events[k] == events[1..][k - 1];
      }
    }
  }

  /**
   Subscribe opens exactly one subscription, under a new handle, closes exactly the old
   one it finds, if any, and registers the new handle for exactly the listed events.
   */
  lemma SubscribeOpens(b: Bus, id: string, events: seq<string>)
    requires Inv(b) && b.publisher.Idle?
    ensures var c := Step(b, Subscribe(id, events));
            && b.next !in b.subs && c.subs.Keys == b.subs.Keys + {b.next}
            && c.subs[b.next] == Subscription(id, [], false, Waiting, [], [], [], {})
            && (forall h :: h in b.subs ==>
                  c.subs[h] == if OldOf(b, id, events) == Some(h) then b.subs[h].(closed := true) else b.subs[h])
            && (forall e :: Registered(c, e) == if e in events then Registered(b, e)[id := b.next] else Registered(b, e))
  {
    hide OldOf, Enrolled;
    var c := DoSubscribe(b, id, events);
    assert c.subs.Keys == b.subs.Keys + {b.next};
    forall e ensures Registered(c, e) == if e in events then Registered(b, e)[id := b.next] else Registered(b, e) {
      EnrolledExactly(b.registry, id, events, b.next, e);
    }
  }

  /** The id has subscribed to some event under this handle. */
  ghost predicate Uses(b: Bus, id: string, h: Handle) {
    exists e :: id in Registered(b, e) && Registered(b, e)[id] == h
  }

  /** Unsubscribe closes exactly the id's subscriptions and strikes the id from the registry. */
  lemma UnsubscribeCloses(b: Bus, id: string)
    requires b.publisher.Idle?
    ensures var c := Step(b, Unsubscribe(id));
            && c.subs.Keys == b.subs.Keys
            && (forall h :: h in b.subs ==>
                  c.subs[h] == if Uses(b, id, h) then b.subs[h].(closed := true) else b.subs[h])
            && (forall e :: Registered(c, e) == Registered(b, e) - {id})
  {
    var c := DoUnsubscribe(b, id);
    forall h ensures h in HandlesOf(b, id) <==> Uses(b, id, h) {
      if h in HandlesOf(b, id) {
        var e :| e in b.registry && id in b.registry[e] && b.registry[e][id] == h;
        assert id in Registered(b, e);
      }
    }
    assert c.subs.Keys == b.subs.Keys;
    forall e ensures Registered(c, e) == Registered(b, e) - {id} {
      if e in b.registry && b.registry[e] - {id} == map[] {
        assert e !in c.registry;
      }
    }
  }

  /** A handle is registered under the id of its subscription only. */
  ghost predicate OwnIds(b: Bus) {
    forall e, i :: i in Registered(b, e) ==> Registered(b, e)[i] in b.subs && b.subs[Registered(b, e)[i]].id == i
  }

  /** What no step but Subscribe and Unsubscribe changes. */
  lemma OtherStepsKeepRegistry(b: Bus, l: Label)
    requires Inv(b) && !l.Subscribe? && !l.Unsubscribe?
    ensures var c := Step(b, l);
            && c.registry == b.registry && c.subs.Keys == b.subs.Keys
            && forall h :: h in b.subs ==> c.subs[h].id == b.subs[h].id && c.subs[h].closed == b.subs[h].closed
  {
    hide SubInv, RegistryInv;
  }

  lemma SameRegistry(b: Bus, c: Bus)
    requires c.registry == b.registry
    ensures forall e :: Registered(c, e) == Registered(b, e)
  {
  }

  lemma OtherStepsKeepOwnIds(b: Bus, l: Label)
    requires Inv(b) && OwnIds(b) && !l.Subscribe? && !l.Unsubscribe?
    ensures OwnIds(Step(b, l))
  {
    hide Step, Inv, Registered;
    OtherStepsKeepRegistry(b, l);
    SameRegistry(b, Step(b, l));
  }

  lemma SubscribeKeepsOwnIds(b: Bus, id: string, events: seq<string>)
    requires Inv(b) && OwnIds(b) && b.publisher.Idle?
    ensures OwnIds(Step(b, Subscribe(id, events)))
  {
    hide Step, Inv, Registered, OldOf;
    SubscribeOpens(b, id, events);
    var c := Step(b, Subscribe(id, events));
    forall e, i | i in Registered(c, e) ensures Registered(c, e)[i] in c.subs && c.subs[Registered(c, e)[i]].id == i {
      assert i in Registered(b, e) ==> Registered(b, e)[i] in b.subs;
    }
  }

  lemma UnsubscribeKeepsOwnIds(b: Bus, id: string)
    requires OwnIds(b) && b.publisher.Idle?
    ensures OwnIds(Step(b, Unsubscribe(id)))
  {
    hide Step, Registered, Uses;
    UnsubscribeCloses(b, id);
    var c := Step(b, Unsubscribe(id));
    forall e, i | i in Registered(c, e) ensures Registered(c, e)[i] in c.subs && c.subs[Registered(c, e)[i]].id == i {
      assert i in Registered(b, e) && Registered(b, e)[i] in b.subs;
    }
  }

  lemma BusyIgnores(b: Bus, l: Label)
    requires !b.publisher.Idle? && (l.Subscribe? || l.Unsubscribe?)
    ensures Step(b, l) == b
  {
  }

  lemma StepKeepsOwnIds(b: Bus, l: Label)
    requires Inv(b) && OwnIds(b)
    ensures OwnIds(Step(b, l))
  {
    hide Step, Inv, OwnIds;
    if !l.Subscribe? && !l.Unsubscribe? {
      OtherStepsKeepOwnIds(b, l);
    } else if !b.publisher.Idle? {
      BusyIgnores(b, l);
    } else if l.Subscribe? {
      SubscribeKeepsOwnIds(b, l.id, l.events);
    } else {
      UnsubscribeKeepsOwnIds(b, l.id);
    }
  }

  lemma {:induction false} RunKeepsOwnIds(b: Bus, labels: seq<Label>)
    requires Inv(b) && OwnIds(b)
    ensures OwnIds(Run(b, labels))
    decreases |labels|
  {
    hide Inv, OwnIds, Step;
    if labels != [] {
      StepKeepsInv(b, labels[0]);
      StepKeepsOwnIds(b, labels[0]);
      RunKeepsOwnIds(Step(b, labels[0]), labels[1..]);
    }
  }

  /** No publish can reach the handle any more. */
  ghost predicate Detached(b: Bus, h: Handle) {
    && h in b.subs && b.subs[h].closed
    && (forall e, i :: i in Registered(b, e) ==> Registered(b, e)[i] != h)
    && (b.publisher.Sending? ==> h !in b.publisher.todo)
  }

  lemma OtherStepsKeepDetached(b: Bus, l: Label, h: Handle)
    requires Inv(b) && Detached(b, h) && !l.Subscribe? && !l.Unsubscribe?
    ensures var c := Step(b, l);
            && h in c.subs && c.subs[h].published == b.subs[h].published
            && (c.publisher.Sending? ==> h !in c.publisher.todo)
  {
    hide SubInv, RegistryInv;
    if l.Publish? && Enumerates(l.order, Registered(b, l.evt.name)) {
      OrderIsRegistered(l.order, Registered(b, l.evt.name), h);
    }
  }

  lemma OrderIsRegistered(order: seq<Handle>, m: map<string, Handle>, h: Handle)
    requires Enumerates(order, m)
    ensures h in order ==> exists i :: i in m && m[i] == h
  {
    assert h in order ==> h in (set k | k in order);
    assert h in order ==> h in m.Values;
  }

  lemma SubscribeKeepsDetached(b: Bus, id: string, events: seq<string>, h: Handle)
    requires Inv(b) && Detached(b, h) && b.publisher.Idle?
    ensures var c := Step(b, Subscribe(id, events)); Detached(c, h) && c.subs[h].published == b.subs[h].published
  {
    hide Step, Inv, Registered, OldOf;
    SubscribeOpens(b, id, events);
    SubscribingSendsNothing(b, Subscribe(id, events));
    var c := Step(b, Subscribe(id, events));
    forall e, i | i in Registered(c, e) ensures Registered(c, e)[i] != h {
      assert i in Registered(b, e) ==> Registered(b, e)[i] != h;
    }
  }

  lemma UnsubscribeKeepsDetached(b: Bus, id: string, h: Handle)
    requires Detached(b, h) && b.publisher.Idle?
    ensures var c := Step(b, Unsubscribe(id)); Detached(c, h) && c.subs[h].published == b.subs[h].published
  {
    hide Step, Registered, Uses;
    UnsubscribeCloses(b, id);
    SubscribingSendsNothing(b, Unsubscribe(id));
    var c := Step(b, Unsubscribe(id));
    forall e, i | i in Registered(c, e) ensures Registered(c, e)[i] != h {
      assert i in Registered(b, e) && Registered(b, e)[i] != h;
    }
  }

  lemma RestKeepsDetached(b: Bus, l: Label, h: Handle)
    requires Inv(b) && Detached(b, h) && !l.Subscribe? && !l.Unsubscribe?
    ensures var c := Step(b, l); Detached(c, h) && c.subs[h].published == b.subs[h].published
  {
    hide Step, Inv, Registered;
    OtherStepsKeepRegistry(b, l);
    SameRegistry(b, Step(b, l));
    OtherStepsKeepDetached(b, l, h);
  }

  lemma StepKeepsDetached(b: Bus, l: Label, h: Handle)
    requires Inv(b) && Detached(b, h)
    ensures Detached(Step(b, l), h) && Step(b, l).subs[h].published == b.subs[h].published
  {
    assert h in b.subs;
    hide Step, Inv, Detached;
    if !l.Subscribe? && !l.Unsubscribe? {
      RestKeepsDetached(b, l, h);
    } else if !b.publisher.Idle? {
      BusyIgnores(b, l);
    } else if l.Subscribe? {
      SubscribeKeepsDetached(b, l.id, l.events, h);
    } else {
      UnsubscribeKeepsDetached(b, l.id, h);
    }
  }

  lemma SubscribingSendsNothing(b: Bus, l: Label)
    requires b.publisher.Idle? && (l.Subscribe? || l.Unsubscribe?)
    ensures Step(b, l).publisher.Idle?
  {
  }

  lemma {:induction false} RunKeepsDetached(b: Bus, labels: seq<Label>, h: Handle)
    requires Inv(b) && Detached(b, h)
    ensures Detached(Run(b, labels), h) && Run(b, labels).subs[h].published == b.subs[h].published
    decreases |labels|
  {
    hide Inv, Detached, Step;
    if labels != [] {
      StepKeepsInv(b, labels[0]);
      StepKeepsDetached(b, labels[0], h);
      RunKeepsDetached(Step(b, labels[0]), labels[1..], h);
    }
  }

  /** After Unsubscribe nothing published later reaches the closed subscriptions, subscribing again included. */
  lemma UnsubscribedHearNothing(before: seq<Label>, id: string, later: seq<Label>, h: Handle)
    requires var b := Run(EmptyBus, before); b.publisher.Idle? && h in b.subs && Uses(b, id, h)
    ensures var b := Run(EmptyBus, before);
            var c := Run(Step(b, Unsubscribe(id)), later);
            h in c.subs && c.subs[h].closed && c.subs[h].published == b.subs[h].published
  {
    var b := Run(EmptyBus, before);
    EmptyInv();
    assert OwnIds(EmptyBus);
    RunKeepsInv(EmptyBus, before);
    RunKeepsOwnIds(EmptyBus, before);
    StepKeepsInv(b, Unsubscribe(id));
    hide Run, Inv, Step;
    UnsubscribeCloses(b, id);
    var c := Step(b, Unsubscribe(id));
    SubscribingSendsNothing(b, Unsubscribe(id));
    forall e, i | i in Registered(c, e) ensures Registered(c, e)[i] != h {
      var e' :| id in Registered(b, e') && Registered(b, e')[id] == h;
    }
    assert Detached(c, h);
    RunKeepsDetached(c, later, h);
  }

  // ---- Publishing reaches everybody ----

  /** Every label is taken while the publisher is at work. */
  ghost predicate Busy(b: Bus, labels: seq<Label>)
    decreases |labels|
  {
    labels == [] || (b.publisher.Sending? && Busy(Step(b, labels[0]), labels[1..]))
  }

  /** While the publisher is at work nobody subscribes, and nothing else is published. */
  lemma BusyStep(b: Bus, l: Label)
    requires Inv(b) && b.publisher.Sending?
    ensures var c := Step(b, l);
            && c.registry == b.registry && c.subs.Keys == b.subs.Keys
            && forall h :: h in b.subs ==> c.subs[h].published == b.subs[h].published
  {
    hide SubInv, RegistryInv;
  }

  lemma {:induction false} BusyRun(b: Bus, labels: seq<Label>)
    requires Inv(b) && Busy(b, labels)
    ensures var d := Run(b, labels);
            && d.registry == b.registry && d.subs.Keys == b.subs.Keys
            && forall h :: h in b.subs ==> d.subs[h].published == b.subs[h].published
    decreases |labels|
  {
    hide Inv, Step;
    if labels != [] {
      StepKeepsInv(b, labels[0]);
      BusyStep(b, labels[0]);
      BusyRun(Step(b, labels[0]), labels[1..]);
    }
  }

  /** The n-th event published to the subscription is `evt`, and it was taken or dropped, or is queued. */
  predicate Got(s: Subscription, n: nat, evt: Event) {
    if n < |s.exits| then s.exits[n].evt == evt
    else n - |s.exits| < |s.queue| && s.queue[n - |s.exits|] == evt
  }

  lemma WhatIsPublishedIsGot(s: Subscription, n: nat)
    requires s.published == ExitEvents(s.exits) + s.queue && n < |s.published|
    ensures Got(s, n, s.published[n])
  {
  }

  /** Some id has subscribed to the event under this handle. */
  ghost predicate Listens(b: Bus, name: string, h: Handle) {
    exists id :: id in Registered(b, name) && Registered(b, name)[id] == h
  }

  lemma PublishReaches(b: Bus, evt: Event, order: seq<Handle>, busy: seq<Label>, h: Handle)
    requires Inv(b) && b.publisher.Idle? && h in b.subs
    requires var c := Step(b, Publish(evt, order)); c.publisher.Sending? && Busy(c, busy) && Run(c, busy).publisher.Idle?
    ensures var d := Run(Step(b, Publish(evt, order)), busy);
            && d.registry == b.registry && d.subs.Keys == b.subs.Keys
            && d.subs[h].published == b.subs[h].published + (if Listens(b, evt.name, h) then [evt] else [])
            && (Listens(b, evt.name, h) ==> Got(d.subs[h], |b.subs[h].published|, evt))
  {
    hide *;
    var c := Step(b, Publish(evt, order));
    var d := Run(c, busy);
    StepKeepsInv(b, Publish(evt, order));
    RunKeepsInv(c, busy);
    BusyRun(c, busy);
    PublishedTo(b, evt, order);
    assert h in c.subs.Keys && h in d.subs.Keys;
    NothingPending(d, h);
    if Listens(b, evt.name, h) {
      WhatIsPublishedIsGot(d.subs[h], |b.subs[h].published|);
    }
  }

  /**
   A publish reaches every subscription the registry has for the event, and no other.
   `busy` is whatever happens until the publisher is idle again: consumers at work, other
   callers waiting for the mutex.
   */
  lemma EveryPublishReachesAll(before: seq<Label>, evt: Event, order: seq<Handle>, busy: seq<Label>, h: Handle)
    requires var b := Run(EmptyBus, before);
             var c := Step(b, Publish(evt, order));
             b.publisher.Idle? && h in b.subs && c.publisher.Sending? && Busy(c, busy) && Run(c, busy).publisher.Idle?
    ensures var b := Run(EmptyBus, before);
            var d := Run(Step(b, Publish(evt, order)), busy);
            && d.registry == b.registry && d.subs.Keys == b.subs.Keys
            && d.subs[h].published == b.subs[h].published + (if Listens(b, evt.name, h) then [evt] else [])
            && (Listens(b, evt.name, h) ==> Got(d.subs[h], |b.subs[h].published|, evt))
  {
    hide *;
    EmptyInv();
    RunKeepsInv(EmptyBus, before);
    PublishReaches(Run(EmptyBus, before), evt, order, busy, h);
  }

  lemma NothingPending(b: Bus, h: Handle)
    requires Inv(b) && b.publisher.Idle? && h in b.subs
    ensures b.subs[h].published == ExitEvents(b.subs[h].exits) + b.subs[h].queue
  {
    assert SubInv(b, h);
    hide ExitEvents, DropInv, CallInv;
    assert ExitEvents(b.subs[h].exits) + b.subs[h].queue + [] == ExitEvents(b.subs[h].exits) + b.subs[h].queue;
  }

  lemma PublishedTo(b: Bus, evt: Event, order: seq<Handle>)
    requires Inv(b) && b.publisher.Idle? && Step(b, Publish(evt, order)).publisher.Sending?
    ensures var c := Step(b, Publish(evt, order));
            && c.registry == b.registry && c.subs.Keys == b.subs.Keys
            && forall h :: h in b.subs ==>
                 c.subs[h].published == b.subs[h].published + if Listens(b, evt.name, h) then [evt] else []
  {
    hide SubInv, RegistryInv, Registered;
    var m := Registered(b, evt.name);
    forall h ensures h in order <==> Listens(b, evt.name, h) {
      assert h in order <==> h in (set k | k in order);
      assert h in m.Values <==> exists id :: id in m && m[id] == h;
    }
  }

  /** Handles can be enumerated when no two ids share one. */
  lemma SomeEnumeration(m: map<string, Handle>) returns (order: seq<Handle>)
    requires forall i, j :: i in m && j in m && m[i] == m[j] ==> i == j
    ensures Enumerates(order, m)
    decreases |m|
  {
    order := [];
    if m != map[] {
      var id :| id in m;
      var rest := m - {id};
      assert |rest| < |m| by {
        assert rest.Keys == m.Keys - {id};
      }
      var some := SomeEnumeration(rest);
      assert forall h :: h in some <==> h in (set k | k in some);
      order := some + [m[id]];
      forall h ensures h in m.Values <==> h in (set k | k in order) {
        assert h in rest.Values <==> h in some;
        assert h in order <==> h in some || h == m[id];
        if h in m.Values {
          var j :| j in m && m[j] == h;
          assert j != id ==> j in rest && rest[j] == h;
        }
      }
      forall i, j | 0 <= i < j < |order| ensures order[i] != order[j] {
        assert order[i] in some;
        assert order[i] in rest.Values;
      }
    }
  }

  /** Whenever the mutex is free, an event can be published: there is an order to send in. */
  lemma PublishIsPossible(before: seq<Label>, evt: Event) returns (order: seq<Handle>)
    requires Run(EmptyBus, before).publisher.Idle?
    ensures Step(Run(EmptyBus, before), Publish(evt, order)).publisher.Sending?
  {
    var b := Run(EmptyBus, before);
    EmptyInv();
    assert OwnIds(EmptyBus);
    RunKeepsOwnIds(EmptyBus, before);
    hide Run, Inv;
    var m := Registered(b, evt.name);
    forall i, j | i in m && j in m && m[i] == m[j] ensures i == j {
      assert b.subs[m[i]].id == i && b.subs[m[j]].id == j;
    }
    order := SomeEnumeration(m);
  }

  /** How far the publisher is from being done. */
  function Ahead(p: Publisher): nat {
    match p
    case Idle => 0
    case Sending(_, todo, phase) => 3 * |todo| + (if phase.TrySend? then 3 else if phase.Drain? then 2 else 1)
  }

  /** And the publisher, once it has begun, comes to its end by its own steps. */
  lemma {:induction false} PublisherFinishes(b: Bus) returns (steps: seq<Label>)
    requires Inv(b)
    ensures Run(b, steps).publisher.Idle? && |steps| <= Ahead(b.publisher)
    ensures Busy(b, steps) && forall i :: 0 <= i < |steps| ==> steps[i] == PublisherStep
    decreases Ahead(b.publisher)
  {
    steps := [];
    if b.publisher.Sending? {
      var c := Step(b, PublisherStep);
      PublisherAdvances(b);
      StepKeepsInv(b, PublisherStep);
      hide Inv, Step, Ahead;
      var rest := PublisherFinishes(c);
      steps := [PublisherStep] + rest;
      assert steps[1..] == rest;
    }
  }

  lemma PublisherAdvances(b: Bus)
    requires Inv(b) && b.publisher.Sending?
    ensures Ahead(Step(b, PublisherStep).publisher) < Ahead(b.publisher)
  {
    hide SubInv, RegistryInv;
  }

  // ---- Consumers left alone ----

  /** What the consumer does next, if it is not told to stop; `outcome` is what the handler will do. */
  function NextMove(s: Subscription, h: Handle, outcome: Outcome): Label {
    match s.consumer
    case Delivering(_, _) => CallHandler(h, outcome)
    case BackingOff(_, _) => WakeUp(h)
    case _ => Take(h)
  }

  function Left(s: Subscription): nat {
    12 * |s.queue|
    + match s.consumer
      case Delivering(_, attempt) => if attempt < 5 then 12 - 2 * attempt else 2
      case BackingOff(_, attempt) => if attempt < 5 then 11 - 2 * attempt else 1
      case _ => 0
  }

  ghost predicate MovesOf(labels: seq<Label>, h: Handle) {
    forall i :: 0 <= i < |labels| ==> OfConsumer(labels[i]) && labels[i].h == h
  }

  lemma MovesTo(b: Bus, l: Label)
    requires OfConsumer(l) && l.h in b.subs
    ensures Step(b, l).subs == b.subs[l.h := ConsumerMoves(b.subs[l.h], l)]
  {
  }

  lemma MoveAdvances(s: Subscription, h: Handle, outcome: Outcome)
    requires CallInv(s) && !s.consumer.Gone? && !(s.consumer.Waiting? && s.queue == [])
    ensures var t := ConsumerMoves(s, NextMove(s, h, outcome));
            && Left(t) < Left(s) && !t.consumer.Gone? && t.closed == s.closed
            && TakenEvents(t.exits) + t.queue == TakenEvents(s.exits) + s.queue
  {
    hide CallsOk;
    if s.consumer.Waiting? {
      var t := TakenFrom(s);
      assert t.exits[..|s.exits|] == s.exits;
      assert TakenEvents(t.exits) == TakenEvents(s.exits) + [s.queue[0]];
      assert s.queue == [s.queue[0]] + t.queue;
    }
  }

  lemma OneMove(b: Bus, h: Handle, outcome: Outcome)
    requires Inv(b) && h in b.subs && !b.subs[h].consumer.Gone?
    requires !(b.subs[h].consumer.Waiting? && b.subs[h].queue == [])
    ensures var l := NextMove(b.subs[h], h, outcome);
            var c := Step(b, l);
            && OfConsumer(l) && l.h == h && Inv(c) && h in c.subs
            && Left(c.subs[h]) < Left(b.subs[h]) && !c.subs[h].consumer.Gone? && c.subs[h].closed == b.subs[h].closed
            && TakenEvents(c.subs[h].exits) + c.subs[h].queue == TakenEvents(b.subs[h].exits) + b.subs[h].queue
  {
    var l := NextMove(b.subs[h], h, outcome);
    assert SubInv(b, h);
    hide Inv, QueueInv, DropInv, CallInv, Step, ConsumerMoves, Left, TakenEvents;
    MoveAdvances(b.subs[h], h, outcome);
    MovesTo(b, l);
    StepKeepsInv(b, l);
  }

  lemma RunCons(b: Bus, l: Label, rest: seq<Label>)
    ensures Run(b, [l] + rest) == Run(Step(b, l), rest)
  {
    assert ([l] + rest)[1..] == rest;
  }

  /**
   Left alone, the consumer takes every queued event, in order, and is done with all of
   them, whatever its handler does; `outcome(n)` is what it does at the n-th step from here.
   */
  lemma {:induction false} QueuedEventsAreDelivered(b: Bus, h: Handle, outcome: nat -> Outcome, n: nat) returns (moves: seq<Label>)
    requires Inv(b) && h in b.subs && !b.subs[h].consumer.Gone?
    ensures MovesOf(moves, h) && h in Run(b, moves).subs
    ensures var t := Run(b, moves).subs[h];
            && t.consumer.Waiting? && t.queue == [] && t.closed == b.subs[h].closed
            && TakenEvents(t.exits) == TakenEvents(b.subs[h].exits) + b.subs[h].queue
    decreases Left(b.subs[h])
  {
    hide Inv, Step, Left, TakenEvents, NextMove, OfConsumer;
    var s := b.subs[h];
    moves := [];
    if s.consumer.Waiting? && s.queue == [] {
      assert TakenEvents(s.exits) + s.queue == TakenEvents(s.exits);
    } else {
      hide Run;
      OneMove(b, h, outcome(n));
      var l := NextMove(s, h, outcome(n));
      var rest := QueuedEventsAreDelivered(Step(b, l), h, outcome, n + 1);
      RunCons(b, l, rest);
      moves := [l] + rest;
    }
  }

  /** A closed subscription's consumer can end at once: at most the call it is at is still made. */
  lemma ClosedConsumersCanQuit(b: Bus, h: Handle, outcome: Outcome) returns (moves: seq<Label>)
    requires h in b.subs && b.subs[h].closed
    ensures |moves| <= 3 && MovesOf(moves, h) && h in Run(b, moves).subs
    ensures var t := Run(b, moves).subs[h];
            t.consumer.Gone? && t.exits == b.subs[h].exits && t.queue == b.subs[h].queue
  {
    moves := [];
    var c := b;
    if c.subs[h].consumer.Delivering? {
      moves := [CallHandler(h, outcome)];
      c := Step(c, CallHandler(h, outcome));
      RunOne(b, [], CallHandler(h, outcome));
    }
    if c.subs[h].consumer.BackingOff? {
      RunOne(b, moves, GiveUp(h));
      moves := moves + [GiveUp(h)];
      c := Step(c, GiveUp(h));
    }
    if c.subs[h].consumer.Waiting? {
      RunOne(b, moves, Quit(h));
      moves := moves + [Quit(h)];
      c := Step(c, Quit(h));
    }
  }

  lemma {:induction false} RunOne(b: Bus, labels: seq<Label>, l: Label)
    ensures Run(b, labels + [l]) == Step(Run(b, labels), l)
    decreases |labels|
  {
    hide Step;
    if labels == [] {
      assert [] + [l] == [l] && [l][1..] == [];
    } else {
      assert (labels + [l])[1..] == labels[1..] + [l];
      RunOne(Step(b, labels[0]), labels[1..], l);
    }
  }

  /** A consumer that has ended makes no call and takes no event; one ends only when its subscription is closed. */
  ghost predicate GoneOnlyIfClosed(b: Bus) {
    forall h :: h in b.subs && b.subs[h].consumer.Gone? ==> b.subs[h].closed
  }

  /** What happens to a subscription whose consumer has ended. */
  ghost predicate StaysGone(s: Subscription, t: Subscription) {
    s.consumer.Gone? ==> t.consumer.Gone? && t.calls == s.calls && TakenEvents(t.exits) == TakenEvents(s.exits)
  }

  lemma MovesKeepGone(s: Subscription, l: Label)
    requires OfConsumer(l) && (s.consumer.Gone? ==> s.closed)
    ensures StaysGone(s, ConsumerMoves(s, l)) && (ConsumerMoves(s, l).consumer.Gone? ==> ConsumerMoves(s, l).closed)
  {
    hide TakenEvents;
  }

  lemma PublisherKeepsGone(b: Bus, h: Handle)
    requires h in b.subs
    ensures var t := PublisherMoves(b).subs;
            && h in t && StaysGone(b.subs[h], t[h]) && t[h].consumer == b.subs[h].consumer && t[h].closed == b.subs[h].closed
  {
    hide TakenEvents;
    DroppingTakesNothing(b.subs[h]);
  }

  lemma CallersKeepGone(b: Bus, l: Label, h: Handle)
    requires !OfConsumer(l) && !l.PublisherStep? && RegistryInv(b) && h in b.subs
    ensures var t := Step(b, l).subs;
            && h in t && StaysGone(b.subs[h], t[h]) && t[h].consumer == b.subs[h].consumer
            && (b.subs[h].closed ==> t[h].closed)
  {
    hide TakenEvents, OldOf, Enrolled, Registered, Enumerates;
  }

  lemma NewcomersWait(b: Bus, l: Label, h: Handle)
    requires h !in b.subs && h in Step(b, l).subs
    ensures Step(b, l).subs[h].consumer.Waiting?
  {
    hide OldOf, Enrolled, Registered, Enumerates;
  }

  lemma StepKeepsGone(b: Bus, l: Label)
    requires Inv(b) && GoneOnlyIfClosed(b)
    ensures GoneOnlyIfClosed(Step(b, l))
    ensures forall h :: h in b.subs ==> h in Step(b, l).subs && StaysGone(b.subs[h], Step(b, l).subs[h])
  {
    assert RegistryInv(b);
    hide Inv, RegistryInv, StaysGone, ConsumerMoves, PublisherMoves;
    var c := Step(b, l);
    forall h | h in b.subs
      ensures h in c.subs && StaysGone(b.subs[h], c.subs[h]) && (c.subs[h].consumer.Gone? ==> c.subs[h].closed)
    {
      OneKeepsGone(b, l, h);
    }
    forall h | h in c.subs && h !in b.subs ensures c.subs[h].consumer.Waiting? {
      NewcomersWait(b, l, h);
    }
    hide Step;
  }

  lemma OneKeepsGone(b: Bus, l: Label, h: Handle)
    requires RegistryInv(b) && h in b.subs && (b.subs[h].consumer.Gone? ==> b.subs[h].closed)
    ensures var t := Step(b, l).subs;
            h in t && StaysGone(b.subs[h], t[h]) && (t[h].consumer.Gone? ==> t[h].closed)
  {
    hide RegistryInv, ConsumerMoves, PublisherMoves, Enumerates, Registered, DoSubscribe, DoUnsubscribe, DoPublish, TakenEvents;
    if OfConsumer(l) {
      MovesKeepGone(b.subs[h], l);
    } else if l.PublisherStep? {
      PublisherKeepsGone(b, h);
    } else {
      CallersKeepGone(b, l, h);
    }
  }

  lemma DroppingTakesNothing(s: Subscription)
    ensures TakenEvents(Drained(s).exits) == TakenEvents(s.exits)
  {
    if s.queue != [] {
      assert Drained(s).exits[..|s.exits|] == s.exits;
    }
  }

  lemma {:induction false} RunKeepsGone(b: Bus, labels: seq<Label>)
    requires Inv(b) && GoneOnlyIfClosed(b)
    ensures GoneOnlyIfClosed(Run(b, labels))
    ensures forall h :: h in b.subs ==> h in Run(b, labels).subs && StaysGone(b.subs[h], Run(b, labels).subs[h])
    decreases |labels|
  {
    hide Inv, Step, TakenEvents;
    if labels != [] {
      StepKeepsInv(b, labels[0]);
      StepKeepsGone(b, labels[0]);
      RunKeepsGone(Step(b, labels[0]), labels[1..]);
    }
  }

  lemma ConsumersEndOnlyWhenClosed(before: seq<Label>, later: seq<Label>, h: Handle)
    requires h in Run(EmptyBus, before).subs && Run(EmptyBus, before).subs[h].consumer.Gone?
    ensures Run(EmptyBus, before).subs[h].closed
    ensures var s, t := Run(EmptyBus, before).subs[h], Run(Run(EmptyBus, before), later).subs;
            h in t && t[h].consumer.Gone? && t[h].calls == s.calls && TakenEvents(t[h].exits) == TakenEvents(s.exits)
  {
    EmptyInv();
    RunKeepsInv(EmptyBus, before);
    RunKeepsGone(EmptyBus, before);
    RunKeepsGone(Run(EmptyBus, before), later);
  }

  // ---- The loops of the program ----

  function Power4(k: nat): nat {
    if k == 0 then 1 else 4 * Power4(k - 1)
  }

  /**
   deliverWithRetry: `outcome(k)` is what the handler does at attempt `k`, `closes(k)`
   whether the subscription closes during the pause after it; `pauses` are in seconds.
   */
  method DeliverWithRetry(outcome: nat -> Outcome, closes: nat -> bool) returns (attempts: nat, pauses: seq<nat>)
    ensures 1 <= attempts <= 5
    ensures forall k: nat :: 1 <= k < attempts ==> outcome(k).Fail? && !closes(k)
    ensures attempts == 5 || !outcome(attempts).Fail? || closes(attempts)
    ensures attempts - 1 <= |pauses| <= attempts
    ensures |pauses| == attempts <==> attempts < 5 && outcome(attempts).Fail?
    ensures |pauses| <= 4 && pauses == [1, 4, 16, 64][..|pauses|]
  {
    var delay := 1;
    attempts, pauses := 1, [];
    while attempts <= MAX_ATTEMPTS
      invariant 1 <= attempts <= MAX_ATTEMPTS
      invariant |pauses| == attempts - 1 && delay == Power4(attempts - 1)
      invariant forall k: nat :: 1 <= k < attempts ==> outcome(k).Fail? && !closes(k)
      invariant forall k :: 0 <= k < |pauses| ==> pauses[k] == Power4(k)
      decreases MAX_ATTEMPTS - attempts
    {
      assert Power4(0) == 1 && Power4(1) == 4 && Power4(2) == 16 && Power4(3) == 64;
      if outcome(attempts) != Fail || attempts == MAX_ATTEMPTS {
        return;
      }
      pauses := pauses + [delay];
      if closes(attempts) {
        return;
      }
      delay := delay * 4;
      attempts := attempts + 1;
    }
  }

  /** What an uninterrupted Publish does to one subscription. */
  function Offered(s: Subscription, evt: Event): Subscription {
    var p := s.(published := s.published + [evt]);
    if |p.queue| < QUEUE_SIZE then Pushed(p, evt)
    else Pushed(Drained(p.(overflows := p.overflows + {|p.published|})), evt)
  }

  /** The object behind a subscription; the histories are ghost. */
  class Subscriber {
    const id: string
    var queue: seq<Event>
    var closed: bool
    ghost var consumer: Consumer
    ghost var published: seq<Event>
    ghost var exits: seq<Exit>
    ghost var calls: seq<Call>
    ghost var overflows: set<nat>

    constructor (id: string)
      ensures View() == Subscription(id, [], false, Waiting, [], [], [], {})
    {
      this.id := id;
      queue, closed, consumer := [], false, Waiting;
      published, exits, calls, overflows := [], [], [], {};
    }

    ghost function View(): Subscription
      reads this
    {
      Subscription(id, queue, closed, consumer, published, exits, calls, overflows)
    }

    predicate Valid()
      reads this
    {
      |queue| <= QUEUE_SIZE
    }

    /** A send on the channel that does not block. */
    method TrySend(evt: Event) returns (sent: bool)
      modifies this`queue
      ensures sent == (|old(queue)| < QUEUE_SIZE)
      ensures View() == if sent then Pushed(old(View()), evt) else old(View())
    {
      sent := |queue| < QUEUE_SIZE;
      if sent {
        queue := queue + [evt];
      }
    }

    method DrainOldest()
      modifies this`queue, this`exits
      ensures View() == Drained(old(View()))
    {
      if |queue| > 0 {
        exits := exits + [Dropped(queue[0], |published|)];
        queue := queue[1..];
      }
    }

    /** The body of Publish for one subscription, nobody else moving. */
    method Offer(evt: Event)
      requires Valid()
      modifies this
      ensures Valid()
      ensures View() == Offered(old(View()), evt)
    {
      published := published + [evt];
      var sent := TrySend(evt);
      if !sent {
        overflows := overflows + {|published|};
        DrainOldest();
        sent := TrySend(evt);
      }
    }
  }

  /** The publisher's steps, uninterrupted, are Offer; interleaved, DeliveryInOrder still holds. */
  lemma OfferIsThePublisherAlone(b: Bus, evt: Event, h: Handle)
    requires b.publisher.Idle? && h in b.subs && |b.subs[h].queue| <= 1000
    requires Enumerates([h], Registered(b, evt.name))
    ensures var room := |b.subs[h].queue| < 1000;
            var steps := if room then [PublisherStep] else [PublisherStep, PublisherStep, PublisherStep];
            Run(b, [Publish(evt, [h])] + steps).subs == b.subs[h := Offered(b.subs[h], evt)]
  {
    var s := b.subs[h];
    var b1 := Step(b, Publish(evt, [h]));
    var p := s.(published := s.published + [evt]);
    assert b1.subs == b.subs[h := p] && b1.publisher == Sending(evt, [h], TrySend);
    var b2 := Step(b1, PublisherStep);
    if |s.queue| < QUEUE_SIZE {
      assert b2.subs == b.subs[h := Offered(s, evt)];
      var steps := [Publish(evt, [h])] + [PublisherStep];
      assert steps[1..] == [PublisherStep] && [PublisherStep][1..] == [];
      assert Run(b, steps) == Run(b1, steps[1..]) == Run(b2, []) == b2;
    } else {
      var b3 := Step(b2, PublisherStep);
      var b4 := Step(b3, PublisherStep);
      assert b4.subs == b.subs[h := Offered(s, evt)];
      var steps := [Publish(evt, [h])] + [PublisherStep, PublisherStep, PublisherStep];
      assert steps[1..] == [PublisherStep, PublisherStep, PublisherStep];
      assert steps[1..][1..] == [PublisherStep, PublisherStep] && steps[1..][1..][1..] == [PublisherStep];
      assert [PublisherStep][1..] == [];
      assert Run(b, steps) == Run(b1, steps[1..]) == Run(b2, steps[1..][1..]) == Run(b3, [PublisherStep]) == Run(b4, []);
    }
  }
}
