/**
 The server-sent-event hub: one goroutine that owns the client set, a numbered history
 window, and bounded client channels whose slow readers are dropped.
 */
module EventHub {
  import opened Options

  const HISTORY_LIMIT: nat := 500
  const REGISTER_CAPACITY: nat := 256
  const UNREGISTER_CAPACITY: nat := 256
  const BROADCAST_CAPACITY: nat := 512

  datatype Event = Event(id: int, message: string)

  /**
   A client channel: `queue` is what its reader has not taken yet, `sent` everything ever
   put on it, `joined` the number the next event had when the hub handled its registration.
   */
  datatype Channel = Channel(capacity: nat, queue: seq<Event>, closed: bool, sent: seq<Event>, joined: Option<int>)

  /** `log` is every message the hub has numbered so far: event i + 1 carries `log[i]`. */
  datatype Hub = Hub(
    clients: set<nat>, channels: map<nat, Channel>,
    register: seq<nat>, unregister: seq<nat>, broadcast: seq<string>,
    history: seq<Event>, nextID: int, log: seq<string>)

  const EMPTY := Hub({}, map[], [], [], [], [], 1, [])

  datatype Step =
    | Register(client: nat, capacity: nat)
    | Unregister(client: nat)
    | Broadcast(message: string)
    | HandleRegister
    | HandleUnregister
    | HandleBroadcast
    | Consume(client: nat)

  // ---------------------------------------------------------------- transitions

  function Closed(ch: Channel): Channel {
    ch.(closed := true)
  }

  function Accepts(ch: Channel): bool {
    |ch.queue| < ch.capacity
  }

  function Offer(ch: Channel, e: Event): Channel {
    if Accepts(ch) then ch.(queue := ch.queue + [e], sent := ch.sent + [e]) else Closed(ch)
  }

  function Deliver(channels: map<nat, Channel>, clients: set<nat>, e: Event): map<nat, Channel> {
    map c | c in channels :: if c in clients then Offer(channels[c], e) else channels[c]
  }

  function Retain(history: seq<Event>, e: Event): seq<Event> {
    (if |history| >= HISTORY_LIMIT then history[1..] else history) + [e]
  }

  predicate Enabled(h: Hub, step: Step) {
    match step
    case Register(c, _) => c !in h.channels && |h.register| < REGISTER_CAPACITY
    case Unregister(c) => c in h.channels
    case Broadcast(_) => true
    case HandleRegister => h.register != [] && h.register[0] in h.channels
    case HandleUnregister => h.unregister != [] && h.unregister[0] in h.channels
    case HandleBroadcast => h.broadcast != [] && h.clients <= h.channels.Keys
    case Consume(c) => c in h.channels && h.channels[c].queue != []
  }

  function Apply(h: Hub, step: Step): Hub
    requires Enabled(h, step)
  {
    match step
    case Register(c, capacity) =>
      h.(channels := h.channels[c := Channel(capacity, [], false, [], None)], register := h.register + [c])
    case Unregister(c) =>
      if |h.unregister| < UNREGISTER_CAPACITY then h.(unregister := h.unregister + [c]) else h
    case Broadcast(m) =>
      if |h.broadcast| < BROADCAST_CAPACITY then h.(broadcast := h.broadcast + [m]) else h
    case HandleRegister =>
      var c := h.register[0];
      h.(register := h.register[1..], clients := h.clients + {c},
         channels := h.channels[c := h.channels[c].(joined := Some(h.nextID))])
    case HandleUnregister =>
      var c := h.unregister[0];
      if c in h.clients then
        h.(unregister := h.unregister[1..], clients := h.clients - {c},
            channels := h.channels[c := Closed(h.channels[c])])
      else h.(unregister := h.unregister[1..])
    case HandleBroadcast =>
      var e := Event(h.nextID, h.broadcast[0]);
      h.(broadcast := h.broadcast[1..], nextID := h.nextID + 1, log := h.log + [h.broadcast[0]],
         history := Retain(h.history, e),
         clients := (set c | c in h.clients && Accepts(h.channels[c])),
         channels := Deliver(h.channels, h.clients, e))
    case Consume(c) =>
      h.(channels := h.channels[c := h.channels[c].(queue := h.channels[c].queue[1..])])
  }

  predicate RunEnabled(h: Hub, steps: seq<Step>)
    decreases |steps|
  {
    steps == [] || (Enabled(h, steps[0]) && RunEnabled(Apply(h, steps[0]), steps[1..]))
  }

  function Run(h: Hub, steps: seq<Step>): Hub
    requires RunEnabled(h, steps)
    decreases |steps|
  {
    if steps == [] then h else Run(Apply(h, steps[0]), steps[1..])
  }

  // ---------------------------------------------------------------- the invariant

  /** `events` are exactly the events numbered `first`, `first` + 1, ... of the log. */
  predicate Contiguous(log: seq<string>, first: int, events: seq<Event>) {
    && 1 <= first <= first + |events| <= |log| + 1
    && forall i :: 0 <= i < |events| ==> events[i] == Event(first + i, log[first + i - 1])
  }

  predicate QueueIsUnreadPart(ch: Channel) {
    && |ch.queue| <= |ch.sent|
    && |ch.queue| <= ch.capacity
    && ch.queue == ch.sent[|ch.sent| - |ch.queue|..]
  }

  /** Not yet handled: nothing was sent. */
  predicate Waiting(ch: Channel) {
    ch.joined.None? && !ch.closed && ch.sent == []
  }

  /** Registered: exactly the events since its registration were sent, none missing. */
  predicate Live(log: seq<string>, ch: Channel) {
    && ch.joined.Some? && !ch.closed
    && Contiguous(log, ch.joined.value, ch.sent)
    && ch.joined.value + |ch.sent| == |log| + 1
  }

  /** Dropped or unregistered: a contiguous run from its registration, then closed. */
  predicate Ended(log: seq<string>, ch: Channel) {
    ch.joined.Some? && ch.closed && Contiguous(log, ch.joined.value, ch.sent)
  }

  ghost predicate ChannelOk(h: Hub, c: nat)
    requires c in h.channels
  {
    var ch := h.channels[c];
    && QueueIsUnreadPart(ch)
    && (if c in h.clients then Live(h.log, ch) else if c in h.register then Waiting(ch) else Ended(h.log, ch))
  }

  ghost predicate HistoryOk(h: Hub) {
    && h.nextID == |h.log| + 1
    && |h.history| == (if |h.log| < HISTORY_LIMIT then |h.log| else HISTORY_LIMIT)
    && Contiguous(h.log, h.nextID - |h.history|, h.history)
  }

  ghost predicate QueuesOk(h: Hub) {
    && (forall c :: c in h.clients ==> c in h.channels)
    && (forall i :: 0 <= i < |h.register| ==> h.register[i] in h.channels && h.register[i] !in h.clients)
    && (forall i, j :: 0 <= i < j < |h.register| ==> h.register[i] != h.register[j])
    && (forall i :: 0 <= i < |h.unregister| ==> h.unregister[i] in h.channels)
  }

  ghost predicate Inv(h: Hub) {
    HistoryOk(h) && QueuesOk(h) && forall c :: c in h.channels ==> ChannelOk(h, c)
  }

  // ---------------------------------------------------------------- every step keeps it

  lemma BroadcastKeepsHistory(h: Hub)
    requires HistoryOk(h) && Enabled(h, HandleBroadcast)
    ensures HistoryOk(Apply(h, HandleBroadcast))
  {
  }

  lemma LongerLogKeepsRun(log: seq<string>, m: string, first: int, events: seq<Event>)
    requires Contiguous(log, first, events)
    ensures Contiguous(log + [m], first, events)
  {
  }

  lemma OfferKeepsQueue(ch: Channel, e: Event)
    requires QueueIsUnreadPart(ch)
    ensures QueueIsUnreadPart(Offer(ch, e))
  {
    assert (ch.sent + [e])[|ch.sent| - |ch.queue|..] == ch.sent[|ch.sent| - |ch.queue|..] + [e];
  }

  lemma RunWithNext(log: seq<string>, m: string, first: int, events: seq<Event>)
    requires Contiguous(log, first, events) && first + |events| == |log| + 1
    ensures Contiguous(log + [m], first, events + [Event(|log| + 1, m)])
  {
  }

  lemma OfferKeepsChannel(log: seq<string>, m: string, ch: Channel)
    requires QueueIsUnreadPart(ch) && Live(log, ch)
    ensures var ch' := Offer(ch, Event(|log| + 1, m));
            QueueIsUnreadPart(ch') && if Accepts(ch) then Live(log + [m], ch') else Ended(log + [m], ch')
  {
    OfferKeepsQueue(ch, Event(|log| + 1, m));
    if Accepts(ch) {
      RunWithNext(log, m, ch.joined.value, ch.sent);
    } else {
      LongerLogKeepsRun(log, m, ch.joined.value, ch.sent);
    }
  }

  lemma BroadcastKeepsChannel(h: Hub, c: nat)
    requires h.nextID == |h.log| + 1 && Enabled(h, HandleBroadcast) && c in h.channels && ChannelOk(h, c)
    requires c in h.clients ==> c !in h.register
    ensures ChannelOk(Apply(h, HandleBroadcast), c)
  {
    var ch := h.channels[c];
    var h' := Apply(h, HandleBroadcast);
    assert h'.log == h.log + [h.broadcast[0]] && h'.register == h.register;
    assert h'.channels[c] == if c in h.clients then Offer(ch, Event(h.nextID, h.broadcast[0])) else ch;
    assert c in h'.clients <==> c in h.clients && Accepts(ch);
    if c in h.clients {
      OfferKeepsChannel(h.log, h.broadcast[0], ch);
    } else if c !in h.register {
      LongerLogKeepsRun(h.log, h.broadcast[0], ch.joined.value, ch.sent);
    }
  }

  lemma RegistersStayOk(h: Hub)
    requires QueuesOk(h) && Enabled(h, HandleRegister)
    ensures QueuesOk(Apply(h, HandleRegister))
  {
    var h' := Apply(h, HandleRegister);
    forall i | 0 <= i < |h'.register| ensures h'.register[i] in h'.channels && h'.register[i] !in h'.clients {
      assert h'.register[i] == h.register[i + 1] != h.register[0];
    }
  }

  lemma QueuesStayOk(h: Hub, step: Step)
    requires QueuesOk(h) && Enabled(h, step)
    ensures QueuesOk(Apply(h, step))
  {
    if step.HandleRegister? {
      RegistersStayOk(h);
    }
  }

  /** A channel stays as it is with the client's part in the hub. */
  lemma SameRoleSameChannel(h: Hub, h': Hub, c: nat)
    requires c in h.channels && c in h'.channels && h'.channels[c] == h.channels[c] && h'.log == h.log
    requires (c in h'.clients <==> c in h.clients) && (c in h'.register <==> c in h.register)
    requires ChannelOk(h, c)
    ensures ChannelOk(h', c)
  {
  }

  lemma UnknownClient(h: Hub, c: nat)
    requires QueuesOk(h) && c !in h.channels
    ensures c !in h.clients && c !in h.register
  {
  }

  lemma HeadOfRegister(h: Hub)
    requires QueuesOk(h) && h.register != []
    ensures h.register[0] !in h.clients && h.register[0] !in h.register[1..]
    ensures forall c :: c in h.register <==> c == h.register[0] || c in h.register[1..]
  {
  }

  lemma RequestedIsWaiting(h: Hub, c: nat, capacity: nat)
    requires c !in h.clients && Enabled(h, Register(c, capacity))
    ensures ChannelOk(Apply(h, Register(c, capacity)), c)
  {
  }

  lemma RegisteredIsLive(h: Hub)
    requires h.nextID == |h.log| + 1 && Enabled(h, HandleRegister) && h.register[0] !in h.clients
    requires ChannelOk(h, h.register[0])
    ensures ChannelOk(Apply(h, HandleRegister), h.register[0])
  {
  }

  lemma RegisterKeepsChannel(h: Hub, step: Step, c: nat)
    requires QueuesOk(h) && h.nextID == |h.log| + 1 && Enabled(h, step) && (step.Register? || step.HandleRegister?)
    requires c in Apply(h, step).channels && (c in h.channels ==> ChannelOk(h, c))
    ensures ChannelOk(Apply(h, step), c)
  {
    if step.HandleRegister? {
      HeadOfRegister(h);
      if c == h.register[0] {
        RegisteredIsLive(h);
      } else {
        SameRoleSameChannel(h, Apply(h, step), c);
      }
    } else if c == step.client {
      UnknownClient(h, c);
      RequestedIsWaiting(h, c, step.capacity);
    } else {
      SameRoleSameChannel(h, Apply(h, step), c);
    }
  }

  lemma UnregisterKeepsChannel(h: Hub, c: nat)
    requires Enabled(h, HandleUnregister) && c in h.channels && ChannelOk(h, c)
    requires c in h.clients ==> c !in h.register
    ensures ChannelOk(Apply(h, HandleUnregister), c)
  {
  }

  lemma ConsumeKeepsChannel(h: Hub, reader: nat, c: nat)
    requires Enabled(h, Consume(reader)) && c in h.channels && ChannelOk(h, c)
    ensures ChannelOk(Apply(h, Consume(reader)), c)
  {
    var ch := h.channels[reader];
    if c == reader {
      assert ch.queue[1..] == ch.sent[|ch.sent| - |ch.queue[1..]|..];
    }
  }

  /** Asking to unregister or to broadcast touches nothing but the two queues of requests. */
  lemma RequestKeepsFields(h: Hub, step: Step)
    requires Enabled(h, step) && (step.Unregister? || step.Broadcast?)
    ensures var h' := Apply(h, step);
            && h'.clients == h.clients && h'.register == h.register && h'.log == h.log && h'.channels == h.channels
  {
  }

  lemma RequestKeepsChannel(h: Hub, step: Step, c: nat)
    requires Enabled(h, step) && (step.Unregister? || step.Broadcast?) && c in h.channels && ChannelOk(h, c)
    ensures ChannelOk(Apply(h, step), c)
  {
    RequestKeepsFields(h, step);
    SameRoleSameChannel(h, Apply(h, step), c);
  }

  lemma OnlyRegisterAddsChannel(h: Hub, step: Step, c: nat)
    requires Enabled(h, step) && !step.Register? && !step.HandleRegister? && c in Apply(h, step).channels
    ensures c in h.channels
  {
  }

  lemma ClientsAreNotWaiting(h: Hub, c: nat)
    requires QueuesOk(h) && c in h.clients
    ensures c !in h.register
  {
  }

  lemma ChannelStaysOk(h: Hub, step: Step, c: nat)
    requires QueuesOk(h) && h.nextID == |h.log| + 1 && Enabled(h, step) && c in Apply(h, step).channels
    requires c in h.channels ==> ChannelOk(h, c)
    ensures ChannelOk(Apply(h, step), c)
  {
    if c in h.clients {
      ClientsAreNotWaiting(h, c);
    }
    if step.Register? || step.HandleRegister? {
      RegisterKeepsChannel(h, step, c);
    } else {
      OnlyRegisterAddsChannel(h, step, c);
      match step {
        case HandleBroadcast => BroadcastKeepsChannel(h, c);
        case HandleUnregister => UnregisterKeepsChannel(h, c);
        case Consume(reader) => ConsumeKeepsChannel(h, reader, c);
        case _ => RequestKeepsChannel(h, step, c);
      }
    }
  }

  lemma HistoryStaysOk(h: Hub, step: Step)
    requires HistoryOk(h) && Enabled(h, step)
    ensures HistoryOk(Apply(h, step))
  {
    if step.HandleBroadcast? {
      BroadcastKeepsHistory(h);
    }
  }

  lemma StepKeepsInv(h: Hub, step: Step)
    requires Inv(h) && Enabled(h, step)
    ensures Inv(Apply(h, step))
  {
    QueuesStayOk(h, step);
    HistoryStaysOk(h, step);
    forall c | c in Apply(h, step).channels ensures ChannelOk(Apply(h, step), c) {
      assert c in h.channels ==> ChannelOk(h, c);
      ChannelStaysOk(h, step, c);
    }
  }

  lemma {:induction false} RunKeepsInv(h: Hub, steps: seq<Step>)
    requires Inv(h) && RunEnabled(h, steps)
    ensures Inv(Run(h, steps))
    decreases |steps|
  {
    if steps != [] {
      StepKeepsInv(h, steps[0]);
      RunKeepsInv(Apply(h, steps[0]), steps[1..]);
    }
  }

  ghost predicate Reachable(h: Hub) {
    exists steps :: RunEnabled(EMPTY, steps) && Run(EMPTY, steps) == h
  }

  lemma ReachableKeepsInv(h: Hub)
    requires Reachable(h)
    ensures Inv(h)
  {
    var steps :| RunEnabled(EMPTY, steps) && Run(EMPTY, steps) == h;
    RunKeepsInv(EMPTY, steps);
  }

  lemma {:induction false} RunAppend(h: Hub, steps: seq<Step>, step: Step)
    requires RunEnabled(h, steps) && Enabled(Run(h, steps), step)
    ensures RunEnabled(h, steps + [step]) && Run(h, steps + [step]) == Apply(Run(h, steps), step)
    decreases |steps|
  {
    if steps == [] {
      assert [step][1..] == [];
      assert Run(Apply(h, step), []) == Apply(h, step);
    } else {
      RunAppend(Apply(h, steps[0]), steps[1..], step);
      assert (steps + [step])[1..] == steps[1..] + [step];
    }
  }

  lemma ReachableStep(h: Hub, step: Step)
    requires Reachable(h) && Enabled(h, step)
    ensures Reachable(Apply(h, step))
  {
    var steps :| RunEnabled(EMPTY, steps) && Run(EMPTY, steps) == h;
    RunAppend(EMPTY, steps, step);
  }

  // ---------------------------------------------------------------- gap-free delivery

  /** What one reader has taken off its channel. */
  function Taken(ch: Channel): seq<Event>
    requires |ch.queue| <= |ch.sent|
  {
    ch.sent[..|ch.sent| - |ch.queue|]
  }

  /**
   Over every run, what was put on a client's channel is the run of consecutive events
   from its registration on, up to the newest one while it is registered; what it has
   taken is a prefix of that.
   */
  lemma DeliveryIsGapFree(h: Hub, c: nat)
    requires Reachable(h) && c in h.channels
    ensures var ch := h.channels[c];
            && |ch.queue| <= |ch.sent| && Taken(ch) + ch.queue == ch.sent
            && (ch.joined.None? ==> ch.sent == [])
            && (ch.joined.Some? ==> Contiguous(h.log, ch.joined.value, ch.sent))
            && (c in h.clients ==> ch.joined.Some? && ch.joined.value + |ch.sent| == h.nextID)
  {
    ReachableKeepsInv(h);
    assert ChannelOk(h, c);
  }

  /** In one broadcast every client gets the event, or is removed and closed at once. */
  lemma MissedMeansDropped(h: Hub, c: nat)
    requires Inv(h) && Enabled(h, HandleBroadcast) && c in h.clients
    ensures var h' := Apply(h, HandleBroadcast);
            var e := Event(h.nextID, h.broadcast[0]);
            (c in h'.clients && !h'.channels[c].closed && h'.channels[c].sent == h.channels[c].sent + [e])
            || (c !in h'.clients && h'.channels[c].closed && h'.channels[c].sent == h.channels[c].sent)
  {
    assert ChannelOk(h, c);
  }

  /** No step closes a closed channel or sends on one: both would panic. */
  predicate NoPanic(h: Hub, step: Step)
    requires Enabled(h, step)
  {
    match step
    case HandleUnregister => h.unregister[0] in h.clients ==> !h.channels[h.unregister[0]].closed
    case HandleBroadcast => forall c :: c in h.clients ==> !h.channels[c].closed
    case _ => true
  }

  lemma RunsNeverPanic(h: Hub, next: Step)
    requires Reachable(h) && Enabled(h, next)
    ensures NoPanic(h, next)
  {
    ReachableKeepsInv(h);
    forall c | c in h.clients ensures !h.channels[c].closed {
      assert ChannelOk(h, c);
    }
  }

  lemma ClosedStaysStep(h: Hub, step: Step, c: nat)
    requires Inv(h) && Enabled(h, step) && c in h.channels && h.channels[c].closed
    ensures var h' := Apply(h, step);
            c in h'.channels && c !in h'.clients && h'.channels[c].closed && h'.channels[c].sent == h.channels[c].sent
  {
    assert ChannelOk(h, c);
  }

  /** A closed channel is never registered again and nothing more is sent on it. */
  lemma {:induction false} ClosedStaysAsIs(h: Hub, steps: seq<Step>, c: nat)
    requires Inv(h) && RunEnabled(h, steps) && c in h.channels && c !in h.clients && h.channels[c].closed
    ensures var h' := Run(h, steps);
            c in h'.channels && c !in h'.clients && h'.channels[c].closed && h'.channels[c].sent == h.channels[c].sent
    decreases |steps|
  {
    if steps != [] {
      StepKeepsInv(h, steps[0]);
      ClosedStaysStep(h, steps[0], c);
      ClosedStaysAsIs(Apply(h, steps[0]), steps[1..], c);
    }
  }

  // ---------------------------------------------------------------- dead clients

  function Broadcasts(steps: seq<Step>): nat {
    if steps == [] then 0
    else (if steps[0].HandleBroadcast? then 1 else 0) + Broadcasts(steps[1..])
  }

  lemma UnreadQueueStep(h: Hub, step: Step, c: nat)
    requires Inv(h) && Enabled(h, step) && c in h.clients && step != Consume(c)
    ensures var h' := Apply(h, step);
            c in h.channels && c in h'.channels &&
            if c in h'.clients then
              h'.channels[c].capacity == h.channels[c].capacity &&
              |h'.channels[c].queue| == |h.channels[c].queue| + (if step.HandleBroadcast? then 1 else 0)
            else h'.channels[c].closed
  {
  }

  lemma {:induction false} UnreadQueueGrows(h: Hub, steps: seq<Step>, c: nat)
    requires Inv(h) && RunEnabled(h, steps) && c in h.clients && Consume(c) !in steps
    ensures var h' := Run(h, steps);
            c in h.channels && c in h'.channels &&
            if c in h'.clients then
              h'.channels[c].capacity == h.channels[c].capacity &&
              |h'.channels[c].queue| == |h.channels[c].queue| + Broadcasts(steps) <= h.channels[c].capacity
            else h'.channels[c].closed
    decreases |steps|
  {
    assert ChannelOk(h, c);
    if steps != [] {
      var h1 := Apply(h, steps[0]);
      StepKeepsInv(h, steps[0]);
      UnreadQueueStep(h, steps[0], c);
      if c in h1.clients {
        UnreadQueueGrows(h1, steps[1..], c);
      } else {
        ClosedStaysAsIs(h1, steps[1..], c);
      }
    }
  }

  /**
   A registered client whose reader has stopped is gone and closed once capacity - queued
   + 1 further broadcasts were handled, whatever became of its unregister request.
   */
  lemma DeadClientsGoAway(h: Hub, steps: seq<Step>, c: nat)
    requires Inv(h) && RunEnabled(h, steps) && c in h.clients && Consume(c) !in steps
    requires Broadcasts(steps) >= h.channels[c].capacity - |h.channels[c].queue| + 1
    ensures var h' := Run(h, steps);
            c !in h'.clients && c in h'.channels && h'.channels[c].closed
  {
    UnreadQueueGrows(h, steps, c);
  }

  // ---------------------------------------------------------------- backfill

  /** What `Backfill` writes: the retained events newer than `lastID`, in order. */
  function Backfill(history: seq<Event>, lastID: int): seq<Event> {
    if history == [] then []
    else
      var rest := Backfill(history[..|history| - 1], lastID);
      var e := history[|history| - 1];
      if e.id > lastID then rest + [e] else rest
  }

  /** How many events of a window that starts with `first` are not newer than `lastID`. */
  function Skipped(first: int, size: nat, lastID: int): (skip: nat)
    ensures skip <= size
  {
    if lastID < first then 0 else if lastID + 1 - first <= size then lastID + 1 - first else size
  }

  lemma BackfillOfLonger(front: seq<Event>, e: Event, skip: nat, lastID: int)
    requires skip <= |front| && Backfill(front, lastID) == front[skip..] && (e.id <= lastID ==> skip == |front|)
    ensures Backfill(front + [e], lastID) == (front + [e])[if e.id > lastID then skip else skip + 1..]
  {
    assert (front + [e])[..|front|] == front;
  }

  lemma FrontAndLast(window: seq<Event>)
    requires window != []
    ensures window[..|window| - 1] + [window[|window| - 1]] == window
  {
  }

  lemma SkippedOfLonger(first: int, size: nat, lastID: int)
    ensures first + size > lastID ==> Skipped(first, size + 1, lastID) == Skipped(first, size, lastID)
    ensures first + size <= lastID ==> Skipped(first, size + 1, lastID) == size + 1
    ensures first + size <= lastID ==> Skipped(first, size, lastID) == size
  {
  }

  lemma FrontIsContiguous(log: seq<string>, first: int, window: seq<Event>)
    requires Contiguous(log, first, window) && window != []
    ensures Contiguous(log, first, window[..|window| - 1]) && window[|window| - 1].id == first + |window| - 1
  {
  }

  lemma {:induction false} BackfillOfWindow(log: seq<string>, first: int, window: seq<Event>, lastID: int)
    requires Contiguous(log, first, window)
    ensures Backfill(window, lastID) == window[Skipped(first, |window|, lastID)..]
  {
    if window != [] {
      var front, e := window[..|window| - 1], window[|window| - 1];
      FrontIsContiguous(log, first, window);
      BackfillOfWindow(log, first, front, lastID);
      SkippedOfLonger(first, |front|, lastID);
      BackfillOfLonger(front, e, Skipped(first, |front|, lastID), lastID);
      FrontAndLast(window);
    }
  }

  lemma SuffixIsContiguous(log: seq<string>, first: int, events: seq<Event>, skip: nat)
    requires Contiguous(log, first, events) && skip <= |events|
    ensures Contiguous(log, first + skip, events[skip..])
  {
  }

  /** The three cases of a backfill from a window that reaches up to the newest event. */
  lemma BackfillOfNewest(log: seq<string>, first: int, window: seq<Event>, k: int)
    requires Contiguous(log, first, window) && first + |window| == |log| + 1
    ensures var out := Backfill(window, k);
            && (first - 1 <= k <= |log| ==> Contiguous(log, k + 1, out) && k + 1 + |out| == |log| + 1)
            && (k < first - 1 ==> out == window)
            && (k > |log| ==> out == [])
  {
    BackfillOfWindow(log, first, window, k);
    if first - 1 <= k <= |log| {
      SuffixIsContiguous(log, first, window, k + 1 - first);
    }
  }

  /**
   The window holds the newest min(500, all) events, and a backfill after `k` gives
   exactly the events k + 1 .. nextID - 1 when they are all retained, and otherwise the
   whole window.
   */
  lemma BackfillIsExact(h: Hub, k: int)
    requires Reachable(h)
    ensures var out := Backfill(h.history, k);
            && h.nextID == |h.log| + 1
            && |h.history| == (if |h.log| < 500 then |h.log| else 500)
            && Contiguous(h.log, h.nextID - |h.history|, h.history)
            && (h.nextID - |h.history| - 1 <= k < h.nextID ==>
                Contiguous(h.log, k + 1, out) && k + 1 + |out| == h.nextID)
            && (k < h.nextID - |h.history| - 1 ==> out == h.history)
            && (k >= h.nextID ==> out == [])
  {
    ReachableKeepsInv(h);
    BackfillOfNewest(h.log, h.nextID - |h.history|, h.history, k);
  }

  // ---------------------------------------------------------------- reconnecting

  /*
   A reconnecting client asks to be registered and then writes a backfill, while the hub
   handles the request at some moment of its own. The two together show it its events.
   */

  predicate InBackfill(backfill: seq<Event>, id: int) {
    exists i :: 0 <= i < |backfill| && backfill[i].id == id
  }

  predicate OnChannel(h: Hub, c: nat, id: int) {
    c in h.channels && exists i :: 0 <= i < |h.channels[c].sent| && h.channels[c].sent[i].id == id
  }

  predicate Shown(h: Hub, c: nat, backfill: seq<Event>, id: int) {
    InBackfill(backfill, id) || OnChannel(h, c, id)
  }

  /** The client is shown every event newer than `k`; the first event is number 1. */
  ghost predicate MissesNothing(h: Hub, c: nat, backfill: seq<Event>, k: int) {
    forall id :: 1 <= id && k < id < h.nextID ==> Shown(h, c, backfill, id)
  }

  function JoinedAt(h: Hub, c: nat): int {
    if c in h.channels && h.channels[c].joined.Some? then h.channels[c].joined.value else 0
  }

  lemma {:induction false} LogOnlyGrows(h: Hub, steps: seq<Step>)
    requires RunEnabled(h, steps)
    ensures var h' := Run(h, steps);
            h.log <= h'.log
    decreases |steps|
  {
    if steps != [] {
      LogOnlyGrows(Apply(h, steps[0]), steps[1..]);
    }
  }

  lemma BackfillExactly(log: seq<string>, first: int, window: seq<Event>, k: int, id: int)
    requires Contiguous(log, first, window)
    ensures InBackfill(Backfill(window, k), id) <==> k < id && first <= id < first + |window|
  {
    BackfillOfWindow(log, first, window, k);
    var out, skip := Backfill(window, k), Skipped(first, |window|, k);
    if k < id && first <= id < first + |window| {
      assert out[id - first - skip] == window[id - first];
    }
    if i :| 0 <= i < |out| && out[i].id == id {
      assert out[i] == window[skip + i];
    }
  }

  lemma ChannelExactly(h: Hub, c: nat, id: int)
    requires c in h.channels && Live(h.log, h.channels[c]) && h.nextID == |h.log| + 1
    ensures OnChannel(h, c, id) <==> JoinedAt(h, c) <= id < h.nextID
  {
    if JoinedAt(h, c) <= id < h.nextID {
      assert h.channels[c].sent[id - JoinedAt(h, c)].id == id;
    }
  }

  lemma LongerLogKeepsWindow(log: seq<string>, longer: seq<string>, first: int, window: seq<Event>)
    requires Contiguous(log, first, window) && log <= longer
    ensures Contiguous(longer, first, window)
  {
  }

  lemma WindowStaysInLog(before: Hub, steps: seq<Step>)
    requires HistoryOk(before) && RunEnabled(before, steps)
    ensures Contiguous(Run(before, steps).log, before.nextID - |before.history|, before.history)
  {
    LogOnlyGrows(before, steps);
    LongerLogKeepsWindow(before.log, Run(before, steps).log, before.nextID - |before.history|, before.history);
  }

  /** The first event that a client naming `k` as its last one has not seen. */
  function FirstUnseen(k: int): int {
    if k < 0 then 1 else k + 1
  }

  /**
   The moments that leave no gap, for a window of events `first` to `next - 1` at the
   backfill: the client joined before an event came in between and the window reached back
   far enough, or it joined before the first event it has not seen.
   */
  predicate LeavesNoGap(first: int, next: int, joined: int, k: int) {
    joined <= FirstUnseen(k) || (joined <= next && first <= FirstUnseen(k) <= next)
  }

  lemma ShownExactly(h: Hub, c: nat, window: seq<Event>, first: int, k: int, id: int)
    requires Contiguous(h.log, first, window)
    requires c in h.channels && Live(h.log, h.channels[c]) && h.nextID == |h.log| + 1
    ensures Shown(h, c, Backfill(window, k), id)
       <==> (k < id && first <= id < first + |window|) || JoinedAt(h, c) <= id < h.nextID
  {
    BackfillExactly(h.log, first, window, k, id);
    ChannelExactly(h, c, id);
  }

  lemma ShownEverywhereIff(h: Hub, c: nat, window: seq<Event>, first: int, k: int)
    requires Contiguous(h.log, first, window)
    requires c in h.channels && Live(h.log, h.channels[c]) && h.nextID == |h.log| + 1
    ensures MissesNothing(h, c, Backfill(window, k), k) <==> LeavesNoGap(first, first + |window|, JoinedAt(h, c), k)
  {
    var next, joined, missed := first + |window|, JoinedAt(h, c), FirstUnseen(k);
    if LeavesNoGap(first, next, joined, k) {
      forall id | 1 <= id && k < id < h.nextID ensures Shown(h, c, Backfill(window, k), id) {
        ShownExactly(h, c, window, first, k, id);
      }
    } else {
      var gap := if first <= missed <= next then next else missed;
      ShownExactly(h, c, window, first, k, gap);
      assert !Shown(h, c, Backfill(window, k), gap);
    }
  }

  lemma ClientIsLive(before: Hub, steps: seq<Step>, c: nat)
    requires Inv(before) && RunEnabled(before, steps) && c in Run(before, steps).clients
    ensures var h := Run(before, steps);
            c in h.channels && Live(h.log, h.channels[c]) && h.nextID == |h.log| + 1
  {
    RunKeepsInv(before, steps);
    assert ChannelOk(Run(before, steps), c);
  }

  /**
   A client that reconnects after event `k`, any number at all, misses nothing if and only
   if its registration was handled before any event newer than its backfill and the events
   after `k` were still in the window, or all of them came after the registration.
   */
  lemma ReconnectIsGapFreeIff(before: Hub, steps: seq<Step>, after: Hub, c: nat, k: int)
    requires Inv(before) && RunEnabled(before, steps) && after == Run(before, steps) && c in after.clients
    ensures MissesNothing(after, c, Backfill(before.history, k), k)
       <==> LeavesNoGap(before.nextID - |before.history|, before.nextID, JoinedAt(after, c), k)
  {
    ClientIsLive(before, steps, c);
    WindowStaysInLog(before, steps);
    ShownEverywhereIff(after, c, before.history, before.nextID - |before.history|, k);
  }

  /** An event is shown twice: by the backfill and on the channel. */
  ghost predicate ShownTwice(h: Hub, c: nat, backfill: seq<Event>, id: int) {
    InBackfill(backfill, id) && OnChannel(h, c, id)
  }

  ghost predicate RepeatsNothing(h: Hub, c: nat, backfill: seq<Event>) {
    forall id :: !ShownTwice(h, c, backfill, id)
  }

  /** The client is shown twice what it is backfilled from its registration on, and no more. */
  ghost predicate RepeatsFromJoin(h: Hub, c: nat, backfill: seq<Event>) {
    forall id :: ShownTwice(h, c, backfill, id) <==> InBackfill(backfill, id) && JoinedAt(h, c) <= id
  }

  /** One event: what the backfill holds of it, and whether the channel repeats it. */
  lemma TwiceExactly(h: Hub, c: nat, window: seq<Event>, first: int, k: int, id: int)
    requires Contiguous(h.log, first, window)
    requires c in h.channels && Live(h.log, h.channels[c]) && h.nextID == |h.log| + 1
    ensures InBackfill(Backfill(window, k), id) <==> k < id && first <= id < first + |window|
    ensures ShownTwice(h, c, Backfill(window, k), id)
       <==> InBackfill(Backfill(window, k), id) && JoinedAt(h, c) <= id
  {
    BackfillExactly(h.log, first, window, k, id);
    ChannelExactly(h, c, id);
  }

  lemma RepeatsAreFromJoin(h: Hub, c: nat, window: seq<Event>, first: int, k: int)
    requires Contiguous(h.log, first, window)
    requires c in h.channels && Live(h.log, h.channels[c]) && h.nextID == |h.log| + 1
    ensures RepeatsFromJoin(h, c, Backfill(window, k))
  {
    forall id
      ensures ShownTwice(h, c, Backfill(window, k), id) <==> InBackfill(Backfill(window, k), id) && JoinedAt(h, c) <= id
    {
      TwiceExactly(h, c, window, first, k, id);
    }
  }

  /** A backfill that is not empty ends with the newest event of the window. */
  lemma NewestIsInBackfill(log: seq<string>, first: int, window: seq<Event>, k: int)
    requires Contiguous(log, first, window) && Backfill(window, k) != []
    ensures InBackfill(Backfill(window, k), first + |window| - 1) && k < first + |window| - 1
  {
    var out := Backfill(window, k);
    assert InBackfill(out, out[0].id);
    BackfillExactly(log, first, window, k, out[0].id);
    BackfillExactly(log, first, window, k, first + |window| - 1);
  }

  lemma RepeatsIff(h: Hub, c: nat, window: seq<Event>, first: int, k: int)
    requires Contiguous(h.log, first, window)
    requires c in h.channels && Live(h.log, h.channels[c]) && h.nextID == |h.log| + 1
    ensures RepeatsNothing(h, c, Backfill(window, k))
       <==> Backfill(window, k) == [] || first + |window| <= JoinedAt(h, c)
  {
    var newest := first + |window| - 1;
    if Backfill(window, k) != [] && JoinedAt(h, c) <= newest {
      NewestIsInBackfill(h.log, first, window, k);
      TwiceExactly(h, c, window, first, k, newest);
    } else {
      forall id ensures !ShownTwice(h, c, Backfill(window, k), id) {
        TwiceExactly(h, c, window, first, k, id);
      }
    }
  }

  /**
   The twice-shown events are those of the backfill from the client's registration on; so
   there are some exactly when the registration was handled before the newest event that
   the backfill contains.
   */
  lemma ReconnectRepeatsIff(before: Hub, steps: seq<Step>, after: Hub, c: nat, k: int)
    requires Inv(before) && RunEnabled(before, steps) && after == Run(before, steps) && c in after.clients
    ensures var shown := Backfill(before.history, k);
            && RepeatsFromJoin(after, c, shown)
            && (RepeatsNothing(after, c, shown) <==> shown == [] || before.nextID <= JoinedAt(after, c))
  {
    ClientIsLive(before, steps, c);
    WindowStaysInLog(before, steps);
    RepeatsAreFromJoin(after, c, before.history, before.nextID - |before.history|, k);
    RepeatsIff(after, c, before.history, before.nextID - |before.history|, k);
  }

  ghost predicate ShowsOnce(h: Hub, c: nat, backfill: seq<Event>, k: int) {
    MissesNothing(h, c, backfill, k) && RepeatsNothing(h, c, backfill)
  }

  lemma ShowsOnceIff(h: Hub, c: nat, window: seq<Event>, first: int, k: int)
    requires Contiguous(h.log, first, window) && Backfill(window, k) != []
    requires c in h.channels && Live(h.log, h.channels[c]) && h.nextID == |h.log| + 1
    ensures ShowsOnce(h, c, Backfill(window, k), k)
       <==> JoinedAt(h, c) == first + |window| && first <= FirstUnseen(k)
  {
    ShownEverywhereIff(h, c, window, first, k);
    RepeatsIff(h, c, window, first, k);
    NewestIsInBackfill(h.log, first, window, k);
  }

  /**
   With anything to backfill, nothing is missed and nothing repeated exactly when no event
   was numbered between backfill and registration and the window reached back far enough.
   */
  lemma ReconnectShowsOnceIff(before: Hub, steps: seq<Step>, after: Hub, c: nat, k: int)
    requires Inv(before) && RunEnabled(before, steps) && after == Run(before, steps) && c in after.clients
    requires Backfill(before.history, k) != []
    ensures ShowsOnce(after, c, Backfill(before.history, k), k)
       <==> JoinedAt(after, c) == before.nextID && before.nextID - |before.history| <= FirstUnseen(k)
  {
    ClientIsLive(before, steps, c);
    WindowStaysInLog(before, steps);
    ShowsOnceIff(after, c, before.history, before.nextID - |before.history|, k);
  }

  /** The gap is real: the hub may number an event between the backfill and the registration. */
  lemma ReconnectCanMissAnEvent()
    ensures var before := Apply(Apply(EMPTY, Register(7, 256)), Broadcast("x"));
            && RunEnabled(EMPTY, [Register(7, 256), Broadcast("x")])
            && RunEnabled(before, [HandleBroadcast, HandleRegister])
            && var h := Run(before, [HandleBroadcast, HandleRegister]);
               7 in h.clients && h.nextID == 2 && !Shown(h, 7, Backfill(before.history, 0), 1)
  {
    var before := Apply(Apply(EMPTY, Register(7, 256)), Broadcast("x"));
    assert RunEnabled(Apply(EMPTY, Register(7, 256)), [Broadcast("x")]);
    assert [Register(7, 256), Broadcast("x")][1..] == [Broadcast("x")];
    var h1 := Apply(before, HandleBroadcast);
    var h2 := Apply(h1, HandleRegister);
    assert [HandleBroadcast, HandleRegister][1..] == [HandleRegister];
    assert RunEnabled(h1, [HandleRegister]);
    assert Run(h1, [HandleRegister]) == h2;
  }
}
