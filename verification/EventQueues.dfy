/**
 What the hub does with the requests it queues, over whole runs: no message, registration or
 departure is lost, repeated or reordered once it is queued, and readers get what was sent.
 */
module EventQueues {
  import opened Options
  import opened EventHub

  // ---------------------------------------------------------------- messages

  /** The messages of a run that found fewer than 512 waiting, in order. */
  function Admitted(h: Hub, steps: seq<Step>): seq<string>
    requires RunEnabled(h, steps)
    decreases |steps|
  {
    if steps == [] then []
    else
      var rest := Admitted(Apply(h, steps[0]), steps[1..]);
      match steps[0]
      case Broadcast(m) => if |h.broadcast| < 512 then [m] + rest else rest
      case _ => rest
  }

  lemma MessageStep(h: Hub, step: Step)
    requires Enabled(h, step)
    ensures var h' := Apply(h, step);
            h'.log + h'.broadcast
            == h.log + h.broadcast + if step.Broadcast? && |h.broadcast| < 512 then [step.message] else []
  {
    if step.HandleBroadcast? {
      assert h.broadcast == [h.broadcast[0]] + h.broadcast[1..];
    }
  }

  lemma Reassociate<T>(a: seq<T>, b: seq<T>, c: seq<T>)
    ensures a + b + c == a + (b + c)
  {
  }

  /**
   Over every run: what is numbered and what still waits are, together and in order, what
   was there before and every message admitted since.
   */
  lemma {:induction false} NoMessageIsLost(h: Hub, steps: seq<Step>)
    requires RunEnabled(h, steps)
    ensures var h' := Run(h, steps);
            h'.log + h'.broadcast == h.log + h.broadcast + Admitted(h, steps)
    decreases |steps|
  {
    if steps != [] {
      var h1 := Apply(h, steps[0]);
      MessageStep(h, steps[0]);
      NoMessageIsLost(h1, steps[1..]);
      Reassociate(h.log + h.broadcast, if steps[0].Broadcast? && |h.broadcast| < 512 then [steps[0].message] else [],
                  Admitted(h1, steps[1..]));
    }
  }

  // ---------------------------------------------------------------- registrations and departures

  /** The registrations asked for in a run, in order. */
  function Registrations(steps: seq<Step>): seq<nat> {
    if steps == [] then []
    else
      var rest := Registrations(steps[1..]);
      match steps[0]
      case Register(c, _) => [c] + rest
      case _ => rest
  }

  function RegistersHandled(steps: seq<Step>): nat {
    if steps == [] then 0 else (if steps[0].HandleRegister? then 1 else 0) + RegistersHandled(steps[1..])
  }

  /** The departures of a run that found fewer than 256 waiting, in order. */
  function Departures(h: Hub, steps: seq<Step>): seq<nat>
    requires RunEnabled(h, steps)
    decreases |steps|
  {
    if steps == [] then []
    else
      var rest := Departures(Apply(h, steps[0]), steps[1..]);
      match steps[0]
      case Unregister(c) => if |h.unregister| < 256 then [c] + rest else rest
      case _ => rest
  }

  function DeparturesHandled(steps: seq<Step>): nat {
    if steps == [] then 0 else (if steps[0].HandleUnregister? then 1 else 0) + DeparturesHandled(steps[1..])
  }

  /** `queue` is `all` without its first `n` elements. */
  predicate After(all: seq<nat>, n: nat, queue: seq<nat>) {
    n <= |all| && queue == all[n..]
  }

  lemma AfterHead(queue: seq<nat>, more: seq<nat>, n: nat, last: seq<nat>)
    requires queue != [] && After(queue[1..] + more, n, last)
    ensures After(queue + more, n + 1, last)
  {
    assert (queue + more)[1..] == queue[1..] + more;
    assert (queue + more)[1..][n..] == (queue + more)[n + 1..];
  }

  lemma AfterOneMore(queue: seq<nat>, c: nat, more: seq<nat>, n: nat, last: seq<nat>)
    requires After(queue + [c] + more, n, last)
    ensures After(queue + ([c] + more), n, last)
  {
    Reassociate(queue, [c], more);
  }

  /** The register queue changes by a request at its end or the handling of its first. */
  lemma RegisterQueueStep(h: Hub, step: Step)
    requires Enabled(h, step)
    ensures var h' := Apply(h, step);
            && (step.Register? ==> h'.register == h.register + [step.client])
            && (step.HandleRegister? ==> h.register != [] && h'.register == h.register[1..])
            && (!step.Register? && !step.HandleRegister? ==> h'.register == h.register)
  {
  }

  /** Registrations wait in the order they came and are handled in that order, one at a time. */
  lemma {:induction false} RegistrationsKeepOrder(h: Hub, steps: seq<Step>)
    requires RunEnabled(h, steps)
    ensures After(h.register + Registrations(steps), RegistersHandled(steps), Run(h, steps).register)
    decreases |steps|
  {
    if steps == [] {
      assert h.register + [] == h.register;
    } else {
      var h1, rest := Apply(h, steps[0]), steps[1..];
      RegistrationsKeepOrder(h1, rest);
      RegisterQueueStep(h, steps[0]);
      var more, n, last := Registrations(rest), RegistersHandled(rest), Run(h1, rest).register;
      if steps[0].Register? {
        AfterOneMore(h.register, steps[0].client, more, n, last);
      } else if steps[0].HandleRegister? {
        AfterHead(h.register, more, n, last);
      }
    }
  }

  /** And so do departures. */
  lemma {:induction false} DeparturesKeepOrder(h: Hub, steps: seq<Step>)
    requires RunEnabled(h, steps)
    ensures After(h.unregister + Departures(h, steps), DeparturesHandled(steps), Run(h, steps).unregister)
    decreases |steps|
  {
    if steps == [] {
      assert h.unregister + [] == h.unregister;
    } else {
      var h1, rest := Apply(h, steps[0]), steps[1..];
      DeparturesKeepOrder(h1, rest);
      var more, n, last := Departures(h1, rest), DeparturesHandled(rest), Run(h1, rest).unregister;
      if steps[0].Unregister? && |h.unregister| < 256 {
        AfterOneMore(h.unregister, steps[0].client, more, n, last);
      } else if steps[0].HandleUnregister? {
        AfterHead(h.unregister, more, n, last);
      }
    }
  }

  /** A request queues and does nothing else; a registration brings a new channel, empty and open. */
  lemma RequestsOnlyQueue(h: Hub, step: Step)
    requires Enabled(h, step) && (step.Register? || step.Unregister? || step.Broadcast?)
    ensures var h' := Apply(h, step);
            && h'.clients == h.clients && h'.log == h.log && h'.history == h.history && h'.nextID == h.nextID
            && (step.Register? ==>
                  && h'.register == h.register + [step.client]
                  && h'.channels == h.channels[step.client := Channel(step.capacity, [], false, [], None)])
            && (!step.Register? ==> h'.register == h.register && h'.channels == h.channels)
            && h'.unregister == h.unregister + (if step.Unregister? && |h.unregister| < 256 then [step.client] else [])
            && h'.broadcast == h.broadcast + (if step.Broadcast? && |h.broadcast| < 512 then [step.message] else [])
  {
  }

  /** Handling a registration lets the client in from the next event on and touches no other. */
  lemma RegistrationLetsIn(h: Hub)
    requires Inv(h) && Enabled(h, HandleRegister)
    ensures var h', c := Apply(h, HandleRegister), h.register[0];
            && h'.clients == h.clients + {c} && c !in h.clients
            && c in h'.channels && h'.channels[c] == h.channels[c].(joined := Some(|h.log| + 1))
            && (forall d :: d != c && d in h.channels ==> d in h'.channels && h'.channels[d] == h.channels[d])
            && h'.log == h.log && h'.history == h.history
            && h'.broadcast == h.broadcast && h'.unregister == h.unregister
  {
  }

  /**
   Handling a departure takes the client out and closes its channel, unread events and all;
   one that is gone already, and every other client, keeps its channel as it is.
   */
  lemma DepartureLetsGo(h: Hub)
    requires Enabled(h, HandleUnregister)
    ensures var h', c := Apply(h, HandleUnregister), h.unregister[0];
            && h'.clients == h.clients - {c}
            && c in h'.channels
            && h'.channels[c] == (if c in h.clients then h.channels[c].(closed := true) else h.channels[c])
            && (forall d :: d != c && d in h.channels ==> d in h'.channels && h'.channels[d] == h.channels[d])
            && h'.log == h.log && h'.history == h.history && h'.broadcast == h.broadcast && h'.register == h.register
  {
  }

  lemma DepartureNearer(h: Hub, step: Step, c: nat, p: nat)
    requires Enabled(h, step) && p < |h.unregister| && h.unregister[p] == c && c in h.channels
    requires !(step.HandleUnregister? && p == 0)
    ensures var h', p' := Apply(h, step), if step.HandleUnregister? then p - 1 else p;
            p' < |h'.unregister| && h'.unregister[p'] == c && c in h'.channels
            && (c in h.clients && c !in h'.clients ==> h'.channels[c].closed)
  {
  }

  /** A client whose departure waits at place `p` is gone and closed once p + 1 more were handled. */
  lemma {:induction false} DeparturesTakeEffect(h: Hub, steps: seq<Step>, c: nat, p: nat)
    requires Inv(h) && RunEnabled(h, steps) && c in h.clients && p < |h.unregister| && h.unregister[p] == c
    requires p < DeparturesHandled(steps)
    ensures var h' := Run(h, steps); c in h'.channels && c !in h'.clients && h'.channels[c].closed
    decreases |steps|
  {
    var h1 := Apply(h, steps[0]);
    StepKeepsInv(h, steps[0]);
    if steps[0].HandleUnregister? && p == 0 {
      DepartureLetsGo(h);
      ClosedStaysAsIs(h1, steps[1..], c);
    } else {
      DepartureNearer(h, steps[0], c, p);
      if c in h1.clients {
        DeparturesTakeEffect(h1, steps[1..], c, if steps[0].HandleUnregister? then p - 1 else p);
      } else {
        ClosedStaysAsIs(h1, steps[1..], c);
      }
    }
  }

  // ---------------------------------------------------------------- delivery

  /**
   A broadcast goes to every client with room in its channel, at the end of its queue; one
   without room is removed and closed with its queue untouched; no other channel changes.
   */
  lemma BroadcastReachesExactly(h: Hub, c: nat)
    requires Inv(h) && Enabled(h, HandleBroadcast) && c in h.channels
    ensures var h', ch := Apply(h, HandleBroadcast), h.channels[c];
            var e := Event(|h.log| + 1, h.broadcast[0]);
            && c in h'.channels
            && (c in h'.clients <==> c in h.clients && |ch.queue| < ch.capacity)
            && h'.channels[c] ==
               (if c !in h.clients then ch
                else if |ch.queue| < ch.capacity then ch.(queue := ch.queue + [e], sent := ch.sent + [e])
                else ch.(closed := true))
            && h'.log == h.log + [h.broadcast[0]] && h'.register == h.register && h'.unregister == h.unregister
  {
    assert ChannelOk(h, c);
  }

  /** A client leaves only by its own departure or with a full channel. */
  lemma ClientsLeaveOnlyFullOrAsked(h: Hub, step: Step, c: nat)
    requires Inv(h) && Enabled(h, step) && c in h.clients && c !in Apply(h, step).clients
    ensures (step.HandleUnregister? && h.unregister[0] == c)
            || (step.HandleBroadcast? && |h.channels[c].queue| == h.channels[c].capacity)
  {
    assert ChannelOk(h, c);
  }

  // ---------------------------------------------------------------- readers

  /** What the reader of a channel took in a run, in order. */
  function Reads(h: Hub, steps: seq<Step>, c: nat): seq<Event>
    requires RunEnabled(h, steps)
    decreases |steps|
  {
    if steps == [] then []
    else
      var rest := Reads(Apply(h, steps[0]), steps[1..], c);
      if steps[0] == Consume(c) then [h.channels[c].queue[0]] + rest else rest
  }

  /** What has been taken off a channel, going by what is left on it. */
  function TakenOff(h: Hub, c: nat): seq<Event> {
    if c in h.channels && |h.channels[c].queue| <= |h.channels[c].sent| then Taken(h.channels[c]) else []
  }

  lemma ConsumeTakesHead(ch: Channel)
    requires QueueIsUnreadPart(ch) && ch.queue != []
    ensures Taken(ch.(queue := ch.queue[1..])) == Taken(ch) + [ch.queue[0]]
  {
  }

  lemma OfferTakesNone(ch: Channel, e: Event)
    requires QueueIsUnreadPart(ch)
    ensures |Offer(ch, e).queue| <= |Offer(ch, e).sent| && Taken(Offer(ch, e)) == Taken(ch)
  {
  }

  lemma NewChannelIsEmpty(h: Hub, step: Step, c: nat)
    requires Enabled(h, step) && c !in h.channels
    ensures TakenOff(Apply(h, step), c) == []
  {
  }

  lemma BroadcastTakesNone(h: Hub, c: nat)
    requires Enabled(h, HandleBroadcast) && c in h.channels && QueueIsUnreadPart(h.channels[c])
    ensures TakenOff(Apply(h, HandleBroadcast), c) == Taken(h.channels[c])
  {
    var ch, e := h.channels[c], Event(h.nextID, h.broadcast[0]);
    OfferTakesNone(ch, e);
    assert Apply(h, HandleBroadcast).channels[c] == if c in h.clients then Offer(ch, e) else ch;
  }

  /** Steps other than a broadcast or its own read leave what is on a channel. */
  lemma OtherStepsKeepQueue(h: Hub, step: Step, c: nat)
    requires Enabled(h, step) && c in h.channels && !step.HandleBroadcast? && step != Consume(c)
    ensures var h' := Apply(h, step);
            c in h'.channels && h'.channels[c].queue == h.channels[c].queue && h'.channels[c].sent == h.channels[c].sent
  {
  }

  /** What one step adds to what was read. */
  function ReadBy(h: Hub, step: Step, c: nat): seq<Event>
    requires Enabled(h, step)
  {
    if step == Consume(c) then [h.channels[c].queue[0]] else []
  }

  lemma ReadStep(h: Hub, step: Step, c: nat)
    requires Enabled(h, step) && (c in h.channels ==> QueueIsUnreadPart(h.channels[c]))
    ensures TakenOff(Apply(h, step), c) == TakenOff(h, c) + ReadBy(h, step, c)
  {
    if c !in h.channels {
      NewChannelIsEmpty(h, step, c);
    } else if step == Consume(c) {
      ConsumeTakesHead(h.channels[c]);
    } else if step.HandleBroadcast? {
      BroadcastTakesNone(h, c);
    } else {
      OtherStepsKeepQueue(h, step, c);
    }
  }

  lemma ChannelsAreUnreadParts(h: Hub, c: nat)
    requires Inv(h) && c in h.channels
    ensures QueueIsUnreadPart(h.channels[c])
  {
    assert ChannelOk(h, c);
  }

  lemma ReadsUnfold(h: Hub, steps: seq<Step>, c: nat)
    requires RunEnabled(h, steps) && steps != []
    ensures Reads(h, steps, c) == ReadBy(h, steps[0], c) + Reads(Apply(h, steps[0]), steps[1..], c)
  {
  }

  lemma JoinReads(before: seq<Event>, one: seq<Event>, rest: seq<Event>, all: seq<Event>)
    requires all == one + rest
    ensures before + one + rest == before + all
  {
  }

  lemma {:induction false} ReadsAreTaken(h: Hub, steps: seq<Step>, c: nat)
    requires Inv(h) && RunEnabled(h, steps)
    ensures TakenOff(Run(h, steps), c) == TakenOff(h, c) + Reads(h, steps, c)
    decreases |steps|
  {
    if steps != [] {
      var h1, rest := Apply(h, steps[0]), steps[1..];
      StepKeepsInv(h, steps[0]);
      if c in h.channels {
        ChannelsAreUnreadParts(h, c);
      }
      ReadStep(h, steps[0], c);
      ReadsAreTaken(h1, rest, c);
      ReadsUnfold(h, steps, c);
      JoinReads(TakenOff(h, c), ReadBy(h, steps[0], c), Reads(h1, rest, c), Reads(h, steps, c));
    }
  }

  /**
   Over every run of the hub, what a reader took are consecutive events from the client's
   registration on, none skipped or repeated, and what is still on the channel comes next.
   */
  lemma ReadersSeeNoGap(steps: seq<Step>, c: nat)
    requires RunEnabled(EMPTY, steps) && c in Run(EMPTY, steps).channels
    ensures var h, read := Run(EMPTY, steps), Reads(EMPTY, steps, c);
            var ch := h.channels[c];
            && read + ch.queue == ch.sent
            && (ch.joined.None? ==> read == [])
            && (ch.joined.Some? ==> Contiguous(h.log, ch.joined.value, read))
            && (c in h.clients ==> ch.joined.Some? && ch.joined.value + |read| + |ch.queue| == |h.log| + 1)
  {
    var h := Run(EMPTY, steps);
    assert Reachable(h);
    ReachableKeepsInv(h);
    assert Inv(EMPTY);
    ReadsAreTaken(EMPTY, steps, c);
    DeliveryIsGapFree(h, c);
    assert [] + Reads(EMPTY, steps, c) == Reads(EMPTY, steps, c);
  }
}
