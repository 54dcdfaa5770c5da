/** The hub in its own form: the three cases of the select loop and its request methods. */
module EventManager {
  import opened Options
  import opened EventHub

  /** Where the first pass stands when it has been through `done`. */
  ghost predicate SentSoFar(before: map<nat, Channel>, now: map<nat, Channel>, done: set<nat>, stale: set<nat>,
      e: Event) {
    && now.Keys == before.Keys
    && (forall c :: c in stale <==> c in done && c in before && !Accepts(before[c]))
    && (forall c :: c in before ==> now[c] == if c in done && c !in stale then Offer(before[c], e) else before[c])
  }

  lemma SentToOneMore(before: map<nat, Channel>, now: map<nat, Channel>, done: set<nat>, stale: set<nat>, e: Event,
      c: nat)
    requires SentSoFar(before, now, done, stale, e) && c in before && c !in done
    ensures now[c] == before[c]
    ensures if Accepts(before[c]) then SentSoFar(before, now[c := Offer(before[c], e)], done + {c}, stale, e)
            else SentSoFar(before, now, done + {c}, stale + {c}, e)
  {
  }

  lemma AllSent(before: map<nat, Channel>, now: map<nat, Channel>, clients: set<nat>, stale: set<nat>, e: Event)
    requires SentSoFar(before, now, clients, stale, e) && clients <= before.Keys
    ensures stale == set c | c in clients && !Accepts(before[c])
    ensures now == Deliver(before, clients - stale, e)
  {
  }

  class Manager {
    var clients: set<nat>
    var channels: map<nat, Channel>
    var register: seq<nat>
    var unregister: seq<nat>
    var broadcast: seq<string>
    var history: seq<Event>
    var nextID: int
    ghost var log: seq<string>

    ghost function Model(): Hub
      reads this
    {
      Hub(clients, channels, register, unregister, broadcast, history, nextID, log)
    }

    constructor ()
      ensures Model() == EMPTY
    {
      clients, channels := {}, map[];
      register, unregister, broadcast := [], [], [];
      history, nextID, log := [], 1, [];
    }

    // -------------------------------------------------------------- requests

    /** Blocks while the register queue is full. */
    method RequestRegister(c: nat, capacity: nat)
      requires c !in channels && |register| < REGISTER_CAPACITY
      modifies this`channels, this`register
      ensures Model() == Apply(old(Model()), Register(c, capacity))
    {
      channels := channels[c := Channel(capacity, [], false, [], None)];
      register := register + [c];
    }

    /** Dropped when the unregister queue is full. */
    method RequestUnregister(c: nat)
      requires c in channels
      modifies this`unregister
      ensures Model() == Apply(old(Model()), Unregister(c))
    {
      if |unregister| < UNREGISTER_CAPACITY {
        unregister := unregister + [c];
      }
    }

    /** Dropped when the broadcast queue is full. */
    method RequestBroadcast(message: string)
      modifies this`broadcast
      ensures Model() == Apply(old(Model()), Broadcast(message))
    {
      if |broadcast| < BROADCAST_CAPACITY {
        broadcast := broadcast + [message];
      }
    }

    // -------------------------------------------------------------- the select loop

    /** Closing a closed channel would panic, so every caller shows it is open. */
    method Close(c: nat)
      requires c in channels && !channels[c].closed
      modifies this`channels
      ensures channels == old(channels)[c := Closed(old(channels)[c])]
    {
      channels := channels[c := Closed(channels[c])];
    }

    /** Sending on a closed channel would panic; a full channel is left as it is. */
    method TrySend(c: nat, e: Event) returns (sent: bool)
      requires c in channels && !channels[c].closed
      modifies this`channels
      ensures sent == Accepts(old(channels)[c])
      ensures channels == if sent then old(channels)[c := Offer(old(channels)[c], e)] else old(channels)
    {
      var ch := channels[c];
      sent := |ch.queue| < ch.capacity;
      if sent {
        channels := channels[c := ch.(queue := ch.queue + [e], sent := ch.sent + [e])];
      }
    }

    method OnRegister()
      requires Enabled(Model(), HandleRegister) && NoPanic(Model(), HandleRegister)
      modifies this`register, this`clients, this`channels
      ensures Model() == Apply(old(Model()), HandleRegister)
    {
      var c := register[0];
      register := register[1..];
      clients := clients + {c};
      channels := channels[c := channels[c].(joined := Some(nextID))];
    }

    method OnUnregister()
      requires Enabled(Model(), HandleUnregister) && NoPanic(Model(), HandleUnregister)
      modifies this`unregister, this`clients, this`channels
      ensures Model() == Apply(old(Model()), HandleUnregister)
    {
      var c := unregister[0];
      unregister := unregister[1..];
      if c in clients {
        clients := clients - {c};
        Close(c);
      }
    }

    /** The first pass over the clients: send, and collect those whose buffer is full. */
    method SendToAll(e: Event) returns (stale: set<nat>)
      requires forall c :: c in clients ==> c in channels && !channels[c].closed
      modifies this`channels
      ensures stale == set c | c in clients && !Accepts(old(channels)[c])
      ensures channels == Deliver(old(channels), clients - stale, e)
    {
      stale := {};
      var todo := clients;
      while todo != {}
        invariant todo <= clients && stale <= clients - todo
        invariant SentSoFar(old(channels), channels, clients - todo, stale, e)
        decreases |todo|
      {
        var c :| c in todo;
        ghost var before := channels;
        var sent := TrySend(c, e);
        SentToOneMore(old(channels), before, clients - todo, stale, e, c);
        assert clients - (todo - {c}) == clients - todo + {c};
        if !sent {
          stale := stale + {c};
        }
        todo := todo - {c};
      }
      assert clients - {} == clients;
      AllSent(old(channels), channels, clients, stale, e);
    }

    /** The second pass: drop and close the stale clients. */
    method DropStale(stale: set<nat>)
      requires stale <= clients && forall c :: c in stale ==> c in channels && !channels[c].closed
      modifies this`clients, this`channels
      ensures clients == old(clients) - stale
      ensures channels == map c | c in old(channels) :: if c in stale then Closed(old(channels)[c])
          else old(channels)[c]
    {
      var todo := stale;
      while todo != {}
        invariant todo <= stale
        invariant clients == old(clients) - (stale - todo)
        invariant channels.Keys == old(channels).Keys
        invariant forall c :: c in channels ==>
          channels[c] == if c in stale && c !in todo then Closed(old(channels)[c]) else old(channels)[c]
        decreases |todo|
      {
        var c :| c in todo;
        if c in clients {
          clients := clients - {c};
          Close(c);
        }
        todo := todo - {c};
      }
    }

    /** Offers an event to every client and drops those that cannot take it. */
    method DeliverToAll(e: Event)
      requires forall c :: c in clients ==> c in channels && !channels[c].closed
      modifies this`clients, this`channels
      ensures clients == set c | c in old(clients) && Accepts(old(channels)[c])
      ensures channels == Deliver(old(channels), old(clients), e)
    {
      var stale := SendToAll(e);
      if stale != {} {
        DropStale(stale);
      }
      assert clients == old(clients) - stale;
    }

    method OnBroadcast()
      requires Enabled(Model(), HandleBroadcast) && NoPanic(Model(), HandleBroadcast)
      modifies this
      ensures Model() == Apply(old(Model()), HandleBroadcast)
    {
      var message := broadcast[0];
      broadcast := broadcast[1..];
      var e := Event(nextID, message);
      nextID := nextID + 1;
      log := log + [message];
      history := (if |history| >= HISTORY_LIMIT then history[1..] else history) + [e];
      DeliverToAll(e);
    }

    // -------------------------------------------------------------- readers

    method Receive(c: nat) returns (e: Event)
      requires c in channels && channels[c].queue != []
      modifies this`channels
      ensures e == old(channels)[c].queue[0]
      ensures Model() == Apply(old(Model()), Consume(c))
    {
      e := channels[c].queue[0];
      channels := channels[c := channels[c].(queue := channels[c].queue[1..])];
    }

    method WriteBackfill(lastID: int) returns (out: seq<Event>)
      ensures out == Backfill(history, lastID)
    {
      out := [];
      for i := 0 to |history|
        invariant out == Backfill(history[..i], lastID)
      {
        assert history[..i + 1][..i] == history[..i];
        if history[i].id > lastID {
          out := out + [history[i]];
        }
      }
      assert history[..|history|] == history;
    }

    // -------------------------------------------------------------- runs

    /** One turn of the loop or one request, as scheduled from outside. */
    method Perform(step: Step)
      requires Enabled(Model(), step) && NoPanic(Model(), step)
      modifies this
      ensures Model() == Apply(old(Model()), step)
    {
      match step
      case Register(c, capacity) => RequestRegister(c, capacity);
      case Unregister(c) => RequestUnregister(c);
      case Broadcast(message) => RequestBroadcast(message);
      case HandleRegister => OnRegister();
      case HandleUnregister => OnUnregister();
      case HandleBroadcast => OnBroadcast();
      case Consume(c) => var _ := Receive(c);
    }

    /** Any schedule runs through without a panic and ends where the model says. */
    method Serve(steps: seq<Step>)
      requires Reachable(Model()) && RunEnabled(Model(), steps)
      modifies this
      ensures Model() == Run(old(Model()), steps) && Reachable(Model())
      decreases |steps|
    {
      if steps != [] {
        RunsNeverPanic(Model(), steps[0]);
        ReachableStep(Model(), steps[0]);
        Perform(steps[0]);
        Serve(steps[1..]);
      }
    }
  }
}
