/** Suppression of repeated event payloads, and why its garbage collection cannot be noticed. */
module Deduplication {
  const PRUNE_ABOVE: nat := 1000

  /** When each payload was last let through. */
  type Seen = map<string, int>

  datatype Arrival = Arrival(payload: string, at: int)

  predicate Recent(seen: Seen, window: int, a: Arrival) {
    a.payload in seen && a.at - seen[a.payload] < window
  }

  function Prune(seen: Seen, window: int, now: int): Seen {
    map k | k in seen && now - seen[k] <= window * 2 :: seen[k]
  }

  /** The reference: nothing is ever forgotten. */
  function Remember(seen: Seen, window: int, a: Arrival): Seen {
    if Recent(seen, window, a) then seen else seen[a.payload := a.at]
  }

  /** The code: a map of more than 1000 payloads is pruned before the new one is stored. */
  function RememberPruned(seen: Seen, window: int, a: Arrival): Seen {
    if Recent(seen, window, a) then seen
    else (if |seen| > PRUNE_ABOVE then Prune(seen, window, a.at) else seen)[a.payload := a.at]
  }

  function After(window: int, arrivals: seq<Arrival>): Seen {
    if arrivals == [] then map[]
    else Remember(After(window, arrivals[..|arrivals| - 1]), window, arrivals[|arrivals| - 1])
  }

  function AfterPruned(window: int, arrivals: seq<Arrival>): Seen {
    if arrivals == [] then map[]
    else RememberPruned(AfterPruned(window, arrivals[..|arrivals| - 1]), window, arrivals[|arrivals| - 1])
  }

  /** Whether the reference lets arrival `j` through. */
  predicate Accepted(window: int, arrivals: seq<Arrival>, j: nat)
    requires j < |arrivals|
  {
    !Recent(After(window, arrivals[..j]), window, arrivals[j])
  }

  predicate AcceptedPruned(window: int, arrivals: seq<Arrival>, j: nat)
    requires j < |arrivals|
  {
    !Recent(AfterPruned(window, arrivals[..j]), window, arrivals[j])
  }

  predicate InOrder(arrivals: seq<Arrival>) {
    forall i, j :: 0 <= i < j < |arrivals| ==> arrivals[i].at <= arrivals[j].at
  }

  /** What pruning has forgotten is too old to matter from `now` on. */
  ghost predicate Simulates(pruned: Seen, full: Seen, window: int, now: int) {
    && (forall k :: k in pruned ==> k in full && pruned[k] == full[k])
    && (forall k :: k in full ==> full[k] <= now)
    && (forall k :: k in full && k !in pruned ==> now - full[k] >= window)
  }

  lemma RememberSimulates(pruned: Seen, full: Seen, window: int, now: int, a: Arrival)
    requires Simulates(pruned, full, window, now) && now <= a.at
    ensures Recent(pruned, window, a) == Recent(full, window, a)
    ensures Simulates(RememberPruned(pruned, window, a), Remember(full, window, a), window, a.at)
  {
  }

  lemma {:induction false} PrunedSimulates(window: int, arrivals: seq<Arrival>, now: int)
    requires InOrder(arrivals) && (arrivals != [] ==> arrivals[|arrivals| - 1].at <= now)
    ensures Simulates(AfterPruned(window, arrivals), After(window, arrivals), window, now)
  {
    if arrivals != [] {
      var front, last := arrivals[..|arrivals| - 1], arrivals[|arrivals| - 1];
      PrunedSimulates(window, front, last.at);
      RememberSimulates(AfterPruned(window, front), After(window, front), window, last.at, last);
    }
  }

  /** For any window and any arrivals in time order, pruning changes no answer. */
  lemma PruningIsInvisible(window: int, arrivals: seq<Arrival>, j: nat)
    requires InOrder(arrivals) && j < |arrivals|
    ensures AcceptedPruned(window, arrivals, j) == Accepted(window, arrivals, j)
  {
    PrunedSimulates(window, arrivals[..j], arrivals[j].at);
    RememberSimulates(AfterPruned(window, arrivals[..j]), After(window, arrivals[..j]), window, arrivals[j].at,
        arrivals[j]);
  }

  /**
   An accepted payload is remembered with its time; of the others, those more than two
   windows old go if there are more than a thousand, and all stay as they are otherwise.
   */
  lemma AcceptedPayloadIsRemembered(seen: Seen, window: int, payload: string, at: int, k: string)
    ensures var after := RememberPruned(seen, window, Arrival(payload, at));
            if payload in seen && at - seen[payload] < window then after == seen
            else if k == payload then k in after && after[k] == at
            else
              && (k in after <==> k in seen && (|seen| <= 1000 || at - seen[k] <= 2 * window))
              && (k in after ==> after[k] == seen[k])
  {
  }

  // ---------------------------------------------------------------- what the answers mean

  /** Arrival `i` is an earlier accepted copy of `payload`. */
  ghost predicate AcceptedCopy(window: int, arrivals: seq<Arrival>, i: int, payload: string) {
    0 <= i < |arrivals| && arrivals[i].payload == payload && Accepted(window, arrivals, i)
  }

  lemma {:induction false} SeenIsNewestCopy(window: int, arrivals: seq<Arrival>, payload: string)
    requires InOrder(arrivals)
    ensures forall i :: AcceptedCopy(window, arrivals, i, payload) ==>
              payload in After(window, arrivals) && arrivals[i].at <= After(window, arrivals)[payload]
    ensures payload in After(window, arrivals) ==>
              exists i :: AcceptedCopy(window, arrivals, i, payload)
                  && arrivals[i].at == After(window, arrivals)[payload]
  {
    if arrivals != [] {
      var n := |arrivals| - 1;
      var front, last := arrivals[..n], arrivals[n];
      SeenIsNewestCopy(window, front, payload);
      forall i | 0 <= i < n
        ensures AcceptedCopy(window, arrivals, i, payload) <==> AcceptedCopy(window, front, i, payload)
      {
        assert front[..i] == arrivals[..i];
      }
      forall i | AcceptedCopy(window, arrivals, i, payload)
        ensures payload in After(window, arrivals) && arrivals[i].at <= After(window, arrivals)[payload]
      {
        if i < n {
          assert AcceptedCopy(window, front, i, payload);
        }
      }
      if payload in After(window, arrivals) {
        if payload == last.payload && Accepted(window, arrivals, n) {
          assert AcceptedCopy(window, arrivals, n, payload);
        } else {
          var i :| AcceptedCopy(window, front, i, payload) && front[i].at == After(window, front)[payload];
          assert AcceptedCopy(window, arrivals, i, payload);
        }
      }
    }
  }

  /**
   The deduplicator lets a payload through exactly when no accepted copy of it is less
   than one window older: accepted copies are a window apart, and every rejected copy
   has an accepted one within the window before it.
   */
  lemma AcceptedIffNoneWithinWindow(window: int, arrivals: seq<Arrival>, j: nat)
    requires InOrder(arrivals) && j < |arrivals|
    ensures AcceptedPruned(window, arrivals, j) <==>
            !exists i :: 0 <= i < j && AcceptedPruned(window, arrivals, i)
                         && arrivals[i].payload == arrivals[j].payload && arrivals[j].at - arrivals[i].at < window
  {
    var front := arrivals[..j];
    PruningIsInvisible(window, arrivals, j);
    SeenIsNewestCopy(window, front, arrivals[j].payload);
    forall i | 0 <= i < j
      ensures AcceptedPruned(window, arrivals, i) == Accepted(window, front, i)
    {
      PruningIsInvisible(window, arrivals, i);
      assert front[..i] == arrivals[..i];
    }
    if !Accepted(window, arrivals, j) {
      var i :| AcceptedCopy(window, front, i, arrivals[j].payload)
          && front[i].at == After(window, front)[arrivals[j].payload];
      assert AcceptedPruned(window, arrivals, i) && arrivals[i].payload == arrivals[j].payload;
    } else if i :| 0 <= i < j && AcceptedPruned(window, arrivals, i)
                   && arrivals[i].payload == arrivals[j].payload && arrivals[j].at - arrivals[i].at < window {
      assert AcceptedCopy(window, front, i, arrivals[j].payload);
    }
  }

  // ---------------------------------------------------------------- the object

  class Deduplicator {
    var seen: Seen
    const window: int

    constructor (window: int)
      ensures this.window == window && seen == map[]
    {
      this.window := window;
      seen := map[];
    }

    method ShouldProcess(payload: string, now: int) returns (ok: bool)
      modifies this`seen
      ensures ok == !Recent(old(seen), window, Arrival(payload, now))
      ensures seen == RememberPruned(old(seen), window, Arrival(payload, now))
    {
      if payload in seen {
        if now - seen[payload] < window {
          return false;
        }
      }
      if |seen| > PRUNE_ABOVE {
        var todo := seen.Keys;
        while todo != {}
          invariant todo <= seen.Keys <= old(seen).Keys
          invariant forall k :: k in seen ==> seen[k] == old(seen)[k]
          invariant forall k :: k in old(seen) && k !in todo ==> (k in seen <==> now - old(seen)[k] <= window * 2)
          decreases |todo|
        {
          var k :| k in todo;
          todo := todo - {k};
          if now - seen[k] > window * 2 {
            seen := seen - {k};
          }
        }
        assert seen == Prune(old(seen), window, now);
      }
      seen := seen[payload := now];
      ok := true;
    }

    /** A whole stream of payloads gets exactly the answers of the reference. */
    method Filter(arrivals: seq<Arrival>) returns (answers: seq<bool>)
      requires seen == map[] && InOrder(arrivals)
      modifies this`seen
      ensures |answers| == |arrivals|
      ensures forall j :: 0 <= j < |answers| ==> answers[j] == Accepted(window, arrivals, j)
    {
      answers := [];
      for n := 0 to |arrivals|
        invariant seen == AfterPruned(window, arrivals[..n])
        invariant |answers| == n
        invariant forall j :: 0 <= j < n ==> answers[j] == Accepted(window, arrivals, j)
      {
        PruningIsInvisible(window, arrivals, n);
        assert arrivals[..n + 1][..n] == arrivals[..n];
        var ok := ShouldProcess(arrivals[n].payload, arrivals[n].at);
        answers := answers + [ok];
      }
    }
  }
}
