/**
 The search cache: several server instances share one Redis key space and one generation
 counter, and invalidation only moves an instance to a new generation. The code must act
 as if it had deleted every search key.
 */
module GenerationCache {
  import opened Options
  import opened Texts
  import opened Decimals

  const SEARCH: string := "search:"
  const STATS_FRESH: string := "stats:fresh"
  const COUNTER_KEY: string := "search_cache_gen"

  /** `gens` is the generation each open instance remembers; `counter` the shared one. */
  datatype State = State(counter: Option<nat>, store: map<string, string>, gens: map<nat, nat>)

  const EMPTY := State(None, map[], map[])

  // ---------------------------------------------------------------- keys

  predicate IsSearch(key: string) {
    |SEARCH| <= |key| && key[..|SEARCH|] == SEARCH
  }

  function StoredKey(gen: nat, rest: string): string {
    SEARCH + (Print(gen) + ":" + rest)
  }

  /** `resolveKey`, once the instance knows its generation. */
  function Resolve(gen: nat, key: string): string {
    if IsSearch(key) then StoredKey(gen, key[|SEARCH|..]) else key
  }

  lemma StoredKeyInjective(g1: nat, r1: string, g2: nat, r2: string)
    requires StoredKey(g1, r1) == StoredKey(g2, r2)
    ensures g1 == g2 && r1 == r2
  {
    var t1, t2 := Print(g1) + ":" + r1, Print(g2) + ":" + r2;
    assert (SEARCH + t1)[|SEARCH|..] == t1 && (SEARCH + t2)[|SEARCH|..] == t2;
    DigitsHaveNoColon(Print(g1));
    DigitsHaveNoColon(Print(g2));
    FirstColonSplits(Print(g1), r1, Print(g2), r2);
    PrintInjective(g1, g2);
  }

  lemma StoredKeyIsSearch(gen: nat, rest: string)
    ensures IsSearch(StoredKey(gen, rest))
  {
  }

  /** Two resolved keys meet only for the same key and, for search keys, the same generation. */
  lemma ResolveInjective(g1: nat, k1: string, g2: nat, k2: string)
    ensures Resolve(g1, k1) == Resolve(g2, k2) <==> k1 == k2 && (IsSearch(k1) ==> g1 == g2)
  {
    if Resolve(g1, k1) == Resolve(g2, k2) {
      if IsSearch(k1) && IsSearch(k2) {
        StoredKeyInjective(g1, k1[|SEARCH|..], g2, k2[|SEARCH|..]);
        assert k1 == SEARCH + k1[|SEARCH|..] && k2 == SEARCH + k2[|SEARCH|..];
      } else if IsSearch(k1) {
        StoredKeyIsSearch(g1, k1[|SEARCH|..]);
      } else if IsSearch(k2) {
        StoredKeyIsSearch(g2, k2[|SEARCH|..]);
      }
    }
  }

  /** Search keys are stored as "search:", the generation, a colon and the rest; all others as they are. */
  lemma SearchKeysCarryGeneration(gen: nat, key: string, rest: string)
    ensures Resolve(gen, "search:" + rest) == "search:" + (Print(gen) + ":" + rest)
    ensures !("search:" <= key) ==> Resolve(gen, key) == key
  {
    assert ("search:" + rest)[..7] == "search:" && ("search:" + rest)[7..] == rest;
    if |key| >= 7 && key[..7] == "search:" {
      assert "search:" <= key;
    }
  }

  lemma StatsKeyIsPlain(gen: nat, key: string)
    ensures !IsSearch(STATS_FRESH)
    ensures Resolve(gen, key) == STATS_FRESH <==> key == STATS_FRESH
  {
    assert STATS_FRESH[..|SEARCH|][1] != SEARCH[1];
    ResolveInjective(gen, key, 0, STATS_FRESH);
  }

  // ---------------------------------------------------------------- transitions

  datatype Step =
    | Open(instance: nat)
    | Set(instance: nat, key: string, value: string)
    | Delete(instance: nat, key: string)
    | Invalidate(instance: nat)
    | Expire(keys: set<string>)

  /** No caller uses the counter's own key as a cache key. */
  predicate Enabled(s: State, step: Step) {
    match step
    case Open(i) => i !in s.gens
    case Set(i, key, _) => i in s.gens && key != COUNTER_KEY
    case Delete(i, key) => i in s.gens && key != COUNTER_KEY
    case Invalidate(i) => i in s.gens
    case Expire(_) => true
  }

  function Counter(s: State): nat {
    if s.counter.Some? then s.counter.value else 0
  }

  function Apply(s: State, step: Step): State
    requires Enabled(s, step)
  {
    match step
    case Open(i) =>
      var gen := if s.counter.Some? then s.counter.value else 1;
      s.(counter := Some(gen), gens := s.gens[i := gen])
    case Set(i, key, value) => s.(store := s.store[Resolve(s.gens[i], key) := value])
    case Delete(i, key) => s.(store := s.store - {Resolve(s.gens[i], key)})
    case Invalidate(i) =>
      var gen := Counter(s) + 1;
      s.(counter := Some(gen), store := s.store - {STATS_FRESH}, gens := s.gens[i := gen])
    case Expire(keys) => s.(store := s.store - keys)
  }

  predicate RunEnabled(s: State, steps: seq<Step>)
    decreases |steps|, 0
  {
    steps == [] ||
    (RunEnabled(s, steps[..|steps| - 1]) && Enabled(Run(s, steps[..|steps| - 1]), steps[|steps| - 1]))
  }

  function Run(s: State, steps: seq<Step>): State
    requires RunEnabled(s, steps)
    decreases |steps|, 1
  {
    if steps == [] then s else Apply(Run(s, steps[..|steps| - 1]), steps[|steps| - 1])
  }

  /** What instance `i` reads under `key`. */
  function Lookup(s: State, i: nat, key: string): Option<string>
    requires i in s.gens
  {
    var stored := Resolve(s.gens[i], key);
    if stored in s.store then Some(s.store[stored]) else None
  }

  // ---------------------------------------------------------------- generations

  ghost predicate BelowCounter(s: State, stored: string) {
    exists gen: nat, rest :: stored == StoredKey(gen, rest) && 1 <= gen <= Counter(s)
  }

  /** No generation in use, stored or remembered, is ahead of the counter. */
  ghost predicate Inv(s: State) {
    && (s.counter.Some? ==> 1 <= s.counter.value)
    && (forall i :: i in s.gens ==> 1 <= s.gens[i] <= Counter(s))
    && (forall stored :: stored in s.store && IsSearch(stored) ==> BelowCounter(s, stored))
  }

  lemma HigherCounterKeepsKeys(s: State, s': State, stored: string)
    requires BelowCounter(s, stored) && Counter(s) <= Counter(s')
    ensures BelowCounter(s', stored)
  {
    var gen: nat, rest :| stored == StoredKey(gen, rest) && 1 <= gen <= Counter(s);
    assert stored == StoredKey(gen, rest) && 1 <= gen <= Counter(s');
  }

  lemma StepKeepsInv(s: State, step: Step)
    requires Inv(s) && Enabled(s, step)
    ensures Inv(Apply(s, step))
  {
    var s' := Apply(s, step);
    forall stored | stored in s'.store && IsSearch(stored) ensures BelowCounter(s', stored) {
      if stored in s.store {
        HigherCounterKeepsKeys(s, s', stored);
      } else {
        assert stored == StoredKey(s.gens[step.instance], step.key[|SEARCH|..]);
      }
    }
  }

  lemma {:induction false} RunKeepsInv(s: State, steps: seq<Step>)
    requires Inv(s) && RunEnabled(s, steps)
    ensures Inv(Run(s, steps))
  {
    if steps != [] {
      RunKeepsInv(s, steps[..|steps| - 1]);
      StepKeepsInv(Run(s, steps[..|steps| - 1]), steps[|steps| - 1]);
    }
  }

  ghost predicate Reachable(s: State) {
    exists steps :: RunEnabled(EMPTY, steps) && Run(EMPTY, steps) == s
  }

  lemma ReachableKeepsInv(s: State)
    requires Reachable(s)
    ensures Inv(s)
  {
    var steps :| RunEnabled(EMPTY, steps) && Run(EMPTY, steps) == s;
    RunKeepsInv(EMPTY, steps);
  }

  function Invalidations(steps: seq<Step>): nat {
    if steps == [] then 0
    else Invalidations(steps[..|steps| - 1]) + if steps[|steps| - 1].Invalidate? then 1 else 0
  }

  lemma CounterStep(s: State, step: Step)
    requires Enabled(s, step) && (s.gens.Keys == {} ==> s.counter == None) && (s.gens.Keys != {} ==> s.counter.Some?)
    ensures var s' := Apply(s, step);
            && (s'.gens.Keys == {} ==> s'.counter == None)
            && (s'.gens.Keys != {} ==>
                  s'.counter == Some((if s.counter.Some? then s.counter.value else 1)
                                     + if step.Invalidate? then 1 else 0))
  {
    if step.Open? || step.Invalidate? {
      assert step.instance in Apply(s, step).gens.Keys;
    }
  }

  /** Once any instance has opened, the shared counter is one more than the invalidations of the run. */
  lemma {:induction false} CounterCountsInvalidations(steps: seq<Step>)
    requires RunEnabled(EMPTY, steps)
    ensures var s := Run(EMPTY, steps);
            && (s.gens.Keys == {} ==> s.counter == None && Invalidations(steps) == 0)
            && (s.gens.Keys != {} ==> s.counter == Some(1 + Invalidations(steps)))
  {
    if steps != [] {
      CounterCountsInvalidations(steps[..|steps| - 1]);
      CounterStep(Run(EMPTY, steps[..|steps| - 1]), steps[|steps| - 1]);
      var before, step := Run(EMPTY, steps[..|steps| - 1]), steps[|steps| - 1];
      assert step.Invalidate? ==> step.instance in before.gens.Keys;
      assert before.gens.Keys <= Apply(before, step).gens.Keys;
    }
  }

  /** An instance takes the counter over when it opens or invalidates, and keeps what it has at all other times. */
  lemma InstancesFollowCounter(s: State, step: Step, i: nat)
    requires Enabled(s, step)
    ensures var s' := Apply(s, step);
            if step == Open(i) || step == Invalidate(i) then i in s'.gens && s'.counter == Some(s'.gens[i])
            else (i in s'.gens <==> i in s.gens) && (i in s.gens ==> s'.gens[i] == s.gens[i])
  {
  }

  // ---------------------------------------------------------------- invalidation is a flush

  lemma NothingAboveCounter(s: State, gen: nat, rest: string)
    requires Inv(s) && gen > Counter(s)
    ensures StoredKey(gen, rest) !in s.store
  {
    StoredKeyIsSearch(gen, rest);
    if StoredKey(gen, rest) in s.store {
      var g: nat, r :| StoredKey(gen, rest) == StoredKey(g, r) && 1 <= g <= Counter(s);
      StoredKeyInjective(gen, rest, g, r);
    }
  }

  /**
   After an instance invalidates, every search key misses for it; other keys, except the
   stats marker, and everything other instances see are as before.
   */
  lemma InvalidateActsAsFlush(s: State, i: nat, j: nat, key: string)
    requires Reachable(s) && i in s.gens && j in s.gens
    ensures var s' := Apply(s, Invalidate(i));
            Lookup(s', j, key) ==
              if key == STATS_FRESH || (j == i && IsSearch(key)) then None else Lookup(s, j, key)
  {
    ReachableKeepsInv(s);
    StatsKeyIsPlain(s.gens[j], key);
    if j == i && IsSearch(key) {
      NothingAboveCounter(s, Counter(s) + 1, key[|SEARCH|..]);
    }
  }

  /** A write is seen by exactly the instances of the same generation (for other keys, by all). */
  lemma SetIsSeenByItsGeneration(s: State, i: nat, k: string, value: string, j: nat, key: string)
    requires i in s.gens && j in s.gens && k != COUNTER_KEY
    ensures Lookup(Apply(s, Set(i, k, value)), j, key) ==
              if k == key && (IsSearch(k) ==> s.gens[i] == s.gens[j]) then Some(value) else Lookup(s, j, key)
  {
    ResolveInjective(s.gens[i], k, s.gens[j], key);
  }

  lemma DeleteIsSeenByItsGeneration(s: State, i: nat, k: string, j: nat, key: string)
    requires i in s.gens && j in s.gens && k != COUNTER_KEY
    ensures Lookup(Apply(s, Delete(i, k)), j, key) ==
              if k == key && (IsSearch(k) ==> s.gens[i] == s.gens[j]) then None else Lookup(s, j, key)
  {
    ResolveInjective(s.gens[i], k, s.gens[j], key);
  }

  // ---------------------------------------------------------------- whole runs

  /**
   The reference, free of key formats: the last value written to `key` by an instance
   that was then at generation `gen` (for keys that are no search keys, by any), unless
   it was deleted since or, for the stats marker, an invalidation came in between.
   */
  function LastWritten(s: State, steps: seq<Step>, gen: nat, key: string): Option<string>
    requires RunEnabled(s, steps)
  {
    if steps == [] then None
    else
      var front := steps[..|steps| - 1];
      var before := Run(s, front);
      match steps[|steps| - 1]
      case Set(i, k, v) =>
        if k == key && (IsSearch(k) ==> before.gens[i] == gen) then Some(v) else LastWritten(s, front, gen, key)
      case Delete(i, k) =>
        if k == key && (IsSearch(k) ==> before.gens[i] == gen) then None else LastWritten(s, front, gen, key)
      case Invalidate(_) =>
        if key == STATS_FRESH then None else LastWritten(s, front, gen, key)
      case Open(_) => LastWritten(s, front, gen, key)
      case Expire(_) => LastWritten(s, front, gen, key)
  }

  lemma {:induction false} StoreHoldsLastWritten(steps: seq<Step>, gen: nat, key: string)
    requires RunEnabled(EMPTY, steps)
    ensures var stored, store := Resolve(gen, key), Run(EMPTY, steps).store;
            stored in store ==> LastWritten(EMPTY, steps, gen, key) == Some(store[stored])
  {
    if steps != [] {
      var front, last := steps[..|steps| - 1], steps[|steps| - 1];
      StoreHoldsLastWritten(front, gen, key);
      match last
      case Set(i, k, _) => ResolveInjective(Run(EMPTY, front).gens[i], k, gen, key);
      case Delete(i, k) => ResolveInjective(Run(EMPTY, front).gens[i], k, gen, key);
      case _ => StatsKeyIsPlain(gen, key);
    }
  }

  lemma {:induction false} NoWritesAheadOfCounter(steps: seq<Step>, gen: nat, key: string)
    requires RunEnabled(EMPTY, steps) && IsSearch(key) && gen > Counter(Run(EMPTY, steps))
    ensures LastWritten(EMPTY, steps, gen, key) == None
  {
    if steps != [] {
      var front := steps[..|steps| - 1];
      RunKeepsInv(EMPTY, front);
      NoWritesAheadOfCounter(front, gen, key);
    }
  }

  /**
   Over every run, with any number of instances sharing the counter: a read gives the
   last value written under the reader's current generation, or misses. Right after its
   own invalidation that generation has seen no write at all.
   */
  lemma ReadsGiveLastWriteOfGeneration(steps: seq<Step>, i: nat, key: string)
    requires RunEnabled(EMPTY, steps) && i in Run(EMPTY, steps).gens
    ensures var s := Run(EMPTY, steps);
            Lookup(s, i, key).Some? ==> Lookup(s, i, key) == LastWritten(EMPTY, steps, s.gens[i], key)
    ensures var s := Run(EMPTY, steps);
            IsSearch(key) && steps != [] && steps[|steps| - 1] == Invalidate(i) ==>
              LastWritten(EMPTY, steps, s.gens[i], key) == None && Lookup(s, i, key) == None
  {
    var s := Run(EMPTY, steps);
    StoreHoldsLastWritten(steps, s.gens[i], key);
    if IsSearch(key) && steps != [] && steps[|steps| - 1] == Invalidate(i) {
      var front := steps[..|steps| - 1];
      NoWritesAheadOfCounter(front, s.gens[i], key);
    }
  }

  /** Without expiry a read misses only when there is nothing to give. */
  lemma {:induction false} NothingIsLostWithoutExpiry(steps: seq<Step>, gen: nat, key: string)
    requires RunEnabled(EMPTY, steps) && forall n :: 0 <= n < |steps| ==> !steps[n].Expire?
    ensures var stored, store := Resolve(gen, key), Run(EMPTY, steps).store;
            LastWritten(EMPTY, steps, gen, key) == if stored in store then Some(store[stored]) else None
  {
    if steps != [] {
      var front, last := steps[..|steps| - 1], steps[|steps| - 1];
      NothingIsLostWithoutExpiry(front, gen, key);
      match last
      case Set(i, k, _) => ResolveInjective(Run(EMPTY, front).gens[i], k, gen, key);
      case Delete(i, k) => ResolveInjective(Run(EMPTY, front).gens[i], k, gen, key);
      case _ => StatsKeyIsPlain(gen, key);
    }
  }

  /**
   The flush does not reach a value computed before it: a writer that resolves its key
   only after the invalidation files the old value under the new generation.
   */
  lemma LateSetSurvivesInvalidation(s: State, i: nat, key: string, stale: string)
    requires Reachable(s) && i in s.gens && IsSearch(key) && key != COUNTER_KEY
    ensures var s' := Apply(Apply(s, Invalidate(i)), Set(i, key, stale));
            Lookup(s', i, key) == Some(stale)
  {
    SetIsSeenByItsGeneration(Apply(s, Invalidate(i)), i, key, stale, i, key);
  }
}
