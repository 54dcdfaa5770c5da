/**
 Confluence and termination of the worker: whatever the batching, order or duplication
 of the pending rows, a drain without failures ends in the same index, after exactly
 as many non-empty runs as the backlog needs.
 */
module OutboxDrain {
  import opened Options
  import opened OutboxModel
  import opened OutboxCoverage

  /** The environment of a batch in which nothing fails. */
  function Clean(now: int): Env {
    Env(true, {}, true, {}, {}, now)
  }

  ghost predicate Wants(s: State, k: nat) {
    if k in s.dies && HasRow(s.rows, SyncDie, k) then true
    else k in s.index && !HasRow(s.rows, DeleteDie, k)
  }

  /** The index the pending rows ask for, as a function of which rows are pending only. */
  ghost function Settled(s: State): map<nat, Document> {
    map k | k in s.dies.Keys + s.index.Keys && Wants(s, k) ::
      if k in s.dies && HasRow(s.rows, SyncDie, k) then ToDocument(s.dies[k], s.sets) else s.index[k]
  }

  ghost predicate Drained(s: State) {
    forall i :: 0 <= i < |s.rows| ==> s.rows[i].processedAt.Some?
  }

  // ---------------------------------------------------------------- one batch

  lemma CleanBatchCloses(s: State, batch: seq<nat>, now: int)
    requires DeletesGone(s) && BatchEnabled(s.rows, batch)
    ensures forall i :: 0 <= i < |s.rows| ==> (Closes(s.rows, batch, Clean(now), i) <==> i in batch)
  {
    forall i | 0 <= i < |s.rows| && i in batch ensures Closes(s.rows, batch, Clean(now), i) {
      var r := s.rows[i];
      if Verified(r) && r.kind.DeleteDie? {
        assert IsPending(r, DeleteDie, r.payload.dieId);
        assert HasRow(s.rows, DeleteDie, r.payload.dieId);
        OfKindMembers(s.rows, batch, DeleteDie);
        KeysOfMembers(s.rows, OfKind(s.rows, batch, DeleteDie), i);
      }
    }
  }

  /** A pending key is either worked off by the batch or still pending after it. */
  lemma PendingSplits(s: State, batch: seq<nat>, now: int, kind: Kind, k: nat)
    requires DeletesGone(s) && BatchEnabled(s.rows, batch) && k != 0 && !kind.UnknownKind?
    ensures HasRow(s.rows, kind, k) <==>
            HasRow(ProcessBatch(s, batch, Clean(now)).rows, kind, k) || k in KeysOf(s.rows, OfKind(s.rows, batch, kind))
  {
    var s' := ProcessBatch(s, batch, Clean(now));
    CleanBatchCloses(s, batch, now);
    OfKindMembers(s.rows, batch, kind);
    if HasRow(s.rows, kind, k) {
      var i :| 0 <= i < |s.rows| && IsPending(s.rows[i], kind, k);
      if i in batch {
        KeysOfMembers(s.rows, OfKind(s.rows, batch, kind), i);
      } else {
        assert IsPending(s'.rows[i], kind, k);
      }
    }
    if HasRow(s'.rows, kind, k) {
      var i :| 0 <= i < |s'.rows| && IsPending(s'.rows[i], kind, k);
      assert IsPending(s.rows[i], kind, k);
    }
    if k in KeysOf(s.rows, OfKind(s.rows, batch, kind)) {
      var idxs := OfKind(s.rows, batch, kind);
      var j :| 0 <= j < |idxs| && s.rows[idxs[j]].payload.dieId == k;
      assert idxs[j] in idxs;
      assert IsPending(s.rows[idxs[j]], kind, k);
    }
  }

  lemma BatchKeepsWants(s: State, batch: seq<nat>, now: int, k: nat)
    requires DeletesGone(s) && BatchEnabled(s.rows, batch) && 0 !in s.index
    ensures var s' := ProcessBatch(s, batch, Clean(now));
            && 0 !in s'.index
            && (Wants(s', k) <==> Wants(s, k))
            && (Wants(s, k) ==>
                  && k in s.dies.Keys + s.index.Keys && k in s'.dies.Keys + s'.index.Keys
                  && Settled(s')[k] == Settled(s)[k])
  {
    DeleteKeysGone(s, batch);
    if k != 0 {
      PendingSplits(s, batch, now, SyncDie, k);
      PendingSplits(s, batch, now, DeleteDie, k);
    }
  }

  /** One batch moves the index towards the settled one without moving the latter. */
  lemma BatchKeepsSettled(s: State, batch: seq<nat>, now: int)
    requires DeletesGone(s) && BatchEnabled(s.rows, batch) && 0 !in s.index
    ensures Settled(ProcessBatch(s, batch, Clean(now))) == Settled(s)
    ensures 0 !in ProcessBatch(s, batch, Clean(now)).index
  {
    var s' := ProcessBatch(s, batch, Clean(now));
    BatchKeepsWants(s, batch, now, 0);
    forall k: nat
      ensures k in Settled(s') <==> k in Settled(s)
      ensures k in Settled(s) ==> Settled(s')[k] == Settled(s)[k]
    {
      BatchKeepsWants(s, batch, now, k);
    }
  }

  // ---------------------------------------------------------------- schedules

  /** A schedule: which rows each worker run took, and when it ran. */
  datatype WorkerRun = WorkerRun(batch: seq<nat>, now: int)

  predicate ScheduleEnabled(s: State, runs: seq<WorkerRun>)
    decreases |runs|
  {
    runs == [] ||
    (BatchEnabled(s.rows, runs[0].batch) &&
     ScheduleEnabled(ProcessBatch(s, runs[0].batch, Clean(runs[0].now)), runs[1..]))
  }

  function Execute(s: State, runs: seq<WorkerRun>): State
    requires ScheduleEnabled(s, runs)
    decreases |runs|
  {
    if runs == [] then s
    else Execute(ProcessBatch(s, runs[0].batch, Clean(runs[0].now)), runs[1..])
  }

  lemma {:induction false} ScheduleReachesSettled(s: State, runs: seq<WorkerRun>)
    requires DeletesGone(s) && 0 !in s.index && ScheduleEnabled(s, runs)
    requires Drained(Execute(s, runs))
    ensures Execute(s, runs).index == Settled(s)
    decreases |runs|
  {
    if runs == [] {
      assert forall kind: Kind, k: nat :: !HasRow(s.rows, kind, k);
      assert Settled(s).Keys == s.index.Keys;
    } else {
      var s' := ProcessBatch(s, runs[0].batch, Clean(runs[0].now));
      BatchKeepsSettled(s, runs[0].batch, runs[0].now);
      ProcessKeepsDeletesGone(s, runs[0].batch, Clean(runs[0].now));
      ScheduleReachesSettled(s', runs[1..]);
    }
  }

  ghost predicate SameDemand(rows1: seq<OutboxRow>, rows2: seq<OutboxRow>) {
    forall kind: Kind, k: nat :: HasRow(rows1, kind, k) <==> HasRow(rows2, kind, k)
  }

  lemma SameDemandSettlesAlike(s1: State, s2: State)
    requires s1.dies == s2.dies && s1.sets == s2.sets && s1.index == s2.index
    requires SameDemand(s1.rows, s2.rows)
    ensures Settled(s1) == Settled(s2)
  {
    assert forall k: nat :: Wants(s1, k) <==> Wants(s2, k);
  }

  /**
   Confluence: two backlogs that ask for the same dies, however ordered, split or
   duplicated, drain to the same index.
   */
  lemma DrainsAreConfluent(s1: State, runs1: seq<WorkerRun>, s2: State, runs2: seq<WorkerRun>)
    requires DeletesGone(s1) && DeletesGone(s2) && 0 !in s1.index
    requires s1.dies == s2.dies && s1.sets == s2.sets && s1.index == s2.index
    requires SameDemand(s1.rows, s2.rows)
    requires ScheduleEnabled(s1, runs1) && Drained(Execute(s1, runs1))
    requires ScheduleEnabled(s2, runs2) && Drained(Execute(s2, runs2))
    ensures Execute(s1, runs1).index == Execute(s2, runs2).index
  {
    ScheduleReachesSettled(s1, runs1);
    ScheduleReachesSettled(s2, runs2);
    SameDemandSettlesAlike(s1, s2);
  }

  // ---------------------------------------------------------------- the backlog

  function Backlog(rows: seq<OutboxRow>, start: nat): nat
    requires start <= |rows|
    decreases |rows| - start
  {
    if start == |rows| then 0
    else (if rows[start].processedAt.None? then 1 else 0) + Backlog(rows, start + 1)
  }

  lemma {:induction false} SelectionSize(rows: seq<OutboxRow>, limit: nat, start: nat)
    requires start <= |rows|
    ensures |SelectPending(rows, {}, limit, start)|
        == if Backlog(rows, start) < limit then Backlog(rows, start) else limit
    decreases |rows| - start
  {
    if limit != 0 && start < |rows| {
      SelectionSize(rows, if rows[start].processedAt.None? then limit - 1 else limit, start + 1);
    }
  }

  lemma {:induction false} ClosingShrinksBacklog(rows: seq<OutboxRow>, rows': seq<OutboxRow>, limit: nat, start: nat)
    requires start <= |rows| == |rows'|
    requires forall i :: start <= i < |rows| ==>
      (rows'[i].processedAt.None? <==> rows[i].processedAt.None? && i !in SelectPending(rows, {}, limit, start))
    ensures Backlog(rows', start) == Backlog(rows, start) - |SelectPending(rows, {}, limit, start)|
    decreases |rows| - start
  {
    if start < |rows| {
      var limit' := if limit != 0 && rows[start].processedAt.None? then limit - 1 else limit;
      var tail := SelectPending(rows, {}, limit', start + 1);
      assert limit != 0 && rows[start].processedAt.None? ==> SelectPending(rows, {}, limit, start) == [start] + tail;
      ClosingShrinksBacklog(rows, rows', limit', start + 1);
    }
  }

  function NextBatch(s: State): seq<nat> {
    SelectPending(s.rows, {}, BATCH_LIMIT, 0)
  }

  lemma NextBatchShrinks(s: State, now: int)
    requires DeletesGone(s)
    ensures BatchEnabled(s.rows, NextBatch(s))
    ensures var s' := ProcessBatch(s, NextBatch(s), Clean(now));
            DeletesGone(s') && Backlog(s'.rows, 0) == Backlog(s.rows, 0) - |NextBatch(s)|
    ensures |NextBatch(s)| == if Backlog(s.rows, 0) < BATCH_LIMIT then Backlog(s.rows, 0) else BATCH_LIMIT
  {
    var batch := NextBatch(s);
    SelectionSize(s.rows, BATCH_LIMIT, 0);
    ProcessKeepsDeletesGone(s, batch, Clean(now));
    CleanBatchCloses(s, batch, now);
    ClosingShrinksBacklog(s.rows, ProcessBatch(s, batch, Clean(now)).rows, BATCH_LIMIT, 0);
  }

  /**
   One trigger of the worker and the runs it schedules itself: a run that took a full
   batch asks for another. Returns the final state and the number of non-empty runs.
   */
  function Chain(s: State, now: int): (State, nat)
    requires DeletesGone(s)
    decreases Backlog(s.rows, 0)
  {
    NextBatchShrinks(s, now);
    var batch := NextBatch(s);
    if batch == [] then (s, 0)
    else
      var s' := ProcessBatch(s, batch, Clean(now));
      if |batch| < BATCH_LIMIT then (s', 1)
      else
        var (last, runs) := Chain(s', now);
        (last, runs + 1)
  }

  lemma {:induction false} NoBacklogIsDrained(rows: seq<OutboxRow>, start: nat)
    requires start <= |rows| && Backlog(rows, start) == 0
    ensures forall i :: start <= i < |rows| ==> rows[i].processedAt.Some?
    decreases |rows| - start
  {
    if start < |rows| {
      NoBacklogIsDrained(rows, start + 1);
    }
  }

  /** A drain of n rows ends after ceil(n / 250) non-empty runs, in the settled index. */
  lemma {:induction false} ChainDrains(s: State, now: int)
    requires DeletesGone(s) && 0 !in s.index
    ensures var (last, runs) := Chain(s, now);
            && Drained(last)
            && last.index == Settled(s)
            && runs == (Backlog(s.rows, 0) + 249) / 250
            && last.dies == s.dies && last.sets == s.sets && last.tasks == s.tasks && last.owed == s.owed
    decreases Backlog(s.rows, 0)
  {
    NextBatchShrinks(s, now);
    var batch := NextBatch(s);
    if batch == [] {
      NoBacklogIsDrained(s.rows, 0);
      ScheduleReachesSettled(s, []);
    } else {
      var s' := ProcessBatch(s, batch, Clean(now));
      BatchKeepsSettled(s, batch, now);
      if |batch| < BATCH_LIMIT {
        NoBacklogIsDrained(s'.rows, 0);
        ScheduleReachesSettled(s', []);
      } else {
        ChainDrains(s', now);
      }
    }
  }

  lemma WantedIffLive(s: State, k: nat)
    requires Inv(s) && s.tasks == multiset{} && s.owed == {}
    ensures Wants(s, k) <==> k in s.dies
  {
    assert Agrees(s, k) || Covered(s, k);
  }

  lemma SettlesAsDocument(s: State, k: nat)
    requires Inv(s) && s.tasks == multiset{} && s.owed == {} && k in s.dies && Wants(s, k)
    ensures k in Settled(s) && Settled(s)[k] == ToDocument(s.dies[k], s.sets)
  {
    assert Agrees(s, k) || Covered(s, k);
  }

  lemma CoveredSettlesInSync(s: State)
    requires Inv(s) && s.tasks == multiset{} && s.owed == {}
    ensures Settled(s) == AllDocs(s)
  {
    forall k: nat
      ensures k in Settled(s) <==> k in AllDocs(s)
      ensures k in AllDocs(s) ==> Settled(s)[k] == AllDocs(s)[k]
    {
      WantedIffLive(s, k);
      if k in s.dies {
        SettlesAsDocument(s, k);
      }
    }
  }

  /** With no task in flight and no import half way, one drain brings the index in sync. */
  lemma DrainSynchronises(s: State, now: int)
    requires Inv(s) && s.tasks == multiset{} && s.owed == {}
    ensures Chain(s, now).0.index == AllDocs(s)
  {
    assert Agrees(s, 0) || Covered(s, 0);
    ChainDrains(s, now);
    CoveredSettlesInSync(s);
  }

  /** A rebuild at any quiet moment gives what a drain would, and a drain after it changes nothing. */
  lemma RebuildEqualsDrain(s: State, now: int)
    requires Inv(s) && s.tasks == multiset{} && s.owed == {}
    ensures var rebuilt := Apply(s, Rebuild);
            rebuilt.index == Chain(s, now).0.index && Chain(rebuilt, now).0.index == rebuilt.index
  {
    StepCovers(s, Rebuild);
    DrainSynchronises(s, now);
    DrainSynchronises(Apply(s, Rebuild), now);
  }
}
