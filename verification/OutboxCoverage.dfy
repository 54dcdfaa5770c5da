/**
 Coverage: in every reachable state a die whose document differs from its row still has
 work outstanding, so an empty outbox means index and database agree.
 */
module OutboxCoverage {
  import opened Options
  import opened OutboxModel

  // ---------------------------------------------------------------- rows and tasks

  lemma HasRowAppend(rows: seq<OutboxRow>, more: seq<OutboxRow>, kind: Kind, k: nat)
    ensures HasRow(rows + more, kind, k) <==> HasRow(rows, kind, k) || HasRow(more, kind, k)
  {
    var all := rows + more;
    if HasRow(all, kind, k) {
      var i :| 0 <= i < |all| && IsPending(all[i], kind, k);
      if i < |rows| {
        assert IsPending(rows[i], kind, k);
      } else {
        assert IsPending(more[i - |rows|], kind, k);
      }
    }
    if HasRow(rows, kind, k) {
      var i :| 0 <= i < |rows| && IsPending(rows[i], kind, k);
      assert IsPending(all[i], kind, k);
    }
    if HasRow(more, kind, k) {
      var i :| 0 <= i < |more| && IsPending(more[i], kind, k);
      assert IsPending(all[|rows| + i], kind, k);
    }
  }

  lemma HasRowAppendOne(rows: seq<OutboxRow>, r: OutboxRow, kind: Kind, k: nat)
    ensures HasRow(rows + [r], kind, k) <==> HasRow(rows, kind, k) || IsPending(r, kind, k)
  {
    HasRowAppend(rows, [r], kind, k);
    if IsPending(r, kind, k) {
      assert IsPending([r][0], kind, k);
    }
  }

  lemma {:induction false} OfKindMembers(rows: seq<OutboxRow>, batch: seq<nat>, kind: Kind)
    requires IndicesOf(rows, batch)
    ensures forall i :: i in OfKind(rows, batch, kind) <==> i in batch && Verified(rows[i]) && rows[i].kind == kind
  {
    if batch != [] {
      var front := batch[..|batch| - 1];
      OfKindMembers(rows, front, kind);
      assert batch == front + [batch[|batch| - 1]];
    }
  }

  lemma KeysOfMembers(rows: seq<OutboxRow>, idxs: seq<nat>, i: nat)
    requires IndicesOf(rows, idxs) && i in idxs && rows[i].payload.dieId != 0
    ensures rows[i].payload.dieId in KeysOf(rows, idxs)
  {
    var j :| 0 <= j < |idxs| && idxs[j] == i;
  }

  lemma {:induction false} FallbackMembers(rows: seq<OutboxRow>, idxs: seq<nat>, queued: set<nat>, t: Task)
    requires IndicesOf(rows, idxs)
    ensures t in FallbackTasks(rows, idxs, queued) <==>
            exists i :: i in idxs && i in queued && FallbackTask(rows[i]) == t
  {
    if idxs != [] {
      var front := idxs[..|idxs| - 1];
      FallbackMembers(rows, front, queued, t);
      assert idxs == front + [idxs[|idxs| - 1]];
    }
  }

  /** A row that survives pruning is exactly one that was pending before. */
  lemma {:induction false} PruneKeepsPending(rows: seq<OutboxRow>, cutoff: int, kind: Kind, k: nat)
    ensures HasRow(KeepUnexpired(rows, cutoff), kind, k) <==> HasRow(rows, kind, k)
  {
    if rows == [] {
    } else {
      var front, r := rows[..|rows| - 1], rows[|rows| - 1];
      PruneKeepsPending(front, cutoff, kind, k);
      assert rows == front + [r];
      HasRowAppendOne(front, r, kind, k);
      HasRowAppendOne(KeepUnexpired(front, cutoff), r, kind, k);
    }
  }

  // ---------------------------------------------------------------- web transactions

  ghost predicate TxInv(s: State, pending: set<nat>) {
    Inv(s) && forall k :: k in pending ==> HasRow(s.rows, SyncDie, k)
  }

  lemma QueueSyncCovers(s: State, pending: set<nat>, pk: nat)
    requires DeletesGone(s)
    requires forall k: nat :: k == pk || Agrees(s, k) || Covered(s, k)
    requires pk in s.dies
    requires forall k :: k in pending ==> HasRow(s.rows, SyncDie, k)
    ensures var (s', pending') := QueueSync(s, pending, pk); TxInv(s', pending')
  {
    var (s', pending') := QueueSync(s, pending, pk);
    if pk !in pending {
      forall kind: Kind, k: nat
        ensures HasRow(s'.rows, kind, k) <==> HasRow(s.rows, kind, k) || IsPending(SyncRow(pk), kind, k)
      {
        HasRowAppendOne(s.rows, SyncRow(pk), kind, k);
      }
    }
    forall k: nat ensures Agrees(s', k) || Covered(s', k) {
      if k != pk {
        assert Agrees(s, k) || Covered(s, k);
      } else {
        assert HasRow(s'.rows, SyncDie, pk);
      }
    }
  }

  lemma CreateCovers(s: State, pending: set<nat>, die: Die)
    requires TxInv(s, pending)
    ensures var (s', pending') := ApplyOp(s, pending, Create(die)); TxInv(s', pending')
  {
    var s1 := s.(dies := s.dies[s.nextPk := die], nextPk := s.nextPk + 1);
    forall k: nat ensures k == s.nextPk || Agrees(s1, k) || Covered(s1, k) {
      assert Agrees(s, k) || Covered(s, k);
    }
    QueueSyncCovers(s1, pending, s.nextPk);
  }

  lemma SaveCovers(s: State, pending: set<nat>, pk: nat, die: Die)
    requires TxInv(s, pending) && pk in s.dies
    ensures var (s', pending') := ApplyOp(s, pending, Save(pk, die)); TxInv(s', pending')
  {
    var s1 := s.(dies := s.dies[pk := die]);
    forall k: nat ensures k == pk || Agrees(s1, k) || Covered(s1, k) {
      assert Agrees(s, k) || Covered(s, k);
    }
    QueueSyncCovers(s1, pending, pk);
  }

  /** The delete row is the only new one. */
  lemma DeleteAddsRow(s: State, pending: set<nat>, pk: nat, kind: Kind, k: nat)
    requires pk in s.dies
    ensures var (s', _) := ApplyOp(s, pending, Delete(pk));
            HasRow(s'.rows, kind, k) <==> HasRow(s.rows, kind, k) || (kind == DeleteDie && k == pk)
  {
    HasRowAppendOne(s.rows, DeleteRow(pk, Some(s.dies[pk].dieId)), kind, k);
  }

  lemma DeleteCovers(s: State, pending: set<nat>, pk: nat)
    requires TxInv(s, pending) && pk in s.dies
    ensures var (s', pending') := ApplyOp(s, pending, Delete(pk)); TxInv(s', pending')
  {
    var (s', _) := ApplyOp(s, pending, Delete(pk));
    forall kind: Kind, k: nat
      ensures HasRow(s'.rows, kind, k) <==> HasRow(s.rows, kind, k) || (kind == DeleteDie && k == pk)
    {
      DeleteAddsRow(s, pending, pk, kind, k);
    }
    forall k: nat ensures Agrees(s', k) || Covered(s', k) {
      assert Agrees(s, k) || Covered(s, k);
    }
  }

  lemma ApplyOpCovers(s: State, pending: set<nat>, op: Op)
    requires TxInv(s, pending) && OpEnabled(s, op)
    ensures var (s', pending') := ApplyOp(s, pending, op); TxInv(s', pending')
  {
    match op
    case Create(die) => CreateCovers(s, pending, die);
    case Save(pk, die) => SaveCovers(s, pending, pk, die);
    case Delete(pk) => DeleteCovers(s, pending, pk);
  }

  lemma {:induction false} TransactCovers(s: State, pending: set<nat>, ops: seq<Op>)
    requires TxInv(s, pending) && OpsEnabled(s, pending, ops)
    ensures Inv(ApplyOps(s, pending, ops))
    decreases |ops|
  {
    if ops != [] {
      ApplyOpCovers(s, pending, ops[0]);
      var (s', pending') := ApplyOp(s, pending, ops[0]);
      TransactCovers(s', pending', ops[1..]);
    }
  }

  // ---------------------------------------------------------------- the worker

  /** Removing absent dies and uploading current documents never breaks agreement. */
  lemma WritesKeepAgreement(s: State, s': State, gone: set<nat>, pks: set<nat>, k: nat)
    requires s'.dies == s.dies && s'.sets == s.sets
    requires s'.index == s.index - gone + Docs(s.dies, s.sets, pks)
    requires forall g :: g in gone ==> g !in s.dies
    ensures Agrees(s, k) ==> Agrees(s', k)
    ensures k in s.dies && k in pks ==> Agrees(s', k)
    ensures k !in s.dies && k in gone ==> Agrees(s', k)
  {
  }

  lemma DeleteKeysGone(s: State, batch: seq<nat>)
    requires DeletesGone(s) && BatchEnabled(s.rows, batch)
    ensures forall i :: i in OfKind(s.rows, batch, DeleteDie) ==> HasRow(s.rows, DeleteDie, s.rows[i].payload.dieId)
    ensures forall k :: k in KeysOf(s.rows, OfKind(s.rows, batch, DeleteDie)) ==> k !in s.dies
  {
    OfKindMembers(s.rows, batch, DeleteDie);
    forall i | i in OfKind(s.rows, batch, DeleteDie)
      ensures HasRow(s.rows, DeleteDie, s.rows[i].payload.dieId)
    {
      assert IsPending(s.rows[i], DeleteDie, s.rows[i].payload.dieId);
    }
  }

  lemma ProcessKeepsDeletesGone(s: State, batch: seq<nat>, env: Env)
    requires DeletesGone(s) && BatchEnabled(s.rows, batch)
    ensures DeletesGone(ProcessBatch(s, batch, env))
  {
    var s' := ProcessBatch(s, batch, env);
    DeleteKeysGone(s, batch);
    OfKindMembers(s.rows, batch, SyncDie);
    OfKindMembers(s.rows, batch, DeleteDie);
    forall k: nat | HasRow(s'.rows, DeleteDie, k) ensures HasRow(s.rows, DeleteDie, k) {
      var i :| 0 <= i < |s'.rows| && IsPending(s'.rows[i], DeleteDie, k);
      assert IsPending(s.rows[i], DeleteDie, k);
    }
    forall k: nat | DeleteTask(k) in s'.tasks ensures 0 < k < s.nextPk && k !in s.dies {
      FallbackMembers(s.rows, OfKind(s.rows, batch, DeleteDie), env.queued, DeleteTask(k));
      FallbackMembers(s.rows, OfKind(s.rows, batch, SyncDie), env.queued, DeleteTask(k));
    }
  }

  /** A pending row taken into a batch leaves agreement, a task, or itself behind. */
  lemma ProcessedRowIsSettled(s: State, batch: seq<nat>, env: Env, i: nat, k: nat)
    requires DeletesGone(s) && BatchEnabled(s.rows, batch) && i < |s.rows|
    requires IsPending(s.rows[i], if k in s.dies then SyncDie else DeleteDie, k)
    ensures var s' := ProcessBatch(s, batch, env); Agrees(s', k) || Covered(s', k)
  {
    var s' := ProcessBatch(s, batch, env);
    var kind := if k in s.dies then SyncDie else DeleteDie;
    if !Closes(s.rows, batch, env, i) {
      assert IsPending(s'.rows[i], kind, k);
    } else {
      var mine := OfKind(s.rows, batch, kind);
      OfKindMembers(s.rows, batch, kind);
      assert HasRow(s.rows, kind, k);
      KeysOfMembers(s.rows, mine, i);
      DeleteKeysGone(s, batch);
      FallbackMembers(s.rows, mine, env.queued, FallbackTask(s.rows[i]));
    }
  }

  lemma ProcessCovers(s: State, batch: seq<nat>, env: Env)
    requires Inv(s) && BatchEnabled(s.rows, batch)
    ensures Inv(ProcessBatch(s, batch, env))
  {
    var s' := ProcessBatch(s, batch, env);
    ProcessKeepsDeletesGone(s, batch, env);
    DeleteKeysGone(s, batch);
    var dels := KeysOf(s.rows, OfKind(s.rows, batch, DeleteDie));
    var syncs := KeysOf(s.rows, OfKind(s.rows, batch, SyncDie));
    forall k: nat ensures Agrees(s', k) || Covered(s', k) {
      WritesKeepAgreement(s, s', if env.deleteOk then dels else dels * env.deleted,
                          if env.syncOk then syncs else syncs * env.uploaded, k);
      if !Agrees(s, k) {
        var kind := if k in s.dies then SyncDie else DeleteDie;
        if HasRow(s.rows, kind, k) {
          var i :| 0 <= i < |s.rows| && IsPending(s.rows[i], kind, k);
          ProcessedRowIsSettled(s, batch, env, i, k);
        } else {
          assert Covered(s, k);
          TasksOnlyGrow(s.tasks, BatchTasks(s.rows, batch, env), k);
        }
      }
    }
  }

  lemma TasksOnlyGrow(tasks: multiset<Task>, more: multiset<Task>, k: nat)
    ensures HasBatch(tasks, k) ==> HasBatch(tasks + more, k)
  {
    if HasBatch(tasks, k) {
      var t :| t in tasks && t.BatchSyncTask? && k in t.pks;
      assert t in tasks + more;
    }
  }

  // ---------------------------------------------------------------- other steps

  /** Evidence is lost only with a piece of queued work that has just been done. */
  lemma RunTaskKeepsEvidence(s: State, t: Task, ok: bool, landed: set<nat>, k: nat)
    requires Covered(s, k)
    ensures Covered(RunTask(s, t, ok, landed), k) ||
            (ok && if k in s.dies then k in Uploaded(t, ok, landed) else k in Gone(t, ok, landed))
  {
    var s' := RunTask(s, t, ok, landed);
    if HasBatch(s.tasks, k) {
      var b :| b in s.tasks && b.BatchSyncTask? && k in b.pks;
      assert b != t || !ok ==> b in s'.tasks;
    }
  }

  lemma RunTaskCovers(s: State, t: Task, ok: bool, landed: set<nat>)
    requires Inv(s) && t in s.tasks
    ensures Inv(RunTask(s, t, ok, landed))
  {
    var s' := RunTask(s, t, ok, landed);
    forall k: nat ensures Agrees(s', k) || Covered(s', k) {
      WritesKeepAgreement(s, s', Gone(t, ok, landed), Uploaded(t, ok, landed), k);
      assert Agrees(s, k) || Covered(s, k);
      if Covered(s, k) {
        RunTaskKeepsEvidence(s, t, ok, landed, k);
      }
    }
  }

  lemma SaveSetsCovers(s: State, changes: map<nat, SetInfo>)
    requires Inv(s)
    ensures Inv(Apply(s, SaveSets(changes)))
  {
    var s' := Apply(s, SaveSets(changes));
    var pks := DiesInSets(s.dies, changes.Keys);
    forall k: nat ensures Agrees(s', k) || Covered(s', k) {
      assert Agrees(s, k) || Covered(s, k);
      if k in pks {
        assert BatchSyncTask(pks) in s'.tasks;
      } else {
        TasksOnlyGrow(s.tasks, multiset{BatchSyncTask(pks)}, k);
      }
    }
  }

  lemma ImportCovers(s: State, step: Step)
    requires Inv(s) && Enabled(s, step) && (step.ImportRow? || step.EnqueueImport?)
    ensures Inv(Apply(s, step))
  {
    var s' := Apply(s, step);
    if step.EnqueueImport? {
      forall kind: Kind, k: nat
        ensures HasRow(s'.rows, kind, k) <==> HasRow(s.rows, kind, k) || HasRow(SyncRows(step.pks), kind, k)
      {
        HasRowAppend(s.rows, SyncRows(step.pks), kind, k);
      }
      forall j | 0 <= j < |step.pks| ensures HasRow(s'.rows, SyncDie, step.pks[j]) {
        assert IsPending(SyncRows(step.pks)[j], SyncDie, step.pks[j]);
      }
    }
    forall k: nat ensures Agrees(s', k) || Covered(s', k) {
      assert Agrees(s, k) || Covered(s, k);
    }
  }

  lemma RowStepsCover(s: State, step: Step)
    requires Inv(s) && Enabled(s, step) && (step.Prune? || step.ForeignRow?)
    ensures Inv(Apply(s, step))
  {
    var s' := Apply(s, step);
    forall kind: Kind, k: nat
      ensures HasRow(s.rows, kind, k) ==> HasRow(s'.rows, kind, k)
      ensures HasRow(s'.rows, DeleteDie, k) ==> HasRow(s.rows, DeleteDie, k)
    {
      if step.Prune? {
        PruneKeepsPending(s.rows, step.cutoff, kind, k);
        PruneKeepsPending(s.rows, step.cutoff, DeleteDie, k);
      } else {
        HasRowAppendOne(s.rows, step.row, kind, k);
        HasRowAppendOne(s.rows, step.row, DeleteDie, k);
      }
    }
    forall k: nat ensures Agrees(s', k) || Covered(s', k) {
      assert Agrees(s, k) || Covered(s, k);
    }
  }

  /** A rebuild makes every key agree at once, whatever the index held. */
  lemma RebuildAgrees(s: State)
    ensures forall k: nat :: Agrees(Apply(s, Rebuild), k)
  {
  }

  /** Every transition keeps coverage. */
  lemma StepCovers(s: State, step: Step)
    requires Inv(s) && Enabled(s, step)
    ensures Inv(Apply(s, step))
  {
    match step
    case Transact(ops) => TransactCovers(s, {}, ops);
    case ImportRow(_, _) => ImportCovers(s, step);
    case EnqueueImport(_) => ImportCovers(s, step);
    case SaveSets(changes) => SaveSetsCovers(s, changes);
    case Process(batch, env) => ProcessCovers(s, batch, env);
    case Run(t, ok, landed) => RunTaskCovers(s, t, ok, landed);
    case Prune(_) => RowStepsCover(s, step);
    case Rebuild => RebuildAgrees(s);
    case ForeignRow(_) => RowStepsCover(s, step);
  }

  /** Coverage in every reachable state. */
  lemma {:induction false} RunsKeepCoverage(s: State, steps: seq<Step>)
    requires Inv(s) && RunEnabled(s, steps)
    ensures Inv(RunSteps(s, steps))
    decreases |steps|
  {
    if steps != [] {
      StepCovers(s, steps[0]);
      RunsKeepCoverage(Apply(s, steps[0]), steps[1..]);
    }
  }

  /** With nothing outstanding the index is exactly the database. */
  lemma QuiescentAgreement(s: State)
    requires Inv(s) && Quiescent(s)
    ensures s.index == AllDocs(s)
  {
    forall k: nat ensures Agrees(s, k) {
      assert Agrees(s, k) || Covered(s, k);
    }
    forall k: nat ensures k in s.index <==> k in s.dies {
      assert Agrees(s, k);
    }
    forall k: nat | k in s.dies ensures s.index[k] == ToDocument(s.dies[k], s.sets) {
      assert Agrees(s, k);
    }
  }

  /** From an empty deployment, any run that ends with nothing outstanding ends in sync. */
  lemma QuiescentRunsAgree(sets: map<nat, SetInfo>, steps: seq<Step>)
    requires RunEnabled(State(map[], sets, 1, map[], [], multiset{}, {}), steps)
    requires Quiescent(RunSteps(State(map[], sets, 1, map[], [], multiset{}, {}), steps))
    ensures var s := RunSteps(State(map[], sets, 1, map[], [], multiset{}, {}), steps);
            s.index == AllDocs(s)
  {
    var s0 := State(map[], sets, 1, map[], [], multiset{}, {});
    assert Inv(s0) by {
      forall k: nat ensures Agrees(s0, k) {}
    }
    RunsKeepCoverage(s0, steps);
    QuiescentAgreement(RunSteps(s0, steps));
  }
}
