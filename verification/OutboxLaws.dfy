/**
 What the outbox does row by row and key by key, without naming its own steps: which rows a
 run takes, what becomes of each, what ends up in the index, the tables and the task queue.
 */
module OutboxLaws {
  import opened Options
  import opened OutboxModel
  import opened OutboxCoverage

  // ---------------------------------------------------------------- which rows a run takes

  predicate Free(rows: seq<OutboxRow>, locked: set<nat>, i: nat)
    requires i < |rows|
  {
    rows[i].processedAt.None? && i !in locked
  }

  /**
   `batch` lists, in order, the oldest free rows from `start` on: a free row is left out only
   when `limit` older ones were taken.
   */
  ghost predicate OldestFree(rows: seq<OutboxRow>, locked: set<nat>, limit: nat, start: nat, batch: seq<nat>) {
    && |batch| <= limit
    && (forall a, b :: 0 <= a < b < |batch| ==> batch[a] < batch[b])
    && (forall a :: 0 <= a < |batch| ==> start <= batch[a] < |rows| && Free(rows, locked, batch[a]))
    && (forall i: nat :: start <= i < |rows| && Free(rows, locked, i) && i !in batch ==>
          |batch| == limit && forall a :: 0 <= a < |batch| ==> batch[a] < i)
  }

  lemma OldestFreeWithFirst(rows: seq<OutboxRow>, locked: set<nat>, limit: nat, start: nat, rest: seq<nat>)
    requires start < |rows| && 0 < limit && Free(rows, locked, start)
    requires OldestFree(rows, locked, limit - 1, start + 1, rest)
    ensures OldestFree(rows, locked, limit, start, [start] + rest)
  {
    var batch := [start] + rest;
    forall i: nat | start <= i < |rows| && Free(rows, locked, i) && i !in batch
      ensures |batch| == limit && forall a :: 0 <= a < |batch| ==> batch[a] < i
    {
      assert batch[0] == start;
      assert i !in rest;
    }
  }

  /** Rows locked by another worker, and rows already processed, are passed over and not waited for. */
  lemma {:induction false} SelectionIsOldestFree(rows: seq<OutboxRow>, locked: set<nat>, limit: nat, start: nat)
    requires start <= |rows|
    ensures OldestFree(rows, locked, limit, start, SelectPending(rows, locked, limit, start))
    decreases |rows| - start
  {
    if limit != 0 && start < |rows| {
      if Free(rows, locked, start) {
        SelectionIsOldestFree(rows, locked, limit - 1, start + 1);
        OldestFreeWithFirst(rows, locked, limit, start, SelectPending(rows, locked, limit - 1, start + 1));
      } else {
        SelectionIsOldestFree(rows, locked, limit, start + 1);
      }
    }
  }

  // ---------------------------------------------------------------- what becomes of a row

  /** The row carries a digest of its own payload and asks for `kind`. */
  predicate Asks(r: OutboxRow, kind: Kind) {
    r.digest == MacOf(r.payload) && r.kind == kind
  }

  /** Some row of the batch asks for this, for die `k`; `k` 0 is no die. */
  ghost predicate Asked(rows: seq<OutboxRow>, batch: seq<nat>, kind: Kind, k: nat)
    requires IndicesOf(rows, batch)
  {
    k != 0 && exists i :: i in batch && Asks(rows[i], kind) && rows[i].payload.dieId == k
  }

  ghost predicate SomeDieAsked(rows: seq<OutboxRow>, batch: seq<nat>, kind: Kind)
    requires IndicesOf(rows, batch)
  {
    exists k: nat :: Asked(rows, batch, kind, k)
  }

  lemma KeysAreAsked(rows: seq<OutboxRow>, batch: seq<nat>, kind: Kind, k: nat)
    requires IndicesOf(rows, batch) && !kind.UnknownKind?
    ensures k in KeysOf(rows, OfKind(rows, batch, kind)) <==> Asked(rows, batch, kind, k)
  {
    var idxs := OfKind(rows, batch, kind);
    OfKindMembers(rows, batch, kind);
    if k in KeysOf(rows, idxs) {
      var j :| 0 <= j < |idxs| && rows[idxs[j]].payload.dieId == k;
      assert idxs[j] in idxs;
    }
    if Asked(rows, batch, kind, k) {
      var i :| i in batch && Asks(rows[i], kind) && rows[i].payload.dieId == k;
      KeysOfMembers(rows, idxs, i);
    }
  }

  lemma KeysThereIffAsked(rows: seq<OutboxRow>, batch: seq<nat>, kind: Kind)
    requires IndicesOf(rows, batch) && !kind.UnknownKind?
    ensures KeysOf(rows, OfKind(rows, batch, kind)) != {} <==> SomeDieAsked(rows, batch, kind)
  {
    var keys := KeysOf(rows, OfKind(rows, batch, kind));
    if keys != {} {
      var k: nat :| k in keys;
      KeysAreAsked(rows, batch, kind, k);
    }
    if k: nat :| Asked(rows, batch, kind, k) {
      KeysAreAsked(rows, batch, kind, k);
    }
  }

  /**
   A row of the batch is closed, with the time of the run, when its digest is missing or
   wrong or its kind unknown; when the upload it belongs to succeeded; or when its own
   fallback task was queued. Every other row, in the batch or not, stays as it was.
   */
  lemma RowFate(s: State, batch: seq<nat>, env: Env, i: nat)
    requires IndicesOf(s.rows, batch) && i < |s.rows|
    ensures var after := ProcessBatch(s, batch, env).rows;
            && |after| == |s.rows|
            && (i !in batch ==> after[i] == s.rows[i])
            && (i in batch ==>
                  var closed := if Asks(s.rows[i], SyncDie) then env.syncOk || i in env.queued
                                else if Asks(s.rows[i], DeleteDie) then
                                  SomeDieAsked(s.rows, batch, DeleteDie) && (env.deleteOk || i in env.queued)
                                else true;
                  after[i] == if closed then s.rows[i].(processedAt := Some(env.now)) else s.rows[i])
  {
    KeysThereIffAsked(s.rows, batch, DeleteDie);
  }

  // ---------------------------------------------------------------- what becomes of an index entry

  /**
   The document of die `k` after a batch: uploaded from the die's present row if a sync row
   asked for it and the upload landed; else gone if a delete row asked for that and the
   deletion landed; else as it was.
   */
  lemma IndexFate(s: State, batch: seq<nat>, env: Env, k: nat)
    requires IndicesOf(s.rows, batch)
    ensures var s' := ProcessBatch(s, batch, env);
            if Asked(s.rows, batch, SyncDie, k) && (env.syncOk || k in env.uploaded) && k in s.dies then
              k in s'.index && s'.index[k] == ToDocument(s.dies[k], s.sets)
            else if Asked(s.rows, batch, DeleteDie, k) && (env.deleteOk || k in env.deleted) then k !in s'.index
            else (k in s'.index <==> k in s.index) && (k in s.index ==> s'.index[k] == s.index[k])
  {
    KeysAreAsked(s.rows, batch, SyncDie, k);
    KeysAreAsked(s.rows, batch, DeleteDie, k);
  }

  // ---------------------------------------------------------------- what is queued after a failure

  /** How many rows of the batch ask for this, for die `k`, and could be queued on their own. */
  function Requeued(rows: seq<OutboxRow>, batch: seq<nat>, kind: Kind, k: nat, queued: set<nat>): nat
    requires IndicesOf(rows, batch)
  {
    if batch == [] then 0
    else
      var i := batch[|batch| - 1];
      Requeued(rows, batch[..|batch| - 1], kind, k, queued)
      + if Asks(rows[i], kind) && rows[i].payload.dieId == k && i in queued then 1 else 0
  }

  function TaskOf(kind: Kind, k: nat): Task
    requires !kind.UnknownKind?
  {
    if kind.SyncDie? then SyncTask(k) else DeleteTask(k)
  }

  lemma FallbacksOfOneMore(rows: seq<OutboxRow>, idxs: seq<nat>, i: nat, queued: set<nat>, t: Task)
    requires IndicesOf(rows, idxs) && i < |rows|
    ensures FallbackTasks(rows, idxs + [i], queued)[t]
         == FallbackTasks(rows, idxs, queued)[t] + if i in queued && FallbackTask(rows[i]) == t then 1 else 0
  {
    assert (idxs + [i])[..|idxs|] == idxs;
  }

  lemma OfKindOneMore(rows: seq<OutboxRow>, front: seq<nat>, i: nat, kind: Kind)
    requires IndicesOf(rows, front) && i < |rows| && !kind.UnknownKind?
    ensures OfKind(rows, front + [i], kind)
         == if Asks(rows[i], kind) then OfKind(rows, front, kind) + [i] else OfKind(rows, front, kind)
  {
    assert (front + [i])[..|front|] == front;
  }

  lemma RequeuedOneMore(rows: seq<OutboxRow>, front: seq<nat>, i: nat, kind: Kind, k: nat, queued: set<nat>)
    requires IndicesOf(rows, front) && i < |rows|
    ensures Requeued(rows, front + [i], kind, k, queued)
         == Requeued(rows, front, kind, k, queued)
            + if Asks(rows[i], kind) && rows[i].payload.dieId == k && i in queued then 1 else 0
  {
    assert (front + [i])[..|front|] == front;
  }

  lemma {:induction false} FallbacksAreRequeued(rows: seq<OutboxRow>, batch: seq<nat>, kind: Kind, k: nat,
                                                queued: set<nat>)
    requires IndicesOf(rows, batch) && !kind.UnknownKind?
    ensures FallbackTasks(rows, OfKind(rows, batch, kind), queued)[TaskOf(kind, k)]
         == Requeued(rows, batch, kind, k, queued)
  {
    if batch != [] {
      var front, i := batch[..|batch| - 1], batch[|batch| - 1];
      assert batch == front + [i];
      FallbacksAreRequeued(rows, front, kind, k, queued);
      OfKindOneMore(rows, front, i, kind);
      RequeuedOneMore(rows, front, i, kind, k, queued);
      if Asks(rows[i], kind) {
        FallbacksOfOneMore(rows, OfKind(rows, front, kind), i, queued, TaskOf(kind, k));
      }
    }
  }

  lemma {:induction false} NoOtherFallbacks(rows: seq<OutboxRow>, idxs: seq<nat>, queued: set<nat>, t: Task)
    requires IndicesOf(rows, idxs) && forall i :: i in idxs ==> FallbackTask(rows[i]) != t
    ensures FallbackTasks(rows, idxs, queued)[t] == 0
  {
    if idxs != [] {
      assert idxs[|idxs| - 1] in idxs;
      NoOtherFallbacks(rows, idxs[..|idxs| - 1], queued, t);
    }
  }

  /** The fallback tasks of one kind of row are of that kind alone. */
  lemma FallbacksAreOfKind(rows: seq<OutboxRow>, batch: seq<nat>, kind: Kind, queued: set<nat>, t: Task)
    requires IndicesOf(rows, batch) && !kind.UnknownKind?
    requires if kind.SyncDie? then !t.SyncTask? else !t.DeleteTask?
    ensures FallbackTasks(rows, OfKind(rows, batch, kind), queued)[t] == 0
  {
    OfKindMembers(rows, batch, kind);
    NoOtherFallbacks(rows, OfKind(rows, batch, kind), queued, t);
  }

  /** A failed upload queues one task for each of its rows that could be queued; nothing else is queued. */
  lemma TaskFate(s: State, batch: seq<nat>, env: Env, k: nat, pks: set<nat>)
    requires IndicesOf(s.rows, batch)
    ensures var tasks := ProcessBatch(s, batch, env).tasks;
            && tasks[SyncTask(k)]
               == s.tasks[SyncTask(k)] + (if env.syncOk then 0 else Requeued(s.rows, batch, SyncDie, k, env.queued))
            && tasks[DeleteTask(k)]
               == s.tasks[DeleteTask(k)]
                  + (if env.deleteOk || !SomeDieAsked(s.rows, batch, DeleteDie) then 0
                     else Requeued(s.rows, batch, DeleteDie, k, env.queued))
            && tasks[BatchSyncTask(pks)] == s.tasks[BatchSyncTask(pks)]
  {
    KeysThereIffAsked(s.rows, batch, DeleteDie);
    FallbacksAreRequeued(s.rows, batch, SyncDie, k, env.queued);
    FallbacksAreRequeued(s.rows, batch, DeleteDie, k, env.queued);
    FallbacksAreOfKind(s.rows, batch, SyncDie, env.queued, DeleteTask(k));
    FallbacksAreOfKind(s.rows, batch, DeleteDie, env.queued, SyncTask(k));
    FallbacksAreOfKind(s.rows, batch, SyncDie, env.queued, BatchSyncTask(pks));
    FallbacksAreOfKind(s.rows, batch, DeleteDie, env.queued, BatchSyncTask(pks));
  }

  // ---------------------------------------------------------------- the tables hold what was last written

  /** A row written to the die table, or its removal. */
  datatype Write = Write(pk: nat, row: Option<Die>)

  function OpWrite(s: State, op: Op): Write {
    match op
    case Create(die) => Write(s.nextPk, Some(die))
    case Save(pk, die) => Write(pk, Some(die))
    case Delete(pk) => Write(pk, None)
  }

  function OpsWrites(s: State, pending: set<nat>, ops: seq<Op>): seq<Write>
    requires OpsEnabled(s, pending, ops)
    decreases |ops|
  {
    if ops == [] then []
    else
      var (s', pending') := ApplyOp(s, pending, ops[0]);
      [OpWrite(s, ops[0])] + OpsWrites(s', pending', ops[1..])
  }

  function StepWrites(s: State, step: Step): seq<Write>
    requires Enabled(s, step)
  {
    match step
    case Transact(ops) => OpsWrites(s, {}, ops)
    case ImportRow(pk, die) => [Write(pk, Some(die))]
    case _ => []
  }

  function RunWrites(s: State, steps: seq<Step>): seq<Write>
    requires RunEnabled(s, steps)
    decreases |steps|
  {
    if steps == [] then [] else StepWrites(s, steps[0]) + RunWrites(Apply(s, steps[0]), steps[1..])
  }

  /** What die `k` was after these writes, having been `row` before. */
  function LastWritten(row: Option<Die>, writes: seq<Write>, k: nat): Option<Die> {
    if writes == [] then row
    else if writes[|writes| - 1].pk == k then writes[|writes| - 1].row
    else LastWritten(row, writes[..|writes| - 1], k)
  }

  function RowOf(dies: map<nat, Die>, k: nat): Option<Die> {
    if k in dies then Some(dies[k]) else None
  }

  lemma {:induction false} LastWrittenAppend(row: Option<Die>, a: seq<Write>, b: seq<Write>, k: nat)
    ensures LastWritten(row, a + b, k) == LastWritten(LastWritten(row, a, k), b, k)
  {
    if b == [] {
      assert a + b == a;
    } else {
      LastWrittenAppend(row, a, b[..|b| - 1], k);
      assert (a + b)[..|a + b| - 1] == a + b[..|b| - 1];
    }
  }

  lemma LastWrittenOne(row: Option<Die>, w: Write, k: nat)
    ensures LastWritten(row, [w], k) == if w.pk == k then w.row else row
  {
    assert [w][..0] == [];
  }

  lemma OpWritesRow(s: State, pending: set<nat>, op: Op, k: nat)
    requires OpEnabled(s, op)
    ensures RowOf(ApplyOp(s, pending, op).0.dies, k)
         == if OpWrite(s, op).pk == k then OpWrite(s, op).row else RowOf(s.dies, k)
    ensures ApplyOp(s, pending, op).0.sets == s.sets
  {
  }

  lemma {:induction false} OpsWriteRows(s: State, pending: set<nat>, ops: seq<Op>, k: nat)
    requires OpsEnabled(s, pending, ops)
    ensures RowOf(ApplyOps(s, pending, ops).dies, k) == LastWritten(RowOf(s.dies, k), OpsWrites(s, pending, ops), k)
    ensures ApplyOps(s, pending, ops).sets == s.sets
    decreases |ops|
  {
    if ops != [] {
      var (s', pending') := ApplyOp(s, pending, ops[0]);
      OpsWriteRows(s', pending', ops[1..], k);
      OpWritesRow(s, pending, ops[0], k);
      LastWrittenAppend(RowOf(s.dies, k), [OpWrite(s, ops[0])], OpsWrites(s', pending', ops[1..]), k);
      LastWrittenOne(RowOf(s.dies, k), OpWrite(s, ops[0]), k);
    }
  }

  lemma StepWritesRow(s: State, step: Step, k: nat)
    requires Enabled(s, step)
    ensures RowOf(Apply(s, step).dies, k) == LastWritten(RowOf(s.dies, k), StepWrites(s, step), k)
  {
    match step
    case Transact(ops) => OpsWriteRows(s, {}, ops, k);
    case ImportRow(pk, die) => LastWrittenOne(RowOf(s.dies, k), Write(pk, Some(die)), k);
    case _ =>
  }

  /** Over every run each die is as it was last written, by a request or an import, or as it was. */
  lemma {:induction false} DiesAreLastWritten(s: State, steps: seq<Step>, k: nat)
    requires RunEnabled(s, steps)
    ensures RowOf(RunSteps(s, steps).dies, k) == LastWritten(RowOf(s.dies, k), RunWrites(s, steps), k)
    decreases |steps|
  {
    if steps != [] {
      var s' := Apply(s, steps[0]);
      DiesAreLastWritten(s', steps[1..], k);
      StepWritesRow(s, steps[0], k);
      LastWrittenAppend(RowOf(s.dies, k), StepWrites(s, steps[0]), RunWrites(s', steps[1..]), k);
    }
  }

  /** What a set was last saved as in a run, having been `info` before. */
  function LastSaved(info: Option<SetInfo>, steps: seq<Step>, id: nat): Option<SetInfo>
    decreases |steps|
  {
    if steps == [] then info
    else if steps[0].SaveSets? && id in steps[0].changes then LastSaved(Some(steps[0].changes[id]), steps[1..], id)
    else LastSaved(info, steps[1..], id)
  }

  function SetOf(sets: map<nat, SetInfo>, id: nat): Option<SetInfo> {
    if id in sets then Some(sets[id]) else None
  }

  lemma StepSavesSet(s: State, step: Step, id: nat)
    requires Enabled(s, step)
    ensures SetOf(Apply(s, step).sets, id)
         == if step.SaveSets? && id in step.changes then Some(step.changes[id]) else SetOf(s.sets, id)
  {
    if step.Transact? {
      OpsWriteRows(s, {}, step.ops, 0);
    }
  }

  lemma {:induction false} SetsAreLastSaved(s: State, steps: seq<Step>, id: nat)
    requires RunEnabled(s, steps)
    ensures SetOf(RunSteps(s, steps).sets, id) == LastSaved(SetOf(s.sets, id), steps, id)
    decreases |steps|
  {
    if steps != [] {
      StepSavesSet(s, steps[0], id);
      SetsAreLastSaved(Apply(s, steps[0]), steps[1..], id);
    }
  }

  // ---------------------------------------------------------------- what a search shows

  /** A document with the columns of this die, and the set it is in, if any. */
  predicate Shows(doc: Document, die: Die, info: Option<SetInfo>) {
    && doc.dieId == die.dieId && doc.dieType == die.dieType && doc.casing == die.casing && doc.status == die.status
    && doc.rackId == (if die.rack.Some? then Some(die.rack.value.id) else None)
    && doc.rack == (if die.rack.Some? then die.rack.value.name else "")
    && doc.shelf == die.shelf && doc.size == die.roundSize && doc.flat == die.flatSize
    && doc.setName == (if info.Some? then info.value.name else "")
    && doc.machine == (if info.Some? then info.value.machine else "")
  }

  function SetOfDie(die: Die, sets: map<nat, SetInfo>): Option<SetInfo> {
    if die.currentSet.Some? then SetOf(sets, die.currentSet.value) else None
  }

  /**
   After any run from an empty deployment that ends with nothing outstanding, a search finds
   a die if and only if it was written and not deleted since, and shows the columns last
   written and the set as it was last saved.
   */
  lemma SearchShowsLastWritten(sets: map<nat, SetInfo>, steps: seq<Step>, k: nat)
    requires RunEnabled(State(map[], sets, 1, map[], [], multiset{}, {}), steps)
    requires Quiescent(RunSteps(State(map[], sets, 1, map[], [], multiset{}, {}), steps))
    ensures var s0 := State(map[], sets, 1, map[], [], multiset{}, {});
            var index, row := RunSteps(s0, steps).index, LastWritten(None, RunWrites(s0, steps), k);
            && (k in index <==> row.Some?)
            && (row.Some? && row.value.currentSet.None? ==> Shows(index[k], row.value, None))
            && (row.Some? && row.value.currentSet.Some? ==>
                  var id := row.value.currentSet.value;
                  Shows(index[k], row.value, LastSaved(SetOf(sets, id), steps, id)))
  {
    var s0 := State(map[], sets, 1, map[], [], multiset{}, {});
    QuiescentRunsAgree(sets, steps);
    DiesAreLastWritten(s0, steps, k);
    var row := LastWritten(None, RunWrites(s0, steps), k);
    if row.Some? && row.value.currentSet.Some? {
      SetsAreLastSaved(s0, steps, row.value.currentSet.value);
    }
  }

  // ---------------------------------------------------------------- what a transaction enqueues

  /** How many of the rows are pending, verified and ask for this, for die `k`. */
  function Pending(rows: seq<OutboxRow>, kind: Kind, k: nat): nat {
    if rows == [] then 0
    else
      var r := rows[|rows| - 1];
      Pending(rows[..|rows| - 1], kind, k)
      + if Asks(r, kind) && r.processedAt.None? && r.payload.dieId == k then 1 else 0
  }

  lemma PendingAppendOne(rows: seq<OutboxRow>, r: OutboxRow, kind: Kind, k: nat)
    ensures Pending(rows + [r], kind, k)
         == Pending(rows, kind, k) + if Asks(r, kind) && r.processedAt.None? && r.payload.dieId == k then 1 else 0
  {
    assert (rows + [r])[..|rows|] == rows;
  }

  /** The transaction writes a row for die `k`, or how often it deletes it. */
  predicate Saves(writes: seq<Write>, k: nat) {
    exists i :: 0 <= i < |writes| && writes[i].pk == k && writes[i].row.Some?
  }

  function Deletes(writes: seq<Write>, k: nat): nat {
    if writes == [] then 0 else (if writes[0] == Write(k, None) then 1 else 0) + Deletes(writes[1..], k)
  }

  lemma SavesFirstOrLater(w: Write, rest: seq<Write>, k: nat)
    ensures Saves([w] + rest, k) <==> (w.pk == k && w.row.Some?) || Saves(rest, k)
    ensures Deletes([w] + rest, k) == (if w == Write(k, None) then 1 else 0) + Deletes(rest, k)
  {
    var all := [w] + rest;
    assert all[1..] == rest;
    if i :| 0 <= i < |rest| && rest[i].pk == k && rest[i].row.Some? {
      assert all[i + 1] == rest[i];
    }
    if w.pk == k && w.row.Some? {
      assert all[0] == w;
    }
  }

  lemma SavedIsEnqueued(s: State, pending: set<nat>, pk: nat, k: nat)
    ensures var (s', pending') := QueueSync(s, pending, pk);
            && s.rows <= s'.rows && pending' == pending + {pk}
            && Pending(s'.rows, SyncDie, k) == Pending(s.rows, SyncDie, k) + (if pk == k && k !in pending then 1 else 0)
            && Pending(s'.rows, DeleteDie, k) == Pending(s.rows, DeleteDie, k)
            && s'.index == s.index && s'.tasks == s.tasks && s'.owed == s.owed
  {
    PendingAppendOne(s.rows, SyncRow(pk), SyncDie, k);
    PendingAppendOne(s.rows, SyncRow(pk), DeleteDie, k);
  }

  lemma DeletedIsEnqueued(rows: seq<OutboxRow>, pk: nat, dieStr: string, k: nat)
    ensures var after := rows + [DeleteRow(pk, Some(dieStr))];
            && rows <= after
            && Pending(after, SyncDie, k) == Pending(rows, SyncDie, k)
            && Pending(after, DeleteDie, k) == Pending(rows, DeleteDie, k) + (if pk == k then 1 else 0)
  {
    PendingAppendOne(rows, DeleteRow(pk, Some(dieStr)), SyncDie, k);
    PendingAppendOne(rows, DeleteRow(pk, Some(dieStr)), DeleteDie, k);
  }

  lemma OpEnqueues(s: State, pending: set<nat>, op: Op, k: nat)
    requires OpEnabled(s, op)
    ensures var (s', pending') := ApplyOp(s, pending, op);
            var w := OpWrite(s, op);
            && s.rows <= s'.rows
            && pending' == (if w.row.Some? then pending + {w.pk} else pending)
            && Pending(s'.rows, SyncDie, k)
               == Pending(s.rows, SyncDie, k) + (if w.row.Some? && w.pk == k && k !in pending then 1 else 0)
            && Pending(s'.rows, DeleteDie, k)
               == Pending(s.rows, DeleteDie, k) + (if w == Write(k, None) then 1 else 0)
            && s'.index == s.index && s'.tasks == s.tasks && s'.owed == s.owed
  {
    match op {
      case Create(die) =>
        SavedIsEnqueued(s.(dies := s.dies[s.nextPk := die], nextPk := s.nextPk + 1), pending, s.nextPk, k);
      case Save(pk, die) => SavedIsEnqueued(s.(dies := s.dies[pk := die]), pending, pk, k);
      case Delete(pk) => DeletedIsEnqueued(s.rows, pk, s.dies[pk].dieId, k);
    }
  }

  /**
   A transaction enqueues one sync row for each die it creates or saves, however often, and
   one delete row for each die it deletes; it touches no earlier row, no document and no task.
   */
  lemma {:induction false} TransactionEnqueues(s: State, pending: set<nat>, ops: seq<Op>, k: nat)
    requires OpsEnabled(s, pending, ops)
    ensures var s', writes := ApplyOps(s, pending, ops), OpsWrites(s, pending, ops);
            && s.rows <= s'.rows
            && Pending(s'.rows, SyncDie, k)
               == Pending(s.rows, SyncDie, k) + (if Saves(writes, k) && k !in pending then 1 else 0)
            && Pending(s'.rows, DeleteDie, k) == Pending(s.rows, DeleteDie, k) + Deletes(writes, k)
            && s'.index == s.index && s'.tasks == s.tasks && s'.owed == s.owed
    decreases |ops|
  {
    if ops != [] {
      var (s1, pending1) := ApplyOp(s, pending, ops[0]);
      OpEnqueues(s, pending, ops[0], k);
      TransactionEnqueues(s1, pending1, ops[1..], k);
      SavesFirstOrLater(OpWrite(s, ops[0]), OpsWrites(s1, pending1, ops[1..]), k);
    }
  }

  // ---------------------------------------------------------------- pruning, tasks, sets

  /** `kept` are the rows at these places. */
  ghost predicate PickedAt(rows: seq<OutboxRow>, places: seq<nat>, kept: seq<OutboxRow>) {
    && |places| == |kept|
    && (forall a, b :: 0 <= a < b < |places| ==> places[a] < places[b])
    && (forall a :: 0 <= a < |places| ==> places[a] < |rows| && kept[a] == rows[places[a]])
  }

  predicate Outdated(r: OutboxRow, cutoff: int) {
    match r.processedAt
    case None => false
    case Some(at) => at < cutoff
  }

  /** `places` are all the places up to `n` whose row is not outdated. */
  ghost predicate UpTo(rows: seq<OutboxRow>, cutoff: int, places: seq<nat>, n: nat)
    requires n <= |rows|
  {
    forall i: nat :: i in places <==> i < n && !Outdated(rows[i], cutoff)
  }

  lemma PickedOneMore(rows: seq<OutboxRow>, r: OutboxRow, places: seq<nat>, kept: seq<OutboxRow>)
    requires PickedAt(rows, places, kept)
    ensures PickedAt(rows + [r], places, kept) && PickedAt(rows + [r], places + [|rows|], kept + [r])
  {
  }

  lemma UpToOneMore(rows: seq<OutboxRow>, r: OutboxRow, cutoff: int, places: seq<nat>)
    requires UpTo(rows, cutoff, places, |rows|)
    ensures UpTo(rows + [r], cutoff, if Outdated(r, cutoff) then places else places + [|rows|], |rows| + 1)
  {
    var more := places + [|rows|];
    assert forall i: nat :: i in more <==> i in places || i == |rows|;
    assert forall i: nat :: i < |rows| ==> (rows + [r])[i] == rows[i];
  }

  /** `kept` are the rows that are not outdated, at these places and in their order. */
  ghost predicate Pruned(rows: seq<OutboxRow>, cutoff: int, places: seq<nat>, kept: seq<OutboxRow>) {
    PickedAt(rows, places, kept) && UpTo(rows, cutoff, places, |rows|)
  }

  lemma PrunedOneMore(rows: seq<OutboxRow>, r: OutboxRow, cutoff: int, places: seq<nat>, kept: seq<OutboxRow>)
    requires Pruned(rows, cutoff, places, kept)
    ensures Outdated(r, cutoff) ==> Pruned(rows + [r], cutoff, places, kept)
    ensures !Outdated(r, cutoff) ==> Pruned(rows + [r], cutoff, places + [|rows|], kept + [r])
  {
    PickedOneMore(rows, r, places, kept);
    UpToOneMore(rows, r, cutoff, places);
  }

  lemma KeepOneMore(rows: seq<OutboxRow>, r: OutboxRow, cutoff: int)
    ensures KeepUnexpired(rows + [r], cutoff)
         == if Outdated(r, cutoff) then KeepUnexpired(rows, cutoff) else KeepUnexpired(rows, cutoff) + [r]
  {
    assert (rows + [r])[..|rows|] == rows;
  }

  /** Pruning keeps, in their order, the rows that are pending or were processed no earlier than the cutoff. */
  lemma {:induction false} PruneKeepsExactly(rows: seq<OutboxRow>, cutoff: int) returns (places: seq<nat>)
    ensures Pruned(rows, cutoff, places, KeepUnexpired(rows, cutoff))
  {
    if rows == [] {
      places := [];
    } else {
      var front, r := rows[..|rows| - 1], rows[|rows| - 1];
      assert rows == front + [r];
      places := PruneKeepsExactly(front, cutoff);
      PrunedOneMore(front, r, cutoff, places, KeepUnexpired(front, cutoff));
      KeepOneMore(front, r, cutoff);
      if !Outdated(r, cutoff) {
        places := places + [|front|];
      }
    }
  }

  /** Which dies a queued task uploads or takes out of the index. */
  predicate Works(t: Task, k: nat) {
    match t
    case SyncTask(pk) => pk == k
    case DeleteTask(pk) => pk == k
    case BatchSyncTask(pks) => k in pks
  }

  /**
   A task changes the documents of its own dies only: a landed delete takes the document
   away, a landed upload makes it the die's present one. One copy of the task is taken off
   the queue if it succeeded; on failure all stay.
   */
  lemma TaskRunFate(s: State, t: Task, ok: bool, landed: set<nat>, k: nat, other: Task)
    requires t in s.tasks
    ensures var s' := RunTask(s, t, ok, landed);
            && (if Works(t, k) && (ok || k in landed) && (t.DeleteTask? || k in s.dies) then
                  if t.DeleteTask? then k !in s'.index
                  else k in s'.index && s'.index[k] == ToDocument(s.dies[k], s.sets)
                else (k in s'.index <==> k in s.index) && (k in s.index ==> s'.index[k] == s.index[k]))
            && s'.tasks[other] == s.tasks[other] - (if ok && other == t then 1 else 0)
            && s'.rows == s.rows && s'.owed == s.owed
  {
  }

  /** Saving sets queues one upload, of just the dies in them, or none if there are none. */
  lemma SetSaveQueues(s: State, changes: map<nat, SetInfo>, t: Task)
    ensures var s' := Apply(s, SaveSets(changes));
            && (s'.tasks[t] == s.tasks[t] || (t.BatchSyncTask? && s'.tasks[t] == s.tasks[t] + 1))
            && (s'.tasks[t] != s.tasks[t] <==>
                  && t.BatchSyncTask? && t.pks != {}
                  && forall k: nat :: k in t.pks <==>
                       k in s.dies && s.dies[k].currentSet.Some? && s.dies[k].currentSet.value in changes)
            && s'.index == s.index && s'.rows == s.rows
  {
    var pks := DiesInSets(s.dies, changes.Keys);
    if t.BatchSyncTask? && (forall k: nat :: k in t.pks <==>
                       k in s.dies && s.dies[k].currentSet.Some? && s.dies[k].currentSet.value in changes) {
      assert t.pks == pks;
    }
  }

  /** Imports, pruning, rows from outside and a rebuild touch no document, row or task but their own. */
  lemma OtherStepsTouchOnlyTheirs(s: State, step: Step)
    requires Enabled(s, step)
    ensures var s' := Apply(s, step);
            && (step.ImportRow? ==> s'.index == s.index && s'.rows == s.rows && s'.tasks == s.tasks)
            && (step.EnqueueImport? ==> s'.index == s.index && s.rows <= s'.rows && s'.tasks == s.tasks)
            && (step.Prune? ==> s'.index == s.index && s'.tasks == s.tasks && s'.owed == s.owed)
            && (step.ForeignRow? ==> s'.index == s.index && s'.rows == s.rows + [step.row] && s'.tasks == s.tasks)
            && (step.Rebuild? ==> s'.rows == s.rows && s'.tasks == s.tasks && s'.owed == s.owed)
  {
  }
}
