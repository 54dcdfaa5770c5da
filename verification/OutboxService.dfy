/**
 The outbox code in its own, imperative form: the enqueueing hooks, the worker with its
 fallbacks, the retried tasks, pruning and the rebuild. Each method is tied to the
 transition of `OutboxModel` it implements.
 */
module OutboxService {
  import opened Options
  import opened OutboxModel
  import opened OutboxCoverage
  import opened OutboxDrain
  import Laws = OutboxLaws

  const REBUILD_BATCH: nat := 100
  const SYNC_CHUNK: nat := 100

  /** `rows` with the rows at `closed` marked as processed. */
  function Marked(rows: seq<OutboxRow>, closed: set<nat>, now: int): (r: seq<OutboxRow>)
    ensures |r| == |rows|
  {
    seq(|rows|, i requires 0 <= i < |rows| =>
      if i in closed then rows[i].(processedAt := Some(now)) else rows[i])
  }

  function Elems(idxs: seq<nat>): set<nat> {
    set i | i in idxs
  }

  function Unverified(rows: seq<OutboxRow>, batch: seq<nat>): set<nat>
    requires IndicesOf(rows, batch)
  {
    set i | i in batch && !Verified(rows[i])
  }

  /** The rows of a list that get closed: all of them, or those whose fallback was queued. */
  function Closed(idxs: seq<nat>, ok: bool, queued: set<nat>): set<nat> {
    if ok then Elems(idxs) else Elems(idxs) * queued
  }

  /** A list of deletes whose payloads name no die at all is left alone. */
  function ClosedDeletes(rows: seq<OutboxRow>, deletes: seq<nat>, env: Env): set<nat>
    requires IndicesOf(rows, deletes)
  {
    if KeysOf(rows, deletes) == {} then {} else Closed(deletes, env.deleteOk, env.queued)
  }

  lemma MarkedTwice(rows: seq<OutboxRow>, a: set<nat>, b: set<nat>, now: int)
    ensures Marked(Marked(rows, a, now), b, now) == Marked(rows, a + b, now)
  {
  }

  lemma MarkingKeepsKeys(rows: seq<OutboxRow>, closed: set<nat>, now: int, idxs: seq<nat>)
    requires IndicesOf(rows, idxs)
    ensures KeysOf(Marked(rows, closed, now), idxs) == KeysOf(rows, idxs)
  {
  }

  lemma {:induction false} MarkingKeepsFallbacks(rows: seq<OutboxRow>, closed: set<nat>, now: int,
                                                 idxs: seq<nat>, queued: set<nat>)
    requires IndicesOf(rows, idxs)
    ensures FallbackTasks(Marked(rows, closed, now), idxs, queued) == FallbackTasks(rows, idxs, queued)
  {
    if idxs != [] {
      MarkingKeepsFallbacks(rows, closed, now, idxs[..|idxs| - 1], queued);
    }
  }

  /** The three passes over a batch close exactly the rows the transition closes. */
  lemma PassesCloseBatch(rows: seq<OutboxRow>, batch: seq<nat>, env: Env)
    requires IndicesOf(rows, batch)
    ensures var deletes := OfKind(rows, batch, DeleteDie);
            var gone := ClosedDeletes(rows, deletes, env);
            var done := Closed(OfKind(rows, batch, SyncDie), env.syncOk, env.queued);
            Marked(rows, Unverified(rows, batch) + gone + done, env.now) == CloseRows(rows, batch, env)
  {
    OfKindMembers(rows, batch, DeleteDie);
    OfKindMembers(rows, batch, SyncDie);
  }

  lemma TasksOfPasses(tasks: multiset<Task>, a: multiset<Task>, b: multiset<Task>)
    ensures tasks + a + b == tasks + (a + b)
  {
  }

  lemma IndexOfPasses(s: State, batch: seq<nat>, env: Env)
    requires IndicesOf(s.rows, batch)
    ensures AfterSyncs(s, batch, env)
         == s.index - DeletedKeys(KeysOf(s.rows, OfKind(s.rows, batch, DeleteDie)), env)
            + Docs(s.dies, s.sets, UploadedKeys(KeysOf(s.rows, OfKind(s.rows, batch, SyncDie)), env))
  {
  }

  /** What the passes leave is what the transition leaves. */
  lemma PassesAreBatch(s: State, batch: seq<nat>, env: Env,
                       index: map<nat, Document>, rows: seq<OutboxRow>, tasks: multiset<Task>)
    requires IndicesOf(s.rows, batch)
    requires index == AfterSyncs(s, batch, env) && rows == CloseRows(s.rows, batch, env)
    requires tasks == s.tasks + BatchTasks(s.rows, batch, env)
    ensures s.(index := index, rows := rows, tasks := tasks) == ProcessBatch(s, batch, env)
  {
  }

  lemma DocsInsert(dies: map<nat, Die>, sets: map<nat, SetInfo>, pks: set<nat>, k: nat)
    requires k in dies
    ensures Docs(dies, sets, pks + {k}) == Docs(dies, sets, pks)[k := ToDocument(dies[k], sets)]
  {
  }

  lemma UploadTwice(index: map<nat, Document>, dies: map<nat, Die>, sets: map<nat, SetInfo>, a: set<nat>, b: set<nat>)
    ensures index + Docs(dies, sets, a) + Docs(dies, sets, b) == index + Docs(dies, sets, a + b)
  {
  }

  /** Nothing but the documents of dies as they are. */
  ghost predicate Documents(docs: map<nat, Document>, dies: map<nat, Die>, sets: map<nat, SetInfo>) {
    forall k :: k in docs ==> k in dies && docs[k] == ToDocument(dies[k], sets)
  }

  lemma ElemsOfSlices(pks: seq<nat>, i: nat, end: nat)
    requires i <= end <= |pks|
    ensures Elems(pks[..end]) == Elems(pks[..i]) + Elems(pks[i..end])
  {
    assert pks[..end] == pks[..i] + pks[i..end];
  }

  /** All of one key, or none of it. */
  lemma OneKey(pk: nat, landed: bool)
    ensures {pk} * (if landed then {pk} else {}) == if landed then {pk} else {}
    ensures {} * (if landed then {pk} else {}) == {}
  {
  }

  lemma BatchTaskEffect(s: State, pks: set<nat>, ok: bool, landed: set<nat>)
    requires landed <= pks && (ok ==> landed == pks)
    ensures RunTask(s, BatchSyncTask(pks), ok, landed) ==
            s.(index := s.index + Docs(s.dies, s.sets, landed),
               tasks := if ok then s.tasks - multiset{BatchSyncTask(pks)} else s.tasks)
  {
    assert pks * landed == landed;
    assert s.index - {} == s.index;
  }

  lemma UploadOne(s: State, pk: nat)
    requires pk in s.dies
    ensures s.index - {} + Docs(s.dies, s.sets, {pk}) == s.index[pk := ToDocument(s.dies[pk], s.sets)]
  {
    DocsInsert(s.dies, s.sets, {}, pk);
    assert {} + {pk} == {pk};
  }

  lemma UploadNone(s: State, pks: set<nat>, gone: set<nat>)
    requires pks !! s.dies.Keys
    ensures s.index - gone + Docs(s.dies, s.sets, pks) == s.index - gone
  {
  }

  lemma SyncTaskEffect(s: State, pk: nat, done: bool, landed: bool)
    ensures RunTask(s, SyncTask(pk), done, if landed then {pk} else {})
         == s.(index := if pk in s.dies && (done || landed) then s.index[pk := ToDocument(s.dies[pk], s.sets)]
                        else s.index,
               tasks := if done then s.tasks - multiset{SyncTask(pk)} else s.tasks)
  {
    OneKey(pk, landed);
    if pk !in s.dies {
      UploadNone(s, {pk}, {});
    } else if done || landed {
      UploadOne(s, pk);
    }
    UploadNone(s, {}, {});
    assert s.index - {} == s.index;
  }

  /** Where the chunk that starts at `i` ends. */
  function ChunkEnd(pks: seq<nat>, i: nat): (end: nat)
    requires i <= |pks|
    ensures i <= end <= |pks|
  {
    if i + SYNC_CHUNK < |pks| then i + SYNC_CHUNK else |pks|
  }

  /** The dies whose upload lands: all, or those before the failing chunk and part of it. */
  function Landed(pks: seq<nat>, failAt: Option<nat>, part: set<nat>): set<nat>
    requires failAt.Some? ==> failAt.value <= |pks|
  {
    match failAt
    case None => Elems(pks)
    case Some(i) => Elems(pks[..i]) + Elems(pks[i..ChunkEnd(pks, i)]) * part
  }

  class SearchSync {
    var dies: map<nat, Die>
    var sets: map<nat, SetInfo>
    var nextPk: nat
    var index: map<nat, Document>
    var rows: seq<OutboxRow>
    var tasks: multiset<Task>
    var owed: set<nat>
    /** The ids queued by the open transaction of this thread. */
    var pending: set<nat>
    var skipSingleSync: bool

    ghost function Model(): State
      reads this
    {
      State(dies, sets, nextPk, index, rows, tasks, owed)
    }

    constructor (sets: map<nat, SetInfo>)
      ensures Model() == State(map[], sets, 1, map[], [], multiset{}, {}) && Inv(Model())
      ensures pending == {} && !skipSingleSync
    {
      this.dies, this.sets, nextPk := map[], sets, 1;
      index, rows, tasks, owed := map[], [], multiset{}, {};
      pending, skipSingleSync := {}, false;
      new;
      assert forall k: nat :: Agrees(Model(), k);
    }

    // -------------------------------------------------------------- web transactions

    method QueueDieSync(pk: nat)
      modifies this`rows, this`pending
      ensures if skipSingleSync then Model() == old(Model()) && pending == old(pending)
              else (Model(), pending) == QueueSync(old(Model()), old(pending), pk)
    {
      if skipSingleSync {
        return;
      }
      if pk !in pending {
        pending := pending + {pk};
        rows := rows + [SyncRow(pk)];
      }
    }

    method CreateDie(die: Die) returns (pk: nat)
      requires !skipSingleSync && TxInv(Model(), pending)
      modifies this
      ensures !skipSingleSync && TxInv(Model(), pending)
      ensures pk == old(nextPk)
      ensures (Model(), pending) == ApplyOp(old(Model()), old(pending), Create(die))
    {
      CreateCovers(Model(), pending, die);
      pk := nextPk;
      dies, nextPk := dies[pk := die], pk + 1;
      QueueDieSync(pk);
    }

    method SaveDie(pk: nat, die: Die)
      requires !skipSingleSync && TxInv(Model(), pending) && pk in dies
      modifies this
      ensures !skipSingleSync && TxInv(Model(), pending)
      ensures (Model(), pending) == ApplyOp(old(Model()), old(pending), Save(pk, die))
    {
      SaveCovers(Model(), pending, pk, die);
      dies := dies[pk := die];
      QueueDieSync(pk);
    }

    method RemoveDie(pk: nat)
      requires TxInv(Model(), pending) && pk in dies
      modifies this`dies, this`rows
      ensures TxInv(Model(), pending)
      ensures (Model(), pending) == ApplyOp(old(Model()), old(pending), Delete(pk))
    {
      DeleteCovers(Model(), pending, pk);
      rows := rows + [DeleteRow(pk, Some(dies[pk].dieId))];
      dies := dies - {pk};
    }

    /** The commit callbacks: every id queued by the transaction is forgotten. */
    method Commit()
      modifies this`pending
      ensures pending == {}
    {
      while pending != {}
        decreases |pending|
      {
        var pk :| pk in pending;
        pending := pending - {pk};
      }
    }

    /** One create, save or delete, and the hook it runs. */
    method PerformOp(op: Op)
      requires !skipSingleSync && TxInv(Model(), pending) && OpEnabled(Model(), op)
      modifies this
      ensures !skipSingleSync && TxInv(Model(), pending)
      ensures (Model(), pending) == ApplyOp(old(Model()), old(pending), op)
    {
      match op {
        case Create(die) => var _ := CreateDie(die);
        case Save(pk, die) => SaveDie(pk, die);
        case Delete(pk) => RemoveDie(pk);
      }
    }

    /** A web request in its transaction: its operations in order, then the commit callbacks. */
    method RunTransaction(ops: seq<Op>)
      requires !skipSingleSync && pending == {} && Inv(Model())
      requires Enabled(Model(), Step.Transact(ops))
      modifies this
      ensures Model() == Apply(old(Model()), Step.Transact(ops))
      ensures !skipSingleSync && pending == {} && Inv(Model())
    {
      ghost var start := Model();
      for n := 0 to |ops|
        invariant !skipSingleSync && TxInv(Model(), pending)
        invariant OpsEnabled(Model(), pending, ops[n..])
        invariant ApplyOps(Model(), pending, ops[n..]) == ApplyOps(start, {}, ops)
      {
        assert ops[n..][1..] == ops[n + 1..];
        PerformOp(ops[n]);
      }
      Commit();
    }

    method SyncDiesBatch(pks: seq<nat>)
      modifies this`rows, this`owed
      ensures Model() == Apply(old(Model()), EnqueueImport(pks))
    {
      var created: seq<OutboxRow> := [];
      for j := 0 to |pks|
        invariant created == SyncRows(pks[..j])
      {
        created := created + [SyncRow(pks[j])];
      }
      assert pks[..|pks|] == pks;
      rows := rows + created;
      owed := owed - set j | 0 <= j < |pks| :: pks[j];
    }

    // -------------------------------------------------------------- the worker

    method MarkProcessed(i: nat, now: int)
      requires i < |rows|
      modifies this`rows
      ensures rows == Marked(old(rows), {i}, now)
    {
      rows := rows[i := rows[i].(processedAt := Some(now))];
    }

    method MarkAll(idxs: seq<nat>, now: int)
      requires IndicesOf(rows, idxs)
      modifies this`rows
      ensures rows == Marked(old(rows), Elems(idxs), now)
    {
      for j := 0 to |idxs|
        invariant rows == Marked(old(rows), Elems(idxs[..j]), now)
      {
        MarkProcessed(idxs[j], now);
        MarkedTwice(old(rows), Elems(idxs[..j]), {idxs[j]}, now);
        assert Elems(idxs[..j]) + {idxs[j]} == Elems(idxs[..j + 1]);
      }
      assert idxs[..|idxs|] == idxs;
    }

    /** Individual tasks for the rows of a failed batch; a row whose task cannot be queued stays. */
    method FallBack(idxs: seq<nat>, queued: set<nat>, now: int)
      requires IndicesOf(rows, idxs)
      modifies this`rows, this`tasks
      ensures rows == Marked(old(rows), Elems(idxs) * queued, now)
      ensures tasks == old(tasks) + FallbackTasks(old(rows), idxs, queued)
    {
      for j := 0 to |idxs|
        invariant rows == Marked(old(rows), Elems(idxs[..j]) * queued, now)
        invariant tasks == old(tasks) + FallbackTasks(old(rows), idxs[..j], queued)
      {
        var i := idxs[j];
        assert idxs[..j + 1][..j] == idxs[..j];
        if i in queued {
          tasks := tasks + multiset{FallbackTask(rows[i])};
          MarkProcessed(i, now);
          MarkedTwice(old(rows), Elems(idxs[..j]) * queued, {i}, now);
          assert Elems(idxs[..j]) * queued + {i} == Elems(idxs[..j + 1]) * queued;
        } else {
          assert Elems(idxs[..j]) * queued == Elems(idxs[..j + 1]) * queued;
        }
      }
      assert idxs[..|idxs|] == idxs;
    }

    /** Sorts a batch by kind, closing the rows that fail the integrity check or are of no known kind. */
    method Classify(batch: seq<nat>, now: int) returns (deletes: seq<nat>, syncs: seq<nat>)
      requires IndicesOf(rows, batch)
      modifies this`rows
      ensures rows == Marked(old(rows), Unverified(old(rows), batch), now)
      ensures deletes == OfKind(old(rows), batch, Kind.DeleteDie)
      ensures syncs == OfKind(old(rows), batch, SyncDie)
    {
      deletes, syncs := [], [];
      ghost var bad: set<nat> := {};
      for j := 0 to |batch|
        invariant bad == Unverified(old(rows), batch[..j])
        invariant rows == Marked(old(rows), bad, now)
        invariant deletes == OfKind(old(rows), batch[..j], Kind.DeleteDie)
        invariant syncs == OfKind(old(rows), batch[..j], SyncDie)
      {
        var i := batch[j];
        var task := rows[i];
        assert batch[..j + 1][..j] == batch[..j];
        if task.digest.NoDigest? || task.digest != MacOf(task.payload) || task.kind.UnknownKind? {
          MarkProcessed(i, now);
          MarkedTwice(old(rows), bad, {i}, now);
          bad := bad + {i};
        } else if task.kind.SyncDie? {
          syncs := syncs + [i];
        } else {
          deletes := deletes + [i];
        }
      }
      assert batch[..|batch|] == batch;
    }

    /**
     After an upload: the rows of a list are marked, or handed to individual tasks. `rows0`
     are the rows the batch was read from, `closed` those of them closed so far.
     */
    method MarkOrFallBack(idxs: seq<nat>, ok: bool, queued: set<nat>, now: int,
                          ghost rows0: seq<OutboxRow>, ghost closed: set<nat>)
      requires IndicesOf(rows0, idxs) && rows == Marked(rows0, closed, now)
      modifies this`rows, this`tasks
      ensures rows == Marked(rows0, closed + Closed(idxs, ok, queued), now)
      ensures tasks == old(tasks) + (if ok then multiset{} else FallbackTasks(rows0, idxs, queued))
    {
      MarkingKeepsFallbacks(rows0, closed, now, idxs, queued);
      MarkedTwice(rows0, closed, Closed(idxs, ok, queued), now);
      if ok {
        MarkAll(idxs, now);
      } else {
        FallBack(idxs, queued, now);
      }
    }

    method ProcessDeletes(deletes: seq<nat>, env: Env, ghost rows0: seq<OutboxRow>, ghost closed: set<nat>)
      requires IndicesOf(rows0, deletes) && rows == Marked(rows0, closed, env.now)
      modifies this`rows, this`tasks, this`index
      ensures index == old(index) - DeletedKeys(KeysOf(rows0, deletes), env)
      ensures rows == Marked(rows0, closed + ClosedDeletes(rows0, deletes, env), env.now)
      ensures tasks == old(tasks) + DeleteFallbacks(rows0, deletes, env)
    {
      MarkingKeepsKeys(rows0, closed, env.now, deletes);
      var keys := KeysOf(rows, deletes);
      if keys != {} {
        index := index - DeletedKeys(keys, env);
        MarkOrFallBack(deletes, env.deleteOk, env.queued, env.now, rows0, closed);
      } else {
        assert closed + {} == closed;
        assert index - {} == index;
      }
    }

    /** Adds the documents of those dies that exist, as their rows are now. */
    method Upload(keys: set<nat>)
      modifies this`index
      ensures index == old(index) + Docs(dies, sets, keys)
    {
      index := index + Docs(dies, sets, keys);
    }

    /** A batch never exceeds 250 rows, so its syncs form one chunk. */
    method ProcessSyncs(syncs: seq<nat>, env: Env, ghost rows0: seq<OutboxRow>, ghost closed: set<nat>)
      requires IndicesOf(rows0, syncs) && rows == Marked(rows0, closed, env.now)
      modifies this`rows, this`tasks, this`index
      ensures index == old(index) + Docs(dies, sets, UploadedKeys(KeysOf(rows0, syncs), env))
      ensures rows == Marked(rows0, closed + Closed(syncs, env.syncOk, env.queued), env.now)
      ensures tasks == old(tasks) + SyncFallbacks(rows0, syncs, env)
    {
      MarkingKeepsKeys(rows0, closed, env.now, syncs);
      Upload(UploadedKeys(KeysOf(rows, syncs), env));
      MarkOrFallBack(syncs, env.syncOk, env.queued, env.now, rows0, closed);
    }

    /** Sorts, deletes and uploads the rows read, and marks what is done. */
    method ProcessPending(batch: seq<nat>, env: Env)
      requires IndicesOf(rows, batch)
      modifies this`rows, this`tasks, this`index
      ensures Model() == ProcessBatch(old(Model()), batch, env)
    {
      ghost var s0, rows0 := Model(), rows;
      var deletes, syncs := Classify(batch, env.now);
      ghost var bad := Unverified(rows0, batch);
      ghost var gone := ClosedDeletes(rows0, deletes, env);
      ProcessDeletes(deletes, env, rows0, bad);
      ProcessSyncs(syncs, env, rows0, bad + gone);
      IndexOfPasses(s0, batch, env);
      PassesCloseBatch(rows0, batch, env);
      TasksOfPasses(s0.tasks, DeleteFallbacks(rows0, deletes, env), SyncFallbacks(rows0, syncs, env));
      PassesAreBatch(s0, batch, env, index, rows, tasks);
    }

    /**
     `process_outbox_task` on the oldest rows that no other worker has locked; the result says
     whether another run is to be scheduled.
     */
    method ProcessOutbox(locked: set<nat>, env: Env) returns (backlog: bool)
      modifies this`rows, this`tasks, this`index
      ensures var batch := SelectPending(old(rows), locked, BATCH_LIMIT, 0);
        && Laws.OldestFree(old(rows), locked, 250, 0, batch)
        && BatchEnabled(old(rows), batch)
        && backlog == (|batch| == 250)
        && Model() == (if batch == [] then old(Model()) else ProcessBatch(old(Model()), batch, env))
    {
      var batch := SelectPending(rows, locked, BATCH_LIMIT, 0);
      Laws.SelectionIsOldestFree(rows, locked, BATCH_LIMIT, 0);
      if batch == [] {
        return false;
      }
      backlog := |batch| == BATCH_LIMIT;
      ProcessPending(batch, env);
    }

    /** Running the worker keeps coverage, whatever fails. */
    method ProcessOutboxSafely(locked: set<nat>, env: Env) returns (backlog: bool)
      requires Inv(Model())
      modifies this`rows, this`tasks, this`index
      ensures Inv(Model())
    {
      var batch := SelectPending(rows, locked, BATCH_LIMIT, 0);
      backlog := ProcessOutbox(locked, env);
      if batch != [] {
        StepCovers(old(Model()), Process(batch, env));
      }
    }

    /** A trigger of the worker together with the runs it schedules itself. */
    method DrainOutbox(now: int) returns (runs: nat)
      requires DeletesGone(Model())
      modifies this`rows, this`tasks, this`index
      ensures (Model(), runs) == Chain(old(Model()), now)
      decreases Backlog(rows, 0)
    {
      NextBatchShrinks(Model(), now);
      var isEmpty := SelectPending(rows, {}, BATCH_LIMIT, 0) == [];
      var backlog := ProcessOutbox({}, Clean(now));
      runs := if isEmpty then 0 else 1;
      if backlog {
        var more := DrainOutbox(now);
        runs := runs + more;
      }
    }

    // -------------------------------------------------------------- retried tasks

    /** A failed call stays queued, whether its upload `landed` or not. */
    method SyncDieTask(pk: nat, ok: bool, landed: bool)
      requires SyncTask(pk) in tasks
      modifies this`index, this`tasks
      ensures Model() == RunTask(old(Model()), SyncTask(pk), ok || pk !in old(dies), if landed then {pk} else {})
    {
      SyncTaskEffect(Model(), pk, ok || pk !in dies, landed);
      if pk in dies && (ok || landed) {
        index := index[pk := ToDocument(dies[pk], sets)];
      }
      if ok || pk !in dies {
        tasks := tasks - multiset{SyncTask(pk)};
      }
    }

    method DeleteDieDocumentTask(pk: nat, ok: bool, landed: bool)
      requires DeleteTask(pk) in tasks
      modifies this`index, this`tasks
      ensures Model() == RunTask(old(Model()), DeleteTask(pk), ok, if landed then {pk} else {})
    {
      OneKey(pk, landed);
      UploadNone(Model(), {}, if ok || landed then {pk} else {});
      if ok || landed {
        index := index - {pk};
      }
      if ok {
        tasks := tasks - multiset{DeleteTask(pk)};
      }
    }

    /** One chunk, from `i` on: its dies are uploaded as they are now. */
    method UploadChunk(pks: seq<nat>, i: nat, ghost index0: map<nat, Document>) returns (end: nat)
      requires i < |pks| && index == index0 + Docs(dies, sets, Elems(pks[..i]))
      modifies this`index
      ensures end == ChunkEnd(pks, i)
      ensures index == index0 + Docs(dies, sets, Elems(pks[..end]))
    {
      end := ChunkEnd(pks, i);
      index := index + Docs(dies, sets, Elems(pks[i..end]));
      UploadTwice(index0, dies, sets, Elems(pks[..i]), Elems(pks[i..end]));
      ElemsOfSlices(pks, i, end);
    }

    /** The chunk that fails: part of it has landed. */
    method FailChunk(pks: seq<nat>, i: nat, part: set<nat>, ghost index0: map<nat, Document>)
      returns (landed: set<nat>)
      requires i <= |pks| && index == index0 + Docs(dies, sets, Elems(pks[..i]))
      modifies this`index
      ensures landed == Elems(pks[..i]) + Elems(pks[i..ChunkEnd(pks, i)]) * part && landed <= Elems(pks)
      ensures index == index0 + Docs(dies, sets, landed)
    {
      var end := ChunkEnd(pks, i);
      var last := Elems(pks[i..end]) * part;
      ElemsOfSlices(pks, i, end);
      ElemsOfSlices(pks, end, |pks|);
      assert pks[..|pks|] == pks;
      index := index + Docs(dies, sets, last);
      landed := Elems(pks[..i]);
      UploadTwice(index0, dies, sets, landed, last);
      landed := landed + last;
    }

    /** The chunks before `stop`. */
    method UploadChunks(pks: seq<nat>, stop: nat)
      requires stop <= |pks| && (stop % SYNC_CHUNK == 0 || stop == |pks|)
      modifies this`index
      ensures index == old(index) + Docs(dies, sets, Elems(pks[..stop]))
    {
      var i := 0;
      assert index == old(index) + Docs(dies, sets, Elems(pks[..0]));
      while i < stop
        invariant i <= stop && (i % SYNC_CHUNK == 0 || i == |pks|)
        invariant index == old(index) + Docs(dies, sets, Elems(pks[..i]))
      {
        i := UploadChunk(pks, i, old(index));
      }
    }

    /** All chunks, or those before the one that fails, and part of that. */
    method UploadBatch(pks: seq<nat>, failAt: Option<nat>, part: set<nat>) returns (landed: set<nat>)
      requires failAt.Some? ==> failAt.value <= |pks| && failAt.value % SYNC_CHUNK == 0
      modifies this`index
      ensures landed == Landed(pks, failAt, part) && landed <= Elems(pks)
      ensures index == old(index) + Docs(dies, sets, landed)
    {
      if failAt.None? {
        UploadChunks(pks, |pks|);
        assert pks[..|pks|] == pks;
        landed := Elems(pks);
      } else {
        UploadChunks(pks, failAt.value);
        landed := FailChunk(pks, failAt.value, part, old(index));
      }
    }

    /**
     Uploads in chunks of 100. If the chunk that starts at `failAt` raises, the chunks before
     it have landed, and `part` of it; everything is retried.
     */
    method SyncDiesBatchTask(pks: seq<nat>, failAt: Option<nat>, part: set<nat>) returns (landed: set<nat>)
      requires BatchSyncTask(Elems(pks)) in tasks
      requires failAt.Some? ==> failAt.value <= |pks| && failAt.value % SYNC_CHUNK == 0
      modifies this`index, this`tasks
      ensures landed == Landed(pks, failAt, part) && landed <= Elems(pks)
      ensures Model() == RunTask(old(Model()), BatchSyncTask(Elems(pks)), failAt.None?, landed)
    {
      landed := UploadBatch(pks, failAt, part);
      BatchTaskEffect(old(Model()), Elems(pks), failAt.None?, landed);
      if failAt.None? {
        tasks := tasks - multiset{BatchSyncTask(Elems(pks))};
      }
    }

    // -------------------------------------------------------------- maintenance

    method PruneProcessed(cutoff: int)
      modifies this`rows
      ensures Model() == old(Model()).(rows := KeepUnexpired(old(rows), cutoff))
    {
      var kept: seq<OutboxRow> := [];
      for i := 0 to |rows|
        invariant kept == KeepUnexpired(rows[..i], cutoff)
      {
        assert rows[..i + 1][..i] == rows[..i];
        if !Expired(rows[i], cutoff) {
          kept := kept + [rows[i]];
        }
      }
      assert rows[..|rows|] == rows;
      rows := kept;
    }

    /**
     Builds the new index aside and swaps it in. A rebuild that raises at any point, and is
     retried later, has touched only the temporary index.
     */
    method RebuildIndex(order: seq<nat>, ok: bool)
      requires Lists(order, dies)
      modifies this`index
      ensures Model() == if ok then Apply(old(Model()), Rebuild) else old(Model())
    {
      var temp := FillTempIndex(dies, sets, order);
      if ok {
        index := temp;
      }
    }
  }

  /** The rows of the table as the query lists them. */
  ghost predicate Lists(order: seq<nat>, dies: map<nat, Die>) {
    forall k :: k in order <==> k in dies
  }

  /** `temp` and `docs` together hold exactly the documents of the dies listed. */
  ghost predicate Holds(temp: map<nat, Document>, docs: map<nat, Document>,
                        dies: map<nat, Die>, sets: map<nat, SetInfo>, listed: seq<nat>) {
    && Documents(temp, dies, sets) && Documents(docs, dies, sets)
    && forall k :: k in listed <==> k in temp || k in docs
  }

  lemma HoldsOneMore(temp: map<nat, Document>, docs: map<nat, Document>,
                     dies: map<nat, Die>, sets: map<nat, SetInfo>, order: seq<nat>, i: nat)
    requires i < |order| && order[i] in dies && Holds(temp, docs, dies, sets, order[..i])
    ensures Holds(temp, docs[order[i] := ToDocument(dies[order[i]], sets)], dies, sets, order[..i + 1])
  {
    assert order[..i + 1] == order[..i] + [order[i]];
  }

  lemma HoldsFlushed(temp: map<nat, Document>, docs: map<nat, Document>,
                     dies: map<nat, Die>, sets: map<nat, SetInfo>, listed: seq<nat>)
    requires Holds(temp, docs, dies, sets, listed)
    ensures Holds(temp + docs, map[], dies, sets, listed)
  {
  }

  lemma HoldsAll(temp: map<nat, Document>, dies: map<nat, Die>, sets: map<nat, SetInfo>, order: seq<nat>)
    requires Lists(order, dies) && Holds(temp, map[], dies, sets, order)
    ensures temp == Docs(dies, sets, dies.Keys)
  {
  }

  /** Fills a temporary index, uploading the documents in batches of 100. */
  method FillTempIndex(dies: map<nat, Die>, sets: map<nat, SetInfo>, order: seq<nat>) returns (temp: map<nat, Document>)
    requires Lists(order, dies)
    ensures temp == Docs(dies, sets, dies.Keys)
  {
    temp := map[];
    var docs: map<nat, Document> := map[];
    for i := 0 to |order|
      invariant Holds(temp, docs, dies, sets, order[..i])
      invariant i == |order| ==> docs == map[]
    {
      HoldsOneMore(temp, docs, dies, sets, order, i);
      docs := docs[order[i] := ToDocument(dies[order[i]], sets)];
      if |docs| == REBUILD_BATCH || i == |order| - 1 {
        HoldsFlushed(temp, docs, dies, sets, order[..i + 1]);
        temp, docs := temp + docs, map[];
      }
    }
    assert order[..|order|] == order;
    HoldsAll(temp, dies, sets, order);
  }
}
