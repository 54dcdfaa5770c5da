/**
 The transactional outbox that keeps the search index equal to the die table, as a
 transition system: web transactions, the bulk import, the outbox worker, the
 fallback tasks, pruning and the full rebuild.
 */
module OutboxModel {
  import opened Options

  const BATCH_LIMIT: nat := 250

  // ---------------------------------------------------------------- entities

  datatype Rack = Rack(id: nat, name: string)

  datatype SetInfo = SetInfo(name: string, machine: string)

  datatype FlatSize = FlatSize(width: real, thickness: real)

  datatype Die = Die(
    dieId: string, dieType: string, casing: string, status: string,
    rack: Option<Rack>, shelf: Option<nat>, currentSet: Option<nat>,
    roundSize: Option<real>, flatSize: Option<FlatSize>)

  /** A search document; the index files it under the die's primary key. */
  datatype Document = Document(
    dieId: string, dieType: string, casing: string, status: string,
    rack: string, rackId: Option<nat>, shelf: Option<nat>,
    setName: string, machine: string,
    size: Option<real>, flat: Option<FlatSize>)

  function ToDocument(die: Die, sets: map<nat, SetInfo>): Document {
    var inSet := die.currentSet.Some? && die.currentSet.value in sets;
    Document(
      die.dieId, die.dieType, die.casing, die.status,
      if die.rack.Some? then die.rack.value.name else "",
      if die.rack.Some? then Some(die.rack.value.id) else None,
      die.shelf,
      if inSet then sets[die.currentSet.value].name else "",
      if inSet then sets[die.currentSet.value].machine else "",
      die.roundSize, die.flatSize)
  }

  datatype Kind = SyncDie | DeleteDie | UnknownKind

  /** `dieId` 0 stands for a payload without a die id (primary keys start at 1). */
  datatype Payload = Payload(dieId: nat, dieStr: Option<string>)

  /** The keyed digest of a payload, as a deterministic function of the payload. */
  datatype Digest = NoDigest | MacOf(payload: Payload)

  datatype OutboxRow = OutboxRow(kind: Kind, payload: Payload, digest: Digest, processedAt: Option<int>)

  datatype Task = SyncTask(pk: nat) | DeleteTask(pk: nat) | BatchSyncTask(pks: set<nat>)

  /**
   `owed` holds the dies an import has committed but not yet handed to the outbox.
   */
  datatype State = State(
    dies: map<nat, Die>, sets: map<nat, SetInfo>, nextPk: nat,
    index: map<nat, Document>, rows: seq<OutboxRow>, tasks: multiset<Task>, owed: set<nat>)

  function SyncRow(pk: nat): OutboxRow {
    OutboxRow(SyncDie, Payload(pk, None), MacOf(Payload(pk, None)), None)
  }

  function DeleteRow(pk: nat, dieStr: Option<string>): OutboxRow {
    OutboxRow(DeleteDie, Payload(pk, dieStr), MacOf(Payload(pk, dieStr)), None)
  }

  // ---------------------------------------------------------------- the index

  /** The documents the database currently gives for those of `pks` that exist. */
  function Docs(dies: map<nat, Die>, sets: map<nat, SetInfo>, pks: set<nat>): map<nat, Document> {
    map k | k in pks && k in dies :: ToDocument(dies[k], sets)
  }

  function AllDocs(s: State): map<nat, Document> {
    Docs(s.dies, s.sets, s.dies.Keys)
  }

  // ---------------------------------------------------------------- web transactions

  datatype Op = Create(die: Die) | Save(pk: nat, die: Die) | Delete(pk: nat)

  predicate OpEnabled(s: State, op: Op) {
    op.Create? || op.pk in s.dies
  }

  /** `queue_die_sync`: one outbox row per die and transaction. */
  function QueueSync(s: State, pending: set<nat>, pk: nat): (State, set<nat>) {
    if pk in pending then (s, pending)
    else (s.(rows := s.rows + [SyncRow(pk)]), pending + {pk})
  }

  function ApplyOp(s: State, pending: set<nat>, op: Op): (State, set<nat>)
    requires OpEnabled(s, op)
  {
    match op
    case Create(die) =>
      QueueSync(s.(dies := s.dies[s.nextPk := die], nextPk := s.nextPk + 1), pending, s.nextPk)
    case Save(pk, die) =>
      QueueSync(s.(dies := s.dies[pk := die]), pending, pk)
    case Delete(pk) =>
      (s.(dies := s.dies - {pk}, rows := s.rows + [DeleteRow(pk, Some(s.dies[pk].dieId))]), pending)
  }

  predicate OpsEnabled(s: State, pending: set<nat>, ops: seq<Op>)
    decreases |ops|
  {
    ops == [] ||
    (OpEnabled(s, ops[0]) &&
     var (s', pending') := ApplyOp(s, pending, ops[0]);
     OpsEnabled(s', pending', ops[1..]))
  }

  function ApplyOps(s: State, pending: set<nat>, ops: seq<Op>): State
    requires OpsEnabled(s, pending, ops)
    decreases |ops|
  {
    if ops == [] then s
    else
      var (s', pending') := ApplyOp(s, pending, ops[0]);
      ApplyOps(s', pending', ops[1..])
  }

  // ---------------------------------------------------------------- the outbox worker

  /**
   What the outside world does to one batch. When an upload fails, the index keeps
   whatever part of it had been applied (`deleted`, `uploaded`); `queued` holds the
   rows whose individual fallback task could be handed to the broker.
   */
  datatype Env = Env(
    deleteOk: bool, deleted: set<nat>, syncOk: bool, uploaded: set<nat>,
    queued: set<nat>, now: int)

  predicate Verified(r: OutboxRow) {
    r.digest == MacOf(r.payload) && !r.kind.UnknownKind?
  }

  predicate IndicesOf(rows: seq<OutboxRow>, batch: seq<nat>) {
    forall j :: 0 <= j < |batch| ==> batch[j] < |rows|
  }

  /** The rows of a batch, in order, that pass the integrity check and have this kind. */
  function OfKind(rows: seq<OutboxRow>, batch: seq<nat>, kind: Kind): (r: seq<nat>)
    requires IndicesOf(rows, batch)
    ensures IndicesOf(rows, r)
  {
    if batch == [] then []
    else
      var rest := OfKind(rows, batch[..|batch| - 1], kind);
      var i := batch[|batch| - 1];
      if Verified(rows[i]) && rows[i].kind == kind then rest + [i] else rest
  }

  /** The die ids named by some rows, leaving out payloads that name none. */
  function KeysOf(rows: seq<OutboxRow>, idxs: seq<nat>): set<nat>
    requires IndicesOf(rows, idxs)
  {
    set j | 0 <= j < |idxs| && rows[idxs[j]].payload.dieId != 0 :: rows[idxs[j]].payload.dieId
  }

  function FallbackTask(r: OutboxRow): Task {
    if r.kind.DeleteDie? then DeleteTask(r.payload.dieId) else SyncTask(r.payload.dieId)
  }

  function FallbackTasks(rows: seq<OutboxRow>, idxs: seq<nat>, queued: set<nat>): multiset<Task>
    requires IndicesOf(rows, idxs)
  {
    if idxs == [] then multiset{}
    else
      var rest := FallbackTasks(rows, idxs[..|idxs| - 1], queued);
      var i := idxs[|idxs| - 1];
      if i in queued then rest + multiset{FallbackTask(rows[i])} else rest
  }

  /** Whether a batch marks row `i` as processed. */
  predicate Closes(rows: seq<OutboxRow>, batch: seq<nat>, env: Env, i: nat)
    requires IndicesOf(rows, batch) && i < |rows|
  {
    i in batch &&
    if !Verified(rows[i]) then true
    else if rows[i].kind.DeleteDie? then
      KeysOf(rows, OfKind(rows, batch, DeleteDie)) != {} && (env.deleteOk || i in env.queued)
    else env.syncOk || i in env.queued
  }

  function CloseRows(rows: seq<OutboxRow>, batch: seq<nat>, env: Env): (r: seq<OutboxRow>)
    requires IndicesOf(rows, batch)
    ensures |r| == |rows|
  {
    seq(|rows|, i requires 0 <= i < |rows| =>
      if Closes(rows, batch, env, i) then rows[i].(processedAt := Some(env.now)) else rows[i])
  }

  /** What a batch delete takes out of the index, whole or, when it fails, in part. */
  function DeletedKeys(keys: set<nat>, env: Env): set<nat> {
    if env.deleteOk then keys else keys * env.deleted
  }

  function UploadedKeys(keys: set<nat>, env: Env): set<nat> {
    if env.syncOk then keys else keys * env.uploaded
  }

  function AfterDeletes(s: State, batch: seq<nat>, env: Env): map<nat, Document>
    requires IndicesOf(s.rows, batch)
  {
    s.index - DeletedKeys(KeysOf(s.rows, OfKind(s.rows, batch, DeleteDie)), env)
  }

  function AfterSyncs(s: State, batch: seq<nat>, env: Env): map<nat, Document>
    requires IndicesOf(s.rows, batch)
  {
    AfterDeletes(s, batch, env)
    + Docs(s.dies, s.sets, UploadedKeys(KeysOf(s.rows, OfKind(s.rows, batch, SyncDie)), env))
  }

  function DeleteFallbacks(rows: seq<OutboxRow>, deletes: seq<nat>, env: Env): multiset<Task>
    requires IndicesOf(rows, deletes)
  {
    if env.deleteOk || KeysOf(rows, deletes) == {} then multiset{} else FallbackTasks(rows, deletes, env.queued)
  }

  function SyncFallbacks(rows: seq<OutboxRow>, syncs: seq<nat>, env: Env): multiset<Task>
    requires IndicesOf(rows, syncs)
  {
    if env.syncOk then multiset{} else FallbackTasks(rows, syncs, env.queued)
  }

  function BatchTasks(rows: seq<OutboxRow>, batch: seq<nat>, env: Env): multiset<Task>
    requires IndicesOf(rows, batch)
  {
    DeleteFallbacks(rows, OfKind(rows, batch, DeleteDie), env) + SyncFallbacks(rows, OfKind(rows, batch, SyncDie), env)
  }

  /** One read-upload-mark step of `process_outbox_task` on the rows `batch`. */
  function ProcessBatch(s: State, batch: seq<nat>, env: Env): State
    requires IndicesOf(s.rows, batch)
  {
    s.(index := AfterSyncs(s, batch, env),
       rows := CloseRows(s.rows, batch, env),
       tasks := s.tasks + BatchTasks(s.rows, batch, env))
  }

  predicate BatchEnabled(rows: seq<OutboxRow>, batch: seq<nat>) {
    |batch| <= BATCH_LIMIT && IndicesOf(rows, batch) &&
    forall j :: 0 <= j < |batch| ==> rows[batch[j]].processedAt.None?
  }

  /** The oldest unprocessed rows that no other worker has locked, at most `limit` of them. */
  function SelectPending(rows: seq<OutboxRow>, locked: set<nat>, limit: nat, start: nat): (r: seq<nat>)
    requires start <= |rows|
    ensures |r| <= limit
    ensures forall j :: 0 <= j < |r| ==>
      start <= r[j] < |rows| && rows[r[j]].processedAt.None? && r[j] !in locked
    decreases |rows| - start
  {
    if limit == 0 || start == |rows| then []
    else if rows[start].processedAt.None? && start !in locked then
      [start] + SelectPending(rows, locked, limit - 1, start + 1)
    else SelectPending(rows, locked, limit, start + 1)
  }

  // ---------------------------------------------------------------- other tasks

  /** What a task removes from the index, and which dies it uploads. */
  function Gone(t: Task, ok: bool, landed: set<nat>): set<nat> {
    if !t.DeleteTask? then {} else if ok then {t.pk} else {t.pk} * landed
  }

  function Uploaded(t: Task, ok: bool, landed: set<nat>): set<nat> {
    var all := match t case SyncTask(pk) => {pk} case DeleteTask(_) => {} case BatchSyncTask(pks) => pks;
    if ok then all else all * landed
  }

  /** Running a queued task: on failure it stays queued and part of its upload may have landed. */
  function RunTask(s: State, t: Task, ok: bool, landed: set<nat>): State {
    s.(index := s.index - Gone(t, ok, landed) + Docs(s.dies, s.sets, Uploaded(t, ok, landed)),
       tasks := if ok then s.tasks - multiset{t} else s.tasks)
  }

  predicate Expired(r: OutboxRow, cutoff: int) {
    r.processedAt.Some? && r.processedAt.value < cutoff
  }

  function KeepUnexpired(rows: seq<OutboxRow>, cutoff: int): seq<OutboxRow> {
    if rows == [] then []
    else
      var rest := KeepUnexpired(rows[..|rows| - 1], cutoff);
      var r := rows[|rows| - 1];
      if Expired(r, cutoff) then rest else rest + [r]
  }

  /** Dies whose set is among the changed ones: what the resync signal collects. */
  function DiesInSets(dies: map<nat, Die>, changed: set<nat>): set<nat> {
    set k | k in dies && dies[k].currentSet.Some? && dies[k].currentSet.value in changed
  }

  function SyncRows(pks: seq<nat>): (r: seq<OutboxRow>)
    ensures |r| == |pks| && forall j :: 0 <= j < |pks| ==> r[j] == SyncRow(pks[j])
  {
    seq(|pks|, j requires 0 <= j < |pks| => SyncRow(pks[j]))
  }

  // ---------------------------------------------------------------- transitions

  datatype Step =
    | Transact(ops: seq<Op>)
    | ImportRow(pk: nat, die: Die)
    | EnqueueImport(pks: seq<nat>)
    | SaveSets(changes: map<nat, SetInfo>)
    | Process(batch: seq<nat>, env: Env)
    | Run(task: Task, ok: bool, landed: set<nat>)
    | Prune(cutoff: int)
    | Rebuild
    | ForeignRow(row: OutboxRow)

  predicate Enabled(s: State, step: Step) {
    match step
    case Transact(ops) => OpsEnabled(s, {}, ops)
    case ImportRow(pk, die) => pk in s.dies || pk == s.nextPk
    case EnqueueImport(pks) => true
    case SaveSets(changes) => true
    case Process(batch, env) => BatchEnabled(s.rows, batch)
    case Run(task, ok, landed) => task in s.tasks
    case Prune(cutoff) => true
    case Rebuild => true
    case ForeignRow(row) => !(Verified(row) && row.kind.DeleteDie?)
  }

  function Apply(s: State, step: Step): State
    requires Enabled(s, step)
  {
    match step
    case Transact(ops) => ApplyOps(s, {}, ops)
    case ImportRow(pk, die) =>
      s.(dies := s.dies[pk := die],
         nextPk := if pk == s.nextPk then pk + 1 else s.nextPk,
         owed := s.owed + {pk})
    case EnqueueImport(pks) =>
      s.(rows := s.rows + SyncRows(pks), owed := s.owed - set j | 0 <= j < |pks| :: pks[j])
    case SaveSets(changes) =>
      var pks := DiesInSets(s.dies, changes.Keys);
      s.(sets := s.sets + changes,
         tasks := if pks == {} then s.tasks else s.tasks + multiset{BatchSyncTask(pks)})
    case Process(batch, env) => ProcessBatch(s, batch, env)
    case Run(task, ok, landed) => RunTask(s, task, ok, landed)
    case Prune(cutoff) => s.(rows := KeepUnexpired(s.rows, cutoff))
    case Rebuild => s.(index := AllDocs(s))
    case ForeignRow(row) => s.(rows := s.rows + [row])
  }

  predicate RunEnabled(s: State, steps: seq<Step>)
    decreases |steps|
  {
    steps == [] || (Enabled(s, steps[0]) && RunEnabled(Apply(s, steps[0]), steps[1..]))
  }

  function RunSteps(s: State, steps: seq<Step>): State
    requires RunEnabled(s, steps)
    decreases |steps|
  {
    if steps == [] then s else RunSteps(Apply(s, steps[0]), steps[1..])
  }

  // ---------------------------------------------------------------- coverage

  predicate Agrees(s: State, k: nat) {
    if k in s.dies then k in s.index && s.index[k] == ToDocument(s.dies[k], s.sets)
    else k !in s.index
  }

  predicate IsPending(r: OutboxRow, kind: Kind, k: nat) {
    r.processedAt.None? && Verified(r) && r.kind == kind && r.payload.dieId == k
  }

  ghost predicate HasRow(rows: seq<OutboxRow>, kind: Kind, k: nat) {
    exists i :: 0 <= i < |rows| && IsPending(rows[i], kind, k)
  }

  ghost predicate HasBatch(tasks: multiset<Task>, k: nat) {
    exists t :: t in tasks && t.BatchSyncTask? && k in t.pks
  }

  /** Work of the right kind is still outstanding for `k`. */
  ghost predicate Covered(s: State, k: nat) {
    if k in s.dies then
      HasRow(s.rows, SyncDie, k) || SyncTask(k) in s.tasks || HasBatch(s.tasks, k) || k in s.owed
    else HasRow(s.rows, DeleteDie, k) || DeleteTask(k) in s.tasks
  }

  ghost predicate DeletesGone(s: State) {
    && 0 < s.nextPk
    && (forall k :: k in s.dies ==> 0 < k < s.nextPk)
    && (forall k: nat :: HasRow(s.rows, DeleteDie, k) ==> 0 < k < s.nextPk && k !in s.dies)
    && (forall k: nat :: DeleteTask(k) in s.tasks ==> 0 < k < s.nextPk && k !in s.dies)
  }

  ghost predicate Inv(s: State) {
    && DeletesGone(s)
    && (forall k: nat :: Agrees(s, k) || Covered(s, k))
  }

  /** Nothing is outstanding anywhere. */
  ghost predicate Quiescent(s: State) {
    && (forall i :: 0 <= i < |s.rows| ==> s.rows[i].processedAt.Some?)
    && s.tasks == multiset{}
    && s.owed == {}
  }
}
