/**
 The buffer under concurrency. Every mutex-protected region of the buffer, and every publish
 made outside it, is one atomic step. Senders are calls of the publishing lambdas; flushers
 are the detached threads started on each connect, and the flush at shutdown.
 */
module BufferProtocol {
  import opened Buffer

  /** One call of a publishing lambda. `rows` records the ids it has stored so far. */
  datatype Sender = Sender(topic: string, payload: string, copies: nat, phase: Phase, rows: seq<nat>)

  /** Trying: before the direct publish. Storing: it failed. Posted and Stored are final. */
  datatype Phase = Trying | Storing | Posted | Stored

  /** A flusher between its atomic steps. A batch still to be published is never empty. */
  datatype Flusher =
    | Fetching
    | Publishing(batch: seq<Row>)
    | Deleting(batch: seq<Row>)
    | Finished

  /** A message the client library took, and who handed it over. */
  datatype Post =
    | Direct(sender: nat, topic: string, payload: string)
    | Replayed(flusher: nat, row: Row)

  /**
   The state. The table and the id counter are the database; the maps hold the threads.
   The last four fields only record what happened: all rows ever in the table, the ids
   removed by pruning, what the client library took, and the number of rows ever stored at
   each store that pruned.
   */
  datatype System = System(
    table: seq<Row>,
    lastId: nat,
    senders: map<nat, Sender>,
    flushers: map<nat, Flusher>,
    history: seq<Row>,
    pruned: set<nat>,
    wire: seq<Post>,
    prunes: seq<nat>)

  datatype Step =
    | Accept(sender: nat, topic: string, payload: string, copies: nat)
    | Attempt(sender: nat, ok: bool)
    | Store(sender: nat)
    | Spawn(flusher: nat)
    | Fetch(flusher: nat)
    | Publish(flusher: nat, ok: bool)
    | Delete(flusher: nat)

  /** A process may open a database left behind by an earlier one. */
  ghost predicate Initial(s: System) {
    && Ascending(s.table) && BoundedBy(s.table, s.lastId)
    && s.history == s.table
    && s.senders == map[] && s.flushers == map[]
    && s.pruned == {} && s.wire == [] && s.prunes == []
  }

  predicate Enabled(s: System, step: Step) {
    match step
    case Accept(m, _, _, copies) => m !in s.senders && copies in {1, 2}
    case Attempt(m, _) => m in s.senders && s.senders[m].phase == Trying
    case Store(m) => m in s.senders && s.senders[m].phase == Storing
    case Spawn(f) => f !in s.flushers
    case Fetch(f) => f in s.flushers && s.flushers[f] == Fetching
    case Publish(f, _) => f in s.flushers && s.flushers[f].Publishing? && s.flushers[f].batch != []
    case Delete(f) => f in s.flushers && s.flushers[f].Deleting? && s.flushers[f].batch != []
  }

  function Apply(s: System, step: Step): System
    requires Enabled(s, step)
  {
    match step
    case Accept(m, topic, payload, copies) =>
      s.(senders := s.senders[m := Sender(topic, payload, copies, Trying, [])])
    case Attempt(m, ok) =>
      var sender := s.senders[m];
      if ok
      then s.(senders := s.senders[m := sender.(phase := Posted)],
              wire := s.wire + [Direct(m, sender.topic, sender.payload)])
      else s.(senders := s.senders[m := sender.(phase := Storing)])
    case Store(m) => ApplyStore(s, m)
    case Spawn(f) => s.(flushers := s.flushers[f := Fetching])
    case Fetch(f) =>
      var batch := FirstRows(s.table, BUFFER_FLUSH_BATCH_SIZE);
      s.(flushers := s.flushers[f := if batch == [] then Finished else Publishing(batch)])
    case Publish(f, ok) =>
      var batch := s.flushers[f].batch;
      if ok
      then s.(flushers := s.flushers[f := Deleting(batch)],
              wire := s.wire + [Replayed(f, batch[0])])
      else s.(flushers := s.flushers[f := Finished])
    case Delete(f) =>
      var batch := s.flushers[f].batch;
      s.(table := DeleteById(s.table, batch[0].id),
         flushers := s.flushers[f := if |batch| == 1 then Fetching else Publishing(batch[1..])])
  }

  /** The lambda stores once; the log collector's fallback stores a second copy. */
  function ApplyStore(s: System, m: nat): System
    requires m in s.senders
  {
    var sender := s.senders[m];
    var kept := Prune(s.table);
    var row := Row(s.lastId + 1, sender.topic, sender.payload);
    var rows := sender.rows + [row.id];
    System(
      kept + [row],
      row.id,
      s.senders[m := sender.(phase := if |rows| >= sender.copies then Stored else Storing, rows := rows)],
      s.flushers,
      s.history + [row],
      s.pruned + set i | 0 <= i < |s.table| - |kept| :: s.table[i].id,
      s.wire,
      if |kept| < |s.table| then s.prunes + [|s.history| + 1] else s.prunes)
  }

  ghost predicate Run(states: seq<System>, steps: seq<Step>) {
    && |states| == |steps| + 1
    && Initial(states[0])
    && forall i :: 0 <= i < |steps| ==> Enabled(states[i], steps[i]) && states[i + 1] == Apply(states[i], steps[i])
  }

  // ---------------------------------------------------------------- invariants

  ghost predicate TableInv(s: System) {
    Ascending(s.history) && BoundedBy(s.history, s.lastId) && SuffixOf(s.table, s.history)
  }

  /** A pending batch is known to the table up to its last id, and nothing older is left. */
  ghost predicate BatchInv(batch: seq<Row>, s: System) {
    && batch != []
    && Ascending(batch) && BoundedBy(batch, s.lastId)
    && (forall i :: 0 <= i < |batch| ==> batch[i] in s.history)
    && (forall r :: r in s.table ==> batch[0].id <= r.id)
    && (forall r :: r in s.table && r.id <= batch[|batch| - 1].id ==> r in batch)
  }

  ghost predicate FlusherOk(f: nat, flusher: Flusher, s: System) {
    && (flusher.Publishing? || flusher.Deleting? ==> BatchInv(flusher.batch, s))
    && (flusher.Deleting? ==> Replayed(f, flusher.batch[0]) in s.wire)
  }

  ghost predicate FlusherInv(s: System) {
    forall f :: f in s.flushers ==> FlusherOk(f, s.flushers[f], s)
  }

  /** An id this flusher has published is below (or, while it deletes, at) the one it handles next. */
  ghost predicate Behind(id: nat, flusher: Flusher, s: System) {
    && (flusher.Fetching? ==> id <= s.lastId && forall r :: r in s.table ==> id < r.id)
    && (flusher.Publishing? ==> flusher.batch != [] && id < flusher.batch[0].id)
    && (flusher.Deleting? ==> flusher.batch != [] && id <= flusher.batch[0].id)
  }

  ghost predicate OrderInv(s: System) {
    && (forall i :: 0 <= i < |s.wire| && s.wire[i].Replayed? ==>
          && s.wire[i].row in s.history
          && s.wire[i].flusher in s.flushers
          && Behind(s.wire[i].row.id, s.flushers[s.wire[i].flusher], s))
    && PerFlusherAscending(s.wire)
  }

  predicate SameFlusher(p: Post, q: Post) {
    p.Replayed? && q.Replayed? && p.flusher == q.flusher
  }

  ghost predicate PerFlusherAscending(wire: seq<Post>) {
    forall i, j :: 0 <= i < j < |wire| && SameFlusher(wire[i], wire[j]) ==> wire[i].row.id < wire[j].row.id
  }

  ghost predicate Published(s: System, row: Row) {
    exists f :: Replayed(f, row) in s.wire
  }

  /** A stored row is still in the table, was published, or was pruned. */
  ghost predicate Accounted(s: System, row: Row) {
    row in s.table || row.id in s.pruned || Published(s, row)
  }

  ghost predicate LossInv(s: System) {
    forall i :: 0 <= i < |s.history| ==> Accounted(s, s.history[i])
  }

  ghost predicate StoredBy(s: System, sender: Sender, id: nat) {
    Row(id, sender.topic, sender.payload) in s.history
  }

  ghost predicate SenderOk(m: nat, sender: Sender, s: System) {
    && (forall k :: 0 <= k < |sender.rows| ==> StoredBy(s, sender, sender.rows[k]) && sender.rows[k] <= s.lastId)
    && (forall j, k :: 0 <= j < k < |sender.rows| ==> sender.rows[j] < sender.rows[k])
    && 1 <= sender.copies <= 2
    && (sender.phase == Trying || sender.phase == Posted ==> sender.rows == [])
    && (sender.phase == Storing ==> |sender.rows| < sender.copies)
    && (sender.phase == Posted ==> Direct(m, sender.topic, sender.payload) in s.wire)
    && (sender.phase == Stored ==> |sender.rows| == sender.copies)
  }

  ghost predicate SenderInv(s: System) {
    forall m :: m in s.senders ==> SenderOk(m, s.senders[m], s)
  }

  ghost predicate PruneInv(s: System) {
    && (forall i :: 0 <= i < |s.history| && s.history[i].id in s.pruned ==>
          i + BUFFER_MAX_MESSAGES - PRUNE_MARGIN + 1 < |s.history|)
    && (forall id :: id in s.pruned ==> id <= s.lastId)
    && (forall i :: 0 < i < |s.prunes| ==> s.prunes[i - 1] + PRUNE_MARGIN <= s.prunes[i])
    && (s.prunes != [] ==>
          && s.prunes[|s.prunes| - 1] <= |s.history|
          && |s.table| + s.prunes[|s.prunes| - 1] <= BUFFER_MAX_MESSAGES - PRUNE_MARGIN + 1 + |s.history|)
  }

  ghost predicate Inv(s: System) {
    && TableInv(s) && FlusherInv(s) && OrderInv(s)
    && LossInv(s) && SenderInv(s) && PruneInv(s)
  }

  // ---------------------------------------------------------------- every step keeps the invariant

  /** What every step does to the shared state: records grow, and the table only gains fresh ids. */
  ghost predicate Later(s: System, t: System) {
    && s.lastId <= t.lastId
    && (forall r :: r in s.history ==> r in t.history)
    && (forall p :: p in s.wire ==> p in t.wire)
    && s.pruned <= t.pruned
    && (forall r :: r in t.table ==> r in s.table || s.lastId < r.id)
  }

  /** The delete of a flusher takes away the oldest row of the table, or nothing. */
  lemma DeleteTakesOldest(s: System, f: nat)
    requires TableInv(s) && FlusherInv(s) && Enabled(s, Delete(f))
    ensures Ascending(s.table)
    ensures var id := s.flushers[f].batch[0].id;
      DeleteById(s.table, id) == if s.table != [] && s.table[0].id == id then s.table[1..] else s.table
  {
    var batch := s.flushers[f].batch;
    assert FlusherOk(f, s.flushers[f], s);
    if s.table != [] {
      assert s.table[0] in s.table;
    }
    DeleteAtFront(s.table, batch[0].id);
  }

  lemma StepLater(s: System, step: Step)
    requires TableInv(s) && FlusherInv(s) && Enabled(s, step)
    ensures Later(s, Apply(s, step))
  {
    if step.Delete? {
      DeleteTakesOldest(s, step.flusher);
    }
    if step.Store? {
      PruneKeepsNewest(s.table);
    }
  }

  lemma DeleteKeepsTable(s: System, f: nat)
    requires TableInv(s) && FlusherInv(s) && Enabled(s, Delete(f))
    ensures SuffixOf(DeleteById(s.table, s.flushers[f].batch[0].id), s.history)
  {
    DeleteTakesOldest(s, f);
    if s.table != [] {
      SuffixWithoutOldest(s.table, s.history);
    }
  }

  lemma StoreKeepsTable(s: System, m: nat)
    requires TableInv(s) && m in s.senders
    ensures TableInv(ApplyStore(s, m))
  {
    var t := ApplyStore(s, m);
    PruneKeepsNewest(s.table);
    SuffixTransitive(Prune(s.table), s.table, s.history);
    AppendKeepsSuffix(Prune(s.table), s.history, s.lastId, t.history[|s.history|]);
  }

  lemma StepKeepsTable(s: System, step: Step)
    requires TableInv(s) && FlusherInv(s) && Enabled(s, step)
    ensures TableInv(Apply(s, step))
  {
    if step.Delete? {
      DeleteKeepsTable(s, step.flusher);
    } else if step.Store? {
      StoreKeepsTable(s, step.sender);
    }
  }

  lemma BatchStays(batch: seq<Row>, s: System, t: System)
    requires BatchInv(batch, s) && Later(s, t)
    ensures BatchInv(batch, t)
  {
    forall r | r in t.table
      ensures batch[0].id <= r.id
      ensures r.id <= batch[|batch| - 1].id ==> r in batch
    {
    }
  }

  lemma BatchAdvances(batch: seq<Row>, s: System, t: System)
    requires BatchInv(batch, s) && Later(s, t) && |batch| > 1
    requires forall r :: r in t.table ==> r.id != batch[0].id
    ensures BatchInv(batch[1..], t)
  {
    BatchStays(batch, s, t);
    var rest := batch[1..];
    assert rest[|rest| - 1] == batch[|batch| - 1];
    forall r | r in t.table
      ensures rest[0].id <= r.id
      ensures r.id <= rest[|rest| - 1].id ==> r in rest
    {
      RestOfBatch(batch, r);
    }
  }

  lemma RestOfBatch(batch: seq<Row>, r: Row)
    requires Ascending(batch) && |batch| > 1 && batch[0].id < r.id
    requires r.id <= batch[|batch| - 1].id ==> r in batch
    ensures batch[1].id <= r.id
    ensures r.id <= batch[|batch| - 1].id ==> r in batch[1..]
  {
    if r.id <= batch[|batch| - 1].id {
      var i :| 0 <= i < |batch| && batch[i] == r;
      assert batch[1..][i - 1] == r;
    }
  }

  lemma FirstOfTable(table: seq<Row>, n: nat, r: Row)
    requires Ascending(table) && table != [] && r in table && n > 0
    ensures var batch := FirstRows(table, n);
      batch != [] && batch[0].id <= r.id && (r.id <= batch[|batch| - 1].id ==> r in batch)
  {
    var batch := FirstRows(table, n);
    var i :| 0 <= i < |table| && table[i] == r;
    if i < |batch| {
      assert batch[i] == r;
    }
  }

  lemma FetchedBatch(s: System)
    requires TableInv(s) && s.table != []
    ensures BatchInv(FirstRows(s.table, BUFFER_FLUSH_BATCH_SIZE), s)
  {
    SuffixesOfSuffix(s.table, s.history);
    var batch, gone := FirstRows(s.table, BUFFER_FLUSH_BATCH_SIZE), |s.history| - |s.table|;
    assert forall i :: 0 <= i < |batch| ==> batch[i] == s.history[gone + i];
    forall r | r in s.table
      ensures batch[0].id <= r.id
      ensures r.id <= batch[|batch| - 1].id ==> r in batch
    {
      FirstOfTable(s.table, BUFFER_FLUSH_BATCH_SIZE, r);
    }
  }

  lemma FlusherStays(f: nat, flusher: Flusher, s: System, t: System)
    requires FlusherOk(f, flusher, s) && Later(s, t)
    ensures FlusherOk(f, flusher, t)
  {
    if flusher.Publishing? || flusher.Deleting? {
      BatchStays(flusher.batch, s, t);
    }
  }

  lemma DeletedIsGone(table: seq<Row>, id: nat)
    requires Ascending(table) && (forall r :: r in table ==> id <= r.id)
    requires DeleteById(table, id) == if table != [] && table[0].id == id then table[1..] else table
    ensures forall r :: r in DeleteById(table, id) ==> r.id != id
  {
    forall i | 0 <= i < |DeleteById(table, id)|
      ensures DeleteById(table, id)[i].id != id
    {
      if table[0].id != id {
        assert table[0] in table;
      }
    }
  }

  lemma DeleteMovesOn(s: System, f: nat)
    requires TableInv(s) && FlusherInv(s) && Enabled(s, Delete(f))
    ensures var t := Apply(s, Delete(f)); FlusherOk(f, t.flushers[f], t)
  {
    var batch := s.flushers[f].batch;
    assert FlusherOk(f, s.flushers[f], s);
    if |batch| > 1 {
      StepLater(s, Delete(f));
      DeleteTakesOldest(s, f);
      DeletedIsGone(s.table, batch[0].id);
      BatchAdvances(batch, s, Apply(s, Delete(f)));
    }
  }

  lemma FlusherStep(s: System, step: Step, f: nat)
    requires TableInv(s) && FlusherInv(s) && Enabled(s, step)
    requires f in Apply(s, step).flushers
    ensures FlusherOk(f, Apply(s, step).flushers[f], Apply(s, step))
  {
    var t := Apply(s, step);
    StepLater(s, step);
    if f in s.flushers && t.flushers[f] == s.flushers[f] {
      FlusherStays(f, s.flushers[f], s, t);
    } else if step.Delete? {
      DeleteMovesOn(s, f);
    } else if step.Fetch? {
      if s.table != [] {
        FetchedBatch(s);
      }
    } else if step.Publish? {
      assert FlusherOk(f, s.flushers[f], s);
      BatchStays(s.flushers[f].batch, s, t);
      assert step.ok ==> t.wire[|s.wire|] == Replayed(f, s.flushers[f].batch[0]);
    }
  }

  lemma StepKeepsFlushers(s: System, step: Step)
    requires TableInv(s) && FlusherInv(s) && Enabled(s, step)
    ensures FlusherInv(Apply(s, step))
  {
    forall f | f in Apply(s, step).flushers
      ensures FlusherOk(f, Apply(s, step).flushers[f], Apply(s, step))
    {
      FlusherStep(s, step, f);
    }
  }

  lemma BehindStays(id: nat, flusher: Flusher, s: System, t: System)
    requires Behind(id, flusher, s) && Later(s, t)
    ensures Behind(id, flusher, t)
  {
  }

  lemma DeleteLeavesBehind(s: System, f: nat, id: nat)
    requires TableInv(s) && FlusherInv(s) && Enabled(s, Delete(f))
    requires Behind(id, s.flushers[f], s)
    ensures var t := Apply(s, Delete(f)); Behind(id, t.flushers[f], t)
  {
    assert FlusherOk(f, s.flushers[f], s);
    DeleteTakesOldest(s, f);
  }

  lemma FetchLeavesBehind(s: System, f: nat, id: nat)
    requires Enabled(s, Fetch(f)) && Behind(id, s.flushers[f], s)
    ensures var t := Apply(s, Fetch(f)); Behind(id, t.flushers[f], t)
  {
    if s.table != [] {
      assert s.table[0] in s.table;
    }
  }

  lemma PublishLeavesBehind(s: System, f: nat, ok: bool, id: nat)
    requires Enabled(s, Publish(f, ok)) && Behind(id, s.flushers[f], s)
    ensures var t := Apply(s, Publish(f, ok)); Behind(id, t.flushers[f], t)
  {
  }

  predicate Moves(step: Step, f: nat) {
    (step.Fetch? || step.Publish? || step.Delete?) && step.flusher == f
  }

  lemma OthersStay(s: System, step: Step, f: nat)
    requires Enabled(s, step) && f in s.flushers && !Moves(step, f)
    ensures f in Apply(s, step).flushers && Apply(s, step).flushers[f] == s.flushers[f]
  {
  }

  /** An id published before the step stays behind its flusher's next one. */
  lemma StaysBehind(s: System, step: Step, id: nat, f: nat)
    requires TableInv(s) && FlusherInv(s) && Enabled(s, step)
    requires f in s.flushers && Behind(id, s.flushers[f], s)
    ensures f in Apply(s, step).flushers && Behind(id, Apply(s, step).flushers[f], Apply(s, step))
  {
    if !Moves(step, f) {
      OthersStay(s, step, f);
      StepLater(s, step);
      BehindStays(id, s.flushers[f], s, Apply(s, step));
    } else if step.Fetch? {
      FetchLeavesBehind(s, f, id);
    } else if step.Publish? {
      PublishLeavesBehind(s, f, step.ok, id);
    } else {
      DeleteLeavesBehind(s, f, id);
    }
  }

  lemma StepKeepsOrder(s: System, step: Step)
    requires TableInv(s) && FlusherInv(s) && OrderInv(s) && Enabled(s, step)
    ensures OrderInv(Apply(s, step))
  {
    var t := Apply(s, step);
    StepLater(s, step);
    forall i | 0 <= i < |t.wire| && t.wire[i].Replayed?
      ensures t.wire[i].row in t.history
      ensures t.wire[i].flusher in t.flushers
      ensures Behind(t.wire[i].row.id, t.flushers[t.wire[i].flusher], t)
    {
      if i < |s.wire| {
        StaysBehind(s, step, s.wire[i].row.id, s.wire[i].flusher);
      } else {
        assert FlusherOk(step.flusher, s.flushers[step.flusher], s);
        assert s.flushers[step.flusher].batch[0] in s.history;
      }
    }
    forall i, j | 0 <= i < j < |t.wire| && SameFlusher(t.wire[i], t.wire[j])
      ensures t.wire[i].row.id < t.wire[j].row.id
    {
      if j == |s.wire| {
        assert Behind(s.wire[i].row.id, s.flushers[step.flusher], s);
      }
    }
  }

  lemma StepKeepsLoss(s: System, step: Step)
    requires TableInv(s) && FlusherInv(s) && LossInv(s) && Enabled(s, step)
    ensures LossInv(Apply(s, step))
  {
    var t := Apply(s, step);
    StepLater(s, step);
    forall i | 0 <= i < |t.history|
      ensures Accounted(t, t.history[i])
    {
      var row := t.history[i];
      if i == |s.history| {
        assert t.table[|t.table| - 1] == row;
      } else {
        assert Accounted(s, row);
        if Published(s, row) {
          var f :| Replayed(f, row) in s.wire;
          assert Replayed(f, row) in t.wire;
        } else if row in s.table && row !in t.table {
          RemovedIsAccounted(s, step, row);
        }
      }
    }
  }

  lemma PrunedRow(table: seq<Row>, kept: seq<Row>, row: Row)
    requires SuffixOf(kept, table) && row in table && row !in kept
    ensures row.id in set i | 0 <= i < |table| - |kept| :: table[i].id
  {
    var gone := |table| - |kept|;
    forall i | gone <= i < |table|
      ensures table[i] in kept
    {
      assert kept[i - gone] == table[i];
    }
    var j :| 0 <= j < |table| && table[j] == row;
    assert j < gone;
  }

  lemma DeletedRow(table: seq<Row>, id: nat, row: Row)
    requires DeleteById(table, id) == if table != [] && table[0].id == id then table[1..] else table
    requires row in table && row !in DeleteById(table, id)
    ensures row.id == id
  {
    forall i | 1 <= i < |table|
      ensures table[i] in table[1..]
    {
      assert table[1..][i - 1] == table[i];
    }
    var j :| 0 <= j < |table| && table[j] == row;
  }

  /** Rows leave the table only by being pruned or after being published. */
  lemma RemovedIsAccounted(s: System, step: Step, row: Row)
    requires TableInv(s) && FlusherInv(s) && Enabled(s, step)
    requires row in s.table && row !in Apply(s, step).table
    ensures Accounted(Apply(s, step), row)
  {
    if step.Store? {
      PruneKeepsNewest(s.table);
      PrunedRow(s.table, Prune(s.table), row);
    } else if step.Delete? {
      DeleteTakesOldest(s, step.flusher);
      var head := s.flushers[step.flusher].batch[0];
      DeletedRow(s.table, head.id, row);
      assert FlusherOk(step.flusher, s.flushers[step.flusher], s);
      SameIdSameRow(s, row, head);
    }
  }

  /** In the history, and so in the table, an id names one row. */
  lemma SameIdSameRow(s: System, row: Row, other: Row)
    requires TableInv(s) && row in s.table && other in s.history && row.id == other.id
    ensures row == other
  {
    var i :| 0 <= i < |s.table| && s.table[i] == row;
    var j :| 0 <= j < |s.history| && s.history[j] == other;
    assert s.history[|s.history| - |s.table| + i] == row;
  }

  lemma SenderStays(m: nat, sender: Sender, s: System, t: System)
    requires SenderOk(m, sender, s) && Later(s, t)
    ensures SenderOk(m, sender, t)
  {
    forall k | 0 <= k < |sender.rows|
      ensures StoredBy(t, sender, sender.rows[k])
    {
      assert StoredBy(s, sender, sender.rows[k]);
    }
  }

  lemma SenderStores(s: System, m: nat)
    requires TableInv(s) && FlusherInv(s) && SenderInv(s) && Enabled(s, Store(m))
    ensures var t := ApplyStore(s, m); SenderOk(m, t.senders[m], t)
  {
    var t := ApplyStore(s, m);
    StepLater(s, Store(m));
    SenderStays(m, s.senders[m], s, t);
    assert t.history[|s.history|] in t.history;
    var sender := t.senders[m];
    forall k | 0 <= k < |sender.rows|
      ensures StoredBy(t, sender, sender.rows[k])
    {
      if k < |s.senders[m].rows| {
        assert StoredBy(t, s.senders[m], s.senders[m].rows[k]);
      }
    }
  }

  lemma SenderStep(s: System, step: Step, m: nat)
    requires TableInv(s) && FlusherInv(s) && SenderInv(s) && Enabled(s, step)
    requires m in Apply(s, step).senders
    ensures SenderOk(m, Apply(s, step).senders[m], Apply(s, step))
  {
    var t := Apply(s, step);
    StepLater(s, step);
    if m in s.senders {
      SenderStays(m, s.senders[m], s, t);
    }
    if step.Attempt? && step.ok {
      assert t.wire[|s.wire|] in t.wire;
    } else if step.Store? && m == step.sender {
      SenderStores(s, m);
    }
  }

  lemma StepKeepsSenders(s: System, step: Step)
    requires TableInv(s) && FlusherInv(s) && SenderInv(s) && Enabled(s, step)
    ensures SenderInv(Apply(s, step))
  {
    forall m | m in Apply(s, step).senders
      ensures SenderOk(m, Apply(s, step).senders[m], Apply(s, step))
    {
      SenderStep(s, step, m);
    }
  }

  lemma PrunedAreOld(s: System, m: nat, id: nat)
    requires TableInv(s) && PruneInv(s) && m in s.senders && id in ApplyStore(s, m).pruned
    ensures id <= s.lastId
  {
    if id !in s.pruned {
      var k :| 0 <= k < |s.table| - |Prune(s.table)| && s.table[k].id == id;
      assert s.history[|s.history| - |s.table| + k] == s.table[k];
    }
  }

  /** What a store prunes has 99,000 newer rows from then on. */
  lemma PrunedHaveNewer(s: System, m: nat, i: nat)
    requires TableInv(s) && PruneInv(s) && m in s.senders
    requires i < |s.history| && s.history[i].id in ApplyStore(s, m).pruned
    ensures i + BUFFER_MAX_MESSAGES - PRUNE_MARGIN < |s.history|
  {
    PruneKeepsNewest(s.table);
    if s.history[i].id !in s.pruned {
      var k :| 0 <= k < |s.table| - |Prune(s.table)| && s.table[k].id == s.history[i].id;
      assert s.history[|s.history| - |s.table| + k] == s.table[k];
      assert i == |s.history| - |s.table| + k;
    }
  }

  lemma StoreKeepsPrunes(s: System, m: nat)
    requires TableInv(s) && PruneInv(s) && m in s.senders
    ensures PruneInv(ApplyStore(s, m))
  {
    var t := ApplyStore(s, m);
    PruneKeepsNewest(s.table);
    forall id | id in t.pruned
      ensures id <= s.lastId
    {
      PrunedAreOld(s, m, id);
    }
    assert t.history[|s.history|].id == s.lastId + 1;
    forall i | 0 <= i < |s.history| && s.history[i].id in t.pruned
      ensures i + BUFFER_MAX_MESSAGES - PRUNE_MARGIN + 1 < |t.history|
    {
      PrunedHaveNewer(s, m, i);
    }
  }

  lemma StepKeepsPrunes(s: System, step: Step)
    requires TableInv(s) && FlusherInv(s) && PruneInv(s) && Enabled(s, step)
    ensures PruneInv(Apply(s, step))
  {
    if step.Delete? {
      DeleteTakesOldest(s, step.flusher);
    } else if step.Store? {
      StoreKeepsPrunes(s, step.sender);
    }
  }

  lemma StepKeepsInv(s: System, step: Step)
    requires Inv(s) && Enabled(s, step)
    ensures Inv(Apply(s, step))
  {
    StepKeepsTable(s, step);
    StepKeepsFlushers(s, step);
    StepKeepsOrder(s, step);
    StepKeepsLoss(s, step);
    StepKeepsSenders(s, step);
    StepKeepsPrunes(s, step);
  }

  lemma InitialInv(s: System)
    requires Initial(s)
    ensures Inv(s)
  {
    assert forall i :: 0 <= i < |s.history| ==> s.history[i] in s.table;
  }

  lemma {:induction false} RunKeepsInv(states: seq<System>, steps: seq<Step>, n: nat)
    requires Run(states, steps) && n < |states|
    ensures Inv(states[n])
  {
    if n == 0 {
      InitialInv(states[0]);
    } else {
      RunKeepsInv(states, steps, n - 1);
      StepKeepsInv(states[n - 1], steps[n - 1]);
    }
  }

  // ---------------------------------------------------------------- theorems over all runs

  /** Everything at or below the mark has left the table; everything above it is still there. */
  function Mark(s: System): int {
    if |s.table| < |s.history| then s.history[|s.history| - |s.table| - 1].id else -1
  }

  /** In every reachable state the table is exactly the rows ever stored above some mark. */
  lemma WaterMark(states: seq<System>, steps: seq<Step>, n: nat)
    requires Run(states, steps) && n < |states|
    ensures var s := states[n];
      && Ascending(s.table) && Ascending(s.history)
      && forall r :: r in s.table <==> r in s.history && Mark(s) < r.id
  {
    TableAt(states, steps, n);
    var s := states[n];
    SuffixesOfSuffix(s.table, s.history);
    forall r
      ensures r in s.table <==> r in s.history && Mark(s) < r.id
    {
      SuffixMembers(s.table, s.history, |s.history| - |s.table|, r);
    }
  }

  lemma TableAt(states: seq<System>, steps: seq<Step>, n: nat)
    requires Run(states, steps) && n < |states|
    ensures TableInv(states[n]) && FlusherInv(states[n])
  {
    RunKeepsInv(states, steps, n);
  }

  /** A stale batch can do no harm: its delete removes the oldest row of the table, or nothing. */
  lemma DeleteRemovesOldestOrNothing(states: seq<System>, steps: seq<Step>, n: nat)
    requires Run(states, steps) && n < |steps| && steps[n].Delete?
    ensures var before, after := states[n].table, states[n + 1].table;
      var id := states[n].flushers[steps[n].flusher].batch[0].id;
      || (after == before && forall r :: r in before ==> id < r.id)
      || (before != [] && before[0].id == id && after == before[1..])
  {
    TableAt(states, steps, n);
    var s, f := states[n], steps[n].flusher;
    assert FlusherOk(f, s.flushers[f], s);
    DeleteTakesOldest(s, f);
    OldestOrNothing(s.table, s.flushers[f].batch[0].id);
  }

  lemma OldestOrNothing(table: seq<Row>, id: nat)
    requires Ascending(table) && (forall r :: r in table ==> id <= r.id)
    requires DeleteById(table, id) == if table != [] && table[0].id == id then table[1..] else table
    ensures var after := DeleteById(table, id);
      || (after == table && forall r :: r in table ==> id < r.id)
      || (table != [] && table[0].id == id && after == table[1..])
  {
    if table != [] {
      assert table[0] in table;
      assert forall i :: 0 <= i < |table| ==> table[0].id <= table[i].id;
    }
  }

  /** A store leaves at most 100,000 rows, and what it removes is the oldest part of the table. */
  lemma StoreKeepsCap(states: seq<System>, steps: seq<Step>, n: nat)
    requires Run(states, steps) && n < |steps| && steps[n].Store?
    ensures var before, after := states[n].table, states[n + 1].table;
      && 0 < |after| <= BUFFER_MAX_MESSAGES
      && SuffixOf(after[..|after| - 1], before)
      && (|before| < BUFFER_MAX_MESSAGES <==> |after| == |before| + 1)
  {
    PruneKeepsNewest(states[n].table);
    assert states[n + 1].table[..|states[n + 1].table| - 1] == Prune(states[n].table);
  }

  /** Behind a pruned row come 99,000 rows and the one whose store pruned it; prunes are 1,000 stores apart. */
  lemma Retention(states: seq<System>, steps: seq<Step>, n: nat)
    requires Run(states, steps) && n < |states|
    ensures var s := states[n];
      && (forall i :: 0 <= i < |s.history| && s.history[i].id in s.pruned ==> |s.history[i + 1..]| > 99_000)
      && (forall i, j :: 0 <= i < j < |s.prunes| ==> s.prunes[i] + 1_000 <= s.prunes[j])
  {
    RunKeepsInv(states, steps, n);
    PrunesApart(states[n].prunes);
  }

  lemma {:induction false} PrunesApart(prunes: seq<nat>)
    requires forall i :: 0 < i < |prunes| ==> prunes[i - 1] + PRUNE_MARGIN <= prunes[i]
    ensures forall i, j :: 0 <= i < j < |prunes| ==> prunes[i] + PRUNE_MARGIN <= prunes[j]
  {
    if |prunes| <= 1 {
    } else {
      var last := |prunes| - 1;
      PrunesApart(prunes[..last]);
      forall i | 0 <= i < last
        ensures prunes[i] + PRUNE_MARGIN <= prunes[last]
      {
        assert prunes[..last][i] == prunes[i] && prunes[..last][last - 1] == prunes[last - 1];
      }
    }
  }

  /** Each flusher publishes strictly increasing ids, whatever the other threads do. */
  lemma FlusherOrder(states: seq<System>, steps: seq<Step>, n: nat, i: nat, j: nat)
    requires Run(states, steps) && n < |states|
    requires i < j < |states[n].wire| && SameFlusher(states[n].wire[i], states[n].wire[j])
    ensures states[n].wire[i].row.id < states[n].wire[j].row.id
  {
    RunKeepsInv(states, steps, n);
  }

  /** How many times flushers published a row. */
  function Replays(wire: seq<Post>, row: Row): nat {
    if wire == [] then 0
    else
      var last := wire[|wire| - 1];
      Replays(wire[..|wire| - 1], row) + (if last.Replayed? && last.row == row then 1 else 0)
  }

  lemma {:induction false} ReplaysBounded(wire: seq<Post>, row: Row, flushers: set<nat>)
    requires PerFlusherAscending(wire)
    requires forall f :: Replayed(f, row) in wire ==> f in flushers
    ensures Replays(wire, row) <= |flushers|
  {
    if wire == [] {
    } else {
      var front, last := wire[..|wire| - 1], wire[|wire| - 1];
      assert wire == front + [last];
      if last.Replayed? && last.row == row {
        assert last in wire;
        forall f | Replayed(f, row) in front
          ensures f in flushers - {last.flusher}
        {
          assert Replayed(f, row) in wire;
          var i :| 0 <= i < |front| && front[i] == Replayed(f, row);
          assert wire[i] == front[i];
          assert !SameFlusher(wire[i], wire[|wire| - 1]);
        }
        ReplaysBounded(front, row, flushers - {last.flusher});
      } else {
        ReplaysBounded(front, row, flushers);
      }
    }
  }

  /** With f flushers started, no row is published more than f times, and none by a flusher twice. */
  lemma AtMostOncePerFlusher(states: seq<System>, steps: seq<Step>, n: nat, row: Row)
    requires Run(states, steps) && n < |states|
    ensures Replays(states[n].wire, row) <= |states[n].flushers|
  {
    RunKeepsInv(states, steps, n);
    var s := states[n];
    forall f | Replayed(f, row) in s.wire
      ensures f in s.flushers.Keys
    {
      var i :| 0 <= i < |s.wire| && s.wire[i] == Replayed(f, row);
    }
    ReplaysBounded(s.wire, row, s.flushers.Keys);
    assert |s.flushers.Keys| == |s.flushers|;
  }

  /** Nothing is lost between the publishing lambdas, the table and the client library. */
  lemma AtLeastOnce(states: seq<System>, steps: seq<Step>, n: nat, m: nat)
    requires Run(states, steps) && n < |states| && m in states[n].senders
    ensures var s, sender := states[n], states[n].senders[m];
      && (sender.phase == Posted ==> sender.rows == [] && Direct(m, sender.topic, sender.payload) in s.wire)
      && (sender.phase == Stored ==> |sender.rows| == sender.copies)
      && (forall j, k :: 0 <= j < k < |sender.rows| ==> sender.rows[j] != sender.rows[k])
      && (forall k :: 0 <= k < |sender.rows| ==> Accounted(s, Row(sender.rows[k], sender.topic, sender.payload)))
  {
    RunKeepsInv(states, steps, n);
    var s, sender := states[n], states[n].senders[m];
    assert SenderOk(m, sender, s);
    forall k | 0 <= k < |sender.rows|
      ensures Accounted(s, Row(sender.rows[k], sender.topic, sender.payload))
    {
      assert StoredBy(s, sender, sender.rows[k]);
    }
  }

  // ---------------------------------------------------------------- what a thread has done

  ghost predicate Tried(steps: seq<Step>, n: nat, m: nat, ok: bool)
    requires n <= |steps|
  {
    exists i :: 0 <= i < n && steps[i] == Attempt(m, ok)
  }

  /** The phase of a sender says how its one attempt went. */
  ghost predicate Story(sender: Sender, posted: bool, refused: bool) {
    && (sender.phase == Posted <==> posted)
    && (sender.phase == Storing || sender.phase == Stored <==> refused)
  }

  lemma TriedBefore(steps: seq<Step>, n: nat, m: nat, ok: bool)
    requires n < |steps|
    ensures Tried(steps, n + 1, m, ok) <==> Tried(steps, n, m, ok) || steps[n] == Attempt(m, ok)
  {
  }

  lemma StoryGoesOn(s: System, step: Step, m: nat, posted: bool, refused: bool)
    requires Enabled(s, step) && if m in s.senders then Story(s.senders[m], posted, refused) else !posted && !refused
    ensures var t := Apply(s, step);
      var posted', refused' := posted || step == Attempt(m, true), refused || step == Attempt(m, false);
      if m in t.senders then Story(t.senders[m], posted', refused') else !posted' && !refused'
  {
  }

  lemma {:induction false} StoryOf(states: seq<System>, steps: seq<Step>, n: nat, m: nat)
    requires Run(states, steps) && n < |states|
    ensures var posted, refused := Tried(steps, n, m, true), Tried(steps, n, m, false);
      if m in states[n].senders then Story(states[n].senders[m], posted, refused) else !posted && !refused
  {
    if n == 0 {
    } else {
      StoryOf(states, steps, n - 1, m);
      TriedBefore(steps, n - 1, m, true);
      TriedBefore(steps, n - 1, m, false);
      StoryGoesOn(states[n - 1], steps[n - 1], m, Tried(steps, n - 1, m, true), Tried(steps, n - 1, m, false));
    }
  }

  /** A call of a publishing lambda ends posted exactly if the link took the message, else it goes to the buffer. */
  lemma SenderStory(states: seq<System>, steps: seq<Step>, n: nat, m: nat)
    requires Run(states, steps) && n < |states| && m in states[n].senders
    ensures states[n].senders[m].phase == Posted <==> Tried(steps, n, m, true)
    ensures states[n].senders[m].phase in {Storing, Stored} <==> Tried(steps, n, m, false)
  {
    StoryOf(states, steps, n, m);
  }

  /** A call goes on with the message it was made with. */
  lemma {:induction false} SenderKeepsMessage(states: seq<System>, steps: seq<Step>, i: nat, n: nat)
    requires Run(states, steps) && i < n < |states| && steps[i].Accept?
    ensures steps[i].sender in states[n].senders
    ensures var sender := states[n].senders[steps[i].sender];
      sender.topic == steps[i].topic && sender.payload == steps[i].payload && sender.copies == steps[i].copies
  {
    if n == i + 1 {
    } else {
      SenderKeepsMessage(states, steps, i, n - 1);
      assert states[n] == Apply(states[n - 1], steps[n - 1]);
    }
  }

  ghost predicate DirectInv(s: System) {
    && (forall i :: 0 <= i < |s.wire| && s.wire[i].Direct? ==>
          s.wire[i].sender in s.senders && s.senders[s.wire[i].sender].phase == Posted)
    && (forall i, j :: 0 <= i < j < |s.wire| && s.wire[i].Direct? && s.wire[j].Direct? ==>
          s.wire[i].sender != s.wire[j].sender)
  }

  lemma StepKeepsDirect(s: System, step: Step)
    requires DirectInv(s) && Enabled(s, step)
    ensures DirectInv(Apply(s, step))
  {
  }

  /** A message is posted directly once at most, and then never stored. */
  lemma {:induction false} DirectOnce(states: seq<System>, steps: seq<Step>, n: nat)
    requires Run(states, steps) && n < |states|
    ensures DirectInv(states[n])
  {
    if n == 0 {
    } else {
      DirectOnce(states, steps, n - 1);
      StepKeepsDirect(states[n - 1], steps[n - 1]);
    }
  }

  /** From post `first` on, none is of flusher `f`. */
  ghost predicate SilentFrom(wire: seq<Post>, first: nat, f: nat) {
    first <= |wire| && forall k :: first <= k < |wire| ==> !(wire[k].Replayed? && wire[k].flusher == f)
  }

  /** A flusher that has finished publishes no more. */
  lemma {:induction false} FinishedForGood(states: seq<System>, steps: seq<Step>, i: nat, n: nat, f: nat)
    requires Run(states, steps) && i <= n < |states| && f in states[i].flushers && states[i].flushers[f] == Finished
    ensures f in states[n].flushers && states[n].flushers[f] == Finished
    ensures SilentFrom(states[n].wire, |states[i].wire|, f)
  {
    if i == n {
    } else {
      FinishedForGood(states, steps, i, n - 1, f);
      assert states[n] == Apply(states[n - 1], steps[n - 1]);
    }
  }

  /** A refusal ends a flusher: it publishes nothing behind the row that was refused. */
  lemma RefusalEndsFlusher(states: seq<System>, steps: seq<Step>, i: nat, n: nat, f: nat)
    requires Run(states, steps) && i < n < |states| && steps[i] == Publish(f, false)
    ensures f in states[n].flushers && states[n].flushers[f] == Finished
    ensures SilentFrom(states[n].wire, |states[i].wire|, f)
  {
    FinishedForGood(states, steps, i + 1, n, f);
  }

  /** Only a refusal or an empty table ends a flusher. */
  ghost predicate EndedAt(states: seq<System>, steps: seq<Step>, i: nat, f: nat)
    requires i < |steps| < |states|
  {
    steps[i] == Publish(f, false) || (steps[i] == Fetch(f) && |states[i].table| == 0)
  }

  lemma {:induction false} FinishedFor(states: seq<System>, steps: seq<Step>, n: nat, f: nat) returns (i: nat)
    requires Run(states, steps) && n < |states| && f in states[n].flushers && states[n].flushers[f] == Finished
    ensures i < n && EndedAt(states, steps, i, f)
  {
    if f in states[n - 1].flushers && states[n - 1].flushers[f] == Finished {
      i := FinishedFor(states, steps, n - 1, f);
    } else {
      i := n - 1;
    }
  }

  /** A fetch reads the 50 oldest rows, or all there are. */
  lemma FetchReads(s: System, f: nat)
    requires Enabled(s, Fetch(f)) && |s.table| > 0
    ensures var t := Apply(s, Fetch(f));
      && t.flushers[f].Publishing? && t.table == s.table && t.wire == s.wire
      && |t.flushers[f].batch| == (if |s.table| <= 50 then |s.table| else 50)
      && forall i :: 0 <= i < |t.flushers[f].batch| ==> t.flushers[f].batch[i] == s.table[i]
  {
  }
}
