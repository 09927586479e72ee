/**
 The offline message buffer: a table of undelivered messages in id order, a cap enforced
 by pruning the oldest rows, and a flush that replays the table in batches.

 The functions at the top give the effect of each SQL statement. They specify the class
 here and the interleaved model in module BufferProtocol alike.
 */
module Buffer {
  const BUFFER_MAX_MESSAGES := 100_000
  const BUFFER_FLUSH_BATCH_SIZE := 50
  const PRUNE_MARGIN := 1_000

  datatype Row = Row(id: nat, topic: string, payload: string)

  ghost predicate Ascending(rows: seq<Row>) {
    forall i, j :: 0 <= i < j < |rows| ==> rows[i].id < rows[j].id
  }

  /** AUTOINCREMENT: no row, present or deleted, has an id above the counter. */
  ghost predicate BoundedBy(rows: seq<Row>, lastId: nat) {
    forall i :: 0 <= i < |rows| ==> rows[i].id <= lastId
  }

  /** `rows` is what is left of `history` after removing some of its oldest rows. */
  ghost predicate SuffixOf(rows: seq<Row>, history: seq<Row>) {
    |rows| <= |history| && forall i :: 0 <= i < |rows| ==> rows[i] == history[|history| - |rows| + i]
  }

  /** SELECT ... ORDER BY id ASC LIMIT n */
  function FirstRows(rows: seq<Row>, n: nat): (batch: seq<Row>) {
    if |rows| <= n then rows else rows[..n]
  }

  /** DELETE ... WHERE id IN (SELECT id ... ORDER BY id ASC LIMIT n) */
  function DeleteOldest(rows: seq<Row>, n: nat): seq<Row> {
    if |rows| <= n then [] else rows[n..]
  }

  /** DELETE ... WHERE id = ? */
  function DeleteById(rows: seq<Row>, id: nat): seq<Row> {
    if rows == [] then []
    else if rows[0].id == id then DeleteById(rows[1..], id)
    else [rows[0]] + DeleteById(rows[1..], id)
  }

  /** The prune that runs at the head of every store. */
  function Prune(rows: seq<Row>): seq<Row> {
    if |rows| >= BUFFER_MAX_MESSAGES
    then DeleteOldest(rows, |rows| - BUFFER_MAX_MESSAGES + PRUNE_MARGIN)
    else rows
  }

  /** What pruning keeps: a suffix, of 99,000 rows exactly when it removes anything. */
  lemma PruneKeepsNewest(rows: seq<Row>)
    ensures SuffixOf(Prune(rows), rows)
    ensures |Prune(rows)| < BUFFER_MAX_MESSAGES
    ensures Prune(rows) != rows <==> |rows| >= BUFFER_MAX_MESSAGES
    ensures Prune(rows) != rows ==> |Prune(rows)| == BUFFER_MAX_MESSAGES - PRUNE_MARGIN
  {
  }

  /** Deleting an id at or below the oldest row removes that row or nothing. */
  lemma {:induction false} DeleteAtFront(rows: seq<Row>, id: nat)
    requires Ascending(rows)
    requires rows != [] ==> id <= rows[0].id
    ensures DeleteById(rows, id) == if rows != [] && rows[0].id == id then rows[1..] else rows
  {
    if rows == [] {
    } else {
      assert forall i :: 0 <= i < |rows[1..]| ==> id < rows[1..][i].id;
      DeleteAtFront(rows[1..], id);
    }
  }

  /** Whatever the id, the rows that stay are the others. */
  lemma {:induction false} DeleteByIdKeepsOthers(rows: seq<Row>, id: nat, r: Row)
    ensures r in DeleteById(rows, id) <==> r in rows && r.id != id
  {
    if rows == [] {
    } else {
      DeleteByIdKeepsOthers(rows[1..], id, r);
      assert r in rows <==> r == rows[0] || r in rows[1..];
    }
  }

  /** They stay in their order. */
  lemma {:induction false} DeleteByIdKeepsOrder(rows: seq<Row>, id: nat)
    requires Ascending(rows)
    ensures Ascending(DeleteById(rows, id))
  {
    if rows == [] {
    } else {
      var rest, kept := rows[1..], DeleteById(rows[1..], id);
      DeleteByIdKeepsOrder(rest, id);
      forall i | 0 <= i < |kept|
        ensures rows[0].id < kept[i].id
      {
        DeleteByIdKeepsOthers(rest, id, kept[i]);
      }
    }
  }

  /** Dropping oldest rows keeps a table a suffix of its history. */
  lemma SuffixesOfSuffix(rows: seq<Row>, history: seq<Row>)
    requires SuffixOf(rows, history)
    ensures forall n :: 0 <= n <= |rows| ==> SuffixOf(rows[n..], history)
    ensures Ascending(history) ==> Ascending(rows)
  {
  }

  lemma SuffixTransitive(kept: seq<Row>, rows: seq<Row>, history: seq<Row>)
    requires SuffixOf(kept, rows) && SuffixOf(rows, history)
    ensures SuffixOf(kept, history)
  {
  }

  lemma SuffixWithoutOldest(rows: seq<Row>, history: seq<Row>)
    requires SuffixOf(rows, history) && rows != []
    ensures SuffixOf(rows[1..], history)
  {
  }

  /** A suffix of an ascending history holds exactly the rows above the last one that is missing. */
  lemma SuffixMembers(rows: seq<Row>, history: seq<Row>, gone: nat, r: Row)
    requires SuffixOf(rows, history) && Ascending(history) && gone == |history| - |rows|
    ensures r in rows <==> r in history && (gone == 0 || history[gone - 1].id < r.id)
  {
    forall i | 0 <= i < |rows| && rows[i] == r
      ensures r in history && (gone == 0 || history[gone - 1].id < r.id)
    {
      assert history[gone + i] == r;
    }
    forall i | 0 <= i < |history| && history[i] == r && (gone == 0 || history[gone - 1].id < r.id)
      ensures r in rows
    {
      assert gone <= i;
      assert rows[i - gone] == r;
    }
  }

  /** A row with a fresh id goes at the end of both the table and its history. */
  lemma AppendKeepsSuffix(rows: seq<Row>, history: seq<Row>, lastId: nat, row: Row)
    requires SuffixOf(rows, history) && Ascending(history) && BoundedBy(history, lastId)
    requires lastId < row.id
    ensures SuffixOf(rows + [row], history + [row])
    ensures Ascending(history + [row]) && BoundedBy(history + [row], row.id)
  {
  }

  type Body = (string, string)

  function Bodies(rows: seq<Row>): (bodies: seq<Body>)
    ensures |bodies| == |rows|
    ensures forall i :: 0 <= i < |rows| ==> bodies[i] == (rows[i].topic, rows[i].payload)
  {
    seq(|rows|, i requires 0 <= i < |rows| => (rows[i].topic, rows[i].payload))
  }

  /** Of `total` publish attempts starting at attempt `first`, exactly the first `n` succeed before a refusal. */
  ghost predicate AcceptedPrefix(answer: nat -> bool, first: nat, n: nat, total: nat) {
    && n <= total
    && (forall k: nat :: first <= k < first + n ==> answer(k))
    && (n < total ==> !answer(first + n))
  }

  /** A table after the rows are stored, one by one. */
  function Stored(table: seq<Row>, rows: seq<Row>): seq<Row> {
    if rows == [] then table else Prune(Stored(table, rows[..|rows| - 1])) + [rows[|rows| - 1]]
  }

  lemma StoredTwo(table: seq<Row>, row: Row, next: Row)
    ensures Stored(table, [row, next]) == Prune(Prune(table) + [row]) + [next]
  {
    assert [row, next][..1] == [row] && [row][..0] == [];
    assert Stored(table, [row]) == Prune(table) + [row];
  }

  /**
   What storing the rows `added`, one by one, makes of a table: up to 100,000 rows it is the old table
   and those rows; beyond that an oldest part has left, and more than 99,000 rows stay.
   */
  ghost predicate Grew(before: seq<Row>, added: seq<Row>, after: seq<Row>) {
    && SuffixOf(after, before + added)
    && (|before| + |added| <= 100_000 || added == [] ==> |after| == |before| + |added|)
    && (|after| < |before| + |added| ==> |after| > 99_000)
    && (added != [] ==> |after| <= 100_000)
  }

  /** As long as the cap is not reached, nothing is missing. */
  lemma GrewWithinCap(before: seq<Row>, added: seq<Row>, after: seq<Row>)
    requires Grew(before, added, after) && |before| + |added| <= 100_000
    ensures after == before + added
  {
  }

  lemma SuffixAndRows(kept: seq<Row>, all: seq<Row>, rows: seq<Row>)
    requires SuffixOf(kept, all)
    ensures SuffixOf(kept + rows, all + rows)
  {
  }

  lemma StoreGrows(table: seq<Row>, row: Row)
    ensures Grew(table, [row], Prune(table) + [row])
  {
    PruneKeepsNewest(table);
    SuffixAndRows(Prune(table), table, [row]);
  }

  lemma NothingGrew(table: seq<Row>)
    ensures Grew(table, [], table)
  {
    assert table + [] == table;
  }

  lemma GrewThen(before: seq<Row>, added: seq<Row>, table: seq<Row>, more: seq<Row>, after: seq<Row>)
    requires Grew(before, added, table) && Grew(table, more, after)
    ensures Grew(before, added + more, after)
  {
    SuffixAndRows(table, before + added, more);
    SuffixTransitive(after, table + more, before + added + more);
    assert before + added + more == before + (added + more);
  }

  lemma {:induction false} StoredGrew(table: seq<Row>, rows: seq<Row>)
    ensures Grew(table, rows, Stored(table, rows))
  {
    if rows == [] {
      NothingGrew(table);
    } else {
      var front, last := rows[..|rows| - 1], rows[|rows| - 1];
      StoredGrew(table, front);
      StoreGrows(Stored(table, front), last);
      GrewThen(table, front, Stored(table, front), [last], Stored(table, rows));
      assert rows == front + [last];
    }
  }

  lemma BodiesConcat(x: seq<Row>, y: seq<Row>)
    ensures Bodies(x + y) == Bodies(x) + Bodies(y)
  {
  }

  ghost predicate AllAccepted(answer: nat -> bool, first: nat, end: nat) {
    forall k: nat :: first <= k < end ==> answer(k)
  }

  /** The first `n` rows of `table` have left it for the wire. */
  ghost predicate Gone(rows: seq<Row>, wire: seq<Body>, table: seq<Row>, posted: seq<Body>, n: nat) {
    n <= |table| && rows == table[n..] && wire == posted + Bodies(table)[..n]
  }

  lemma OneMoreGone(rows: seq<Row>, wire: seq<Body>, table: seq<Row>, posted: seq<Body>, n: nat)
    requires Gone(rows, wire, table, posted, n) && n < |table|
    ensures rows != [] && rows[0] == table[n]
    ensures Gone(rows[1..], wire + [(table[n].topic, table[n].payload)], table, posted, n + 1)
  {
    var bodies := Bodies(table);
    assert bodies[..n + 1] == bodies[..n] + [bodies[n]];
  }

  /** The batch was read from the table behind its first `n` rows. */
  ghost predicate ReadAt(batch: seq<Row>, table: seq<Row>, n: nat) {
    n + |batch| <= |table| && forall i :: 0 <= i < |batch| ==> batch[i] == table[n + i]
  }

  lemma BatchOfTable(rows: seq<Row>, table: seq<Row>, n: nat, limit: nat)
    requires n <= |table| && rows == table[n..]
    ensures var batch := FirstRows(rows, limit);
      ReadAt(batch, table, n) && (batch == [] && limit > 0 ==> n == |table|)
  {
  }

  lemma AscendingSuffix(table: seq<Row>, n: nat)
    requires Ascending(table) && n <= |table|
    ensures Ascending(table[n..])
  {
  }

  /** The broker link seen by the flush callback: an arbitrary answer per attempt. */
  class Link {
    const answer: nat -> bool
    var attempts: nat
    var posted: seq<Body>

    constructor (answer: nat -> bool)
      ensures this.answer == answer && attempts == 0 && posted == []
    {
      this.answer, attempts, posted := answer, 0, [];
    }

    method Publish(topic: string, payload: string) returns (ok: bool)
      modifies this
      ensures ok == answer(old(attempts))
      ensures attempts == old(attempts) + 1
      ensures posted == if ok then old(posted) + [(topic, payload)] else old(posted)
    {
      ok := answer(attempts);
      attempts := attempts + 1;
      if ok {
        posted := posted + [(topic, payload)];
      }
    }
  }

  class LocalBuffer {
    var messages: seq<Row>
    var lastId: nat
    ghost var history: seq<Row>  // every row ever stored, oldest first

    ghost predicate Valid()
      reads this
    {
      Ascending(history) && BoundedBy(history, lastId) && SuffixOf(messages, history)
    }

    /** Opens a database that may hold rows of an earlier process. */
    constructor (rows: seq<Row>, sequence: nat)
      requires Ascending(rows) && BoundedBy(rows, sequence)
      ensures Valid() && messages == rows && history == rows && lastId == sequence
    {
      messages, lastId, history := rows, sequence, rows;
    }

    method PruneIfNeeded()
      requires Valid()
      modifies this`messages
      ensures Valid() && SuffixOf(messages, old(messages))
      ensures |messages| == if |old(messages)| >= 100_000 then 99_000 else |old(messages)|
      ensures messages == Prune(old(messages))
    {
      var count := |messages|;
      if count >= BUFFER_MAX_MESSAGES {
        var toDelete := count - BUFFER_MAX_MESSAGES + PRUNE_MARGIN;
        messages := DeleteOldest(messages, toDelete);
      }
    }

    method Store(topic: string, payload: string)
      requires Valid()
      modifies this
      ensures Valid()
      ensures lastId == old(lastId) + 1
      ensures history == old(history) + [Row(lastId, topic, payload)]
      ensures messages == Prune(old(messages)) + [Row(lastId, topic, payload)]
      ensures |messages| <= BUFFER_MAX_MESSAGES
    {
      PruneIfNeeded();
      lastId := lastId + 1;
      var row := Row(lastId, topic, payload);
      AppendKeepsSuffix(messages, history, lastId - 1, row);
      messages := messages + [row];
      history := history + [row];
    }

    /** One turn of the flush: publish a row outside the lock and, on success, delete it by id. */
    method PublishThenDelete(link: Link, row: Row) returns (ok: bool)
      requires Ascending(messages) && messages != [] && row == messages[0]
      modifies this`messages, link
      ensures ok == link.answer(old(link.attempts))
      ensures link.attempts == old(link.attempts) + 1
      ensures ok ==> messages == old(messages)[1..]
      ensures ok ==> link.posted == old(link.posted) + [(row.topic, row.payload)]
      ensures !ok ==> messages == old(messages) && link.posted == old(link.posted)
    {
      ok := link.Publish(row.topic, row.payload);
      if ok {
        DeleteAtFront(messages, row.id);
        messages := DeleteById(messages, row.id);
      }
    }

    /** A flush that has published and deleted `flushed` rows of `table`. */
    ghost predicate Flushed(link: Link, table: seq<Row>, first: nat, posted: seq<Body>, flushed: nat)
      reads this, link
    {
      Gone(messages, link.posted, table, posted, flushed)
      && AllAccepted(link.answer, first, first + flushed) && link.attempts == first + flushed
    }

    /** One turn of the flush on the row it has come to. */
    method FlushRow(link: Link, row: Row,
      ghost table: seq<Row>, ghost first: nat, ghost posted: seq<Body>, ghost flushed: nat)
      returns (ok: bool)
      requires Ascending(table) && Flushed(link, table, first, posted, flushed)
      requires flushed < |table| && row == table[flushed]
      modifies this`messages, link
      ensures ok == link.answer(first + flushed)
      ensures ok ==> Flushed(link, table, first, posted, flushed + 1)
      ensures !ok ==> Refused(link, table, first, posted, flushed)
    {
      OneMoreGone(messages, link.posted, table, posted, flushed);
      AscendingSuffix(table, flushed);
      ok := PublishThenDelete(link, row);
    }

    /** A flush that ended at the refusal of row `flushed`. */
    ghost predicate Refused(link: Link, table: seq<Row>, first: nat, posted: seq<Body>, flushed: nat)
      reads this, link
    {
      Gone(messages, link.posted, table, posted, flushed) && AllAccepted(link.answer, first, first + flushed)
      && !link.answer(first + flushed) && link.attempts == first + flushed + 1
    }

    /** One batch, up to the first row that is refused. */
    method FlushBatch(link: Link, batch: seq<Row>,
      ghost table: seq<Row>, ghost first: nat, ghost posted: seq<Body>, ghost start: nat)
      returns (count: nat, ghost flushed: nat)
      requires Ascending(table) && Flushed(link, table, first, posted, start) && ReadAt(batch, table, start)
      modifies this`messages, link
      ensures count <= |batch| && flushed == start + count
      ensures if count == |batch| then Flushed(link, table, first, posted, flushed)
        else flushed < |table| && Refused(link, table, first, posted, flushed)
    {
      count, flushed := 0, start;
      while count < |batch|
        invariant count <= |batch| && flushed == start + count
        invariant Flushed(link, table, first, posted, flushed)
      {
        assert batch[count] == table[flushed];
        var ok := FlushRow(link, batch[count], table, first, posted, flushed);
        if !ok {
          return;
        }
        count, flushed := count + 1, flushed + 1;
      }
    }

    /** The batches of a flush, until the table is empty or a row is refused. */
    method FlushBatches(link: Link, limit: nat, ghost table: seq<Row>, ghost first: nat, ghost posted: seq<Body>)
      returns (flushed: nat)
      requires limit > 0 && Ascending(table) && Flushed(link, table, first, posted, 0)
      modifies this`messages, link
      ensures if flushed == |table| then Flushed(link, table, first, posted, flushed)
        else flushed < |table| && Refused(link, table, first, posted, flushed)
    {
      flushed := 0;
      while true
        invariant Flushed(link, table, first, posted, flushed)
        decreases |messages|
      {
        BatchOfTable(messages, table, flushed, limit);
        var batch := FirstRows(messages, limit);
        if batch == [] {
          return;
        }
        var count, _ := FlushBatch(link, batch, table, first, posted, flushed);
        flushed := flushed + count;
        if count < |batch| {
          return;
        }
      }
    }

    /**
     Run alone, a flush publishes the longest prefix of the table that the link accepts,
     deletes exactly that prefix and returns its length. Nothing in the contract depends
     on the batch size, so batching is invisible.
     */
    method FlushInBatches(link: Link, limit: nat) returns (flushed: nat)
      requires Valid() && limit > 0
      modifies this`messages, link
      ensures Valid()
      ensures AcceptedPrefix(link.answer, old(link.attempts), flushed, |old(messages)|)
      ensures messages == old(messages)[flushed..]
      ensures link.posted == old(link.posted) + Bodies(old(messages))[..flushed]
      ensures link.attempts == old(link.attempts) + if flushed < |old(messages)| then flushed + 1 else flushed
    {
      SuffixesOfSuffix(messages, history);
      assert Gone(messages, link.posted, messages, link.posted, 0);
      flushed := FlushBatches(link, limit, messages, link.attempts, link.posted);
    }

    method Flush(link: Link) returns (flushed: nat)
      requires Valid()
      modifies this`messages, link
      ensures Valid()
      ensures AcceptedPrefix(link.answer, old(link.attempts), flushed, |old(messages)|)
      ensures messages == old(messages)[flushed..]
      ensures link.posted == old(link.posted) + Bodies(old(messages))[..flushed]
    {
      flushed := FlushInBatches(link, BUFFER_FLUSH_BATCH_SIZE);
    }
  }
}
