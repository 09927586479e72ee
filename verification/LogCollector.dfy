/** Log batches on their way to the broker or, twice, into the offline buffer. */
module LogCollector {
  import opened Options
  import opened Positions
  import opened Buffer
  import opened PluginLoader

  const LOG_BATCH_MAX := 100

  // ---------------------------------------------------------------- what is collected

  /** No configured level means every level. */
  predicate LevelAllowed(levels: seq<string>, level: string) {
    levels == [] || level in levels
  }

  function Filter(levels: seq<string>, entries: seq<LogEntry>): seq<LogEntry> {
    if entries == [] then []
    else
      var last := entries[|entries| - 1];
      Filter(levels, entries[..|entries| - 1]) + (if LevelAllowed(levels, last.level) then [last] else [])
  }

  function Concat<T>(groups: seq<seq<T>>): seq<T> {
    if groups == [] then [] else groups[0] + Concat(groups[1..])
  }

  lemma Associative<T>(x: seq<T>, y: seq<T>, z: seq<T>)
    ensures x + (y + z) == x + y + z
  {
  }

  lemma {:induction false} ConcatOneMore<T>(groups: seq<seq<T>>, group: seq<T>)
    ensures Concat(groups + [group]) == Concat(groups) + group
  {
    if groups == [] {
      assert Concat([group]) == group + Concat([]);
    } else {
      ConcatOneMore(groups[1..], group);
      assert (groups + [group])[1..] == groups[1..] + [group];
      Associative(groups[0], Concat(groups[1..]), group);
    }
  }

  lemma FilterOneMore(levels: seq<string>, entries: seq<LogEntry>, e: LogEntry)
    ensures Filter(levels, entries + [e]) ==
      Filter(levels, entries) + (if LevelAllowed(levels, e.level) then [e] else [])
  {
    assert (entries + [e])[..|entries|] == entries;
  }

  /** Ascending, and exactly those of the first `n` entries whose level is configured, or all if none is. */
  ghost predicate AllowedAre(at: seq<nat>, levels: seq<string>, entries: seq<LogEntry>, n: nat)
    requires n <= |entries|
  {
    Rising(at, 0, n) && forall i :: 0 <= i < n ==> (i in at <==> |levels| == 0 || entries[i].level in levels)
  }

  lemma AllowedPush(at: seq<nat>, levels: seq<string>, entries: seq<LogEntry>, n: nat)
    requires n < |entries| && AllowedAre(at, levels, entries, n)
    ensures AllowedAre(Then(at, LevelAllowed(levels, entries[n].level), n), levels, entries, n + 1)
  {
    RisingThen(at, LevelAllowed(levels, entries[n].level), n);
  }

  ghost predicate EntriesAt(kept: seq<LogEntry>, entries: seq<LogEntry>, at: seq<nat>) {
    |kept| == |at| && forall k :: 0 <= k < |at| ==> at[k] < |entries| && kept[k] == entries[at[k]]
  }

  /** The filter keeps exactly the entries of a configured level, or all when none is configured, in their order. */
  lemma {:induction false} FilterPositions(levels: seq<string>, entries: seq<LogEntry>, n: nat) returns (at: seq<nat>)
    requires n <= |entries|
    ensures AllowedAre(at, levels, entries, n) && EntriesAt(Filter(levels, entries[..n]), entries, at)
  {
    if n == 0 {
      at := [];
    } else {
      var before := FilterPositions(levels, entries, n - 1);
      at := Then(before, LevelAllowed(levels, entries[n - 1].level), n - 1);
      AllowedPush(before, levels, entries, n - 1);
      FilterOneMore(levels, entries[..n - 1], entries[n - 1]);
      assert entries[..n] == entries[..n - 1] + [entries[n - 1]];
    }
  }

  /** Filtering part by part is filtering the whole. */
  lemma {:induction false} FilterConcat(levels: seq<string>, a: seq<LogEntry>, b: seq<LogEntry>)
    ensures Filter(levels, a + b) == Filter(levels, a) + Filter(levels, b)
  {
    if b == [] {
      assert a + b == a;
    } else {
      var front, last := b[..|b| - 1], b[|b| - 1];
      FilterConcat(levels, a, front);
      FilterOneMore(levels, a + front, last);
      assert b == front + [last];
      Associative(a, front, [last]);
      Associative(Filter(levels, a), Filter(levels, front), if LevelAllowed(levels, last.level) then [last] else []);
    }
  }

  /** The callback of one plugin: appends the allowed entries. */
  method Accept(levels: seq<string>, group: seq<LogEntry>, before: seq<LogEntry>) returns (result: seq<LogEntry>)
    ensures result == before + Filter(levels, group)
  {
    result := before;
    for i := 0 to |group|
      invariant result == before + Filter(levels, group[..i])
    {
      FilterOneMore(levels, group[..i], group[i]);
      assert group[..i + 1] == group[..i] + [group[i]];
      if LevelAllowed(levels, group[i].level) {
        result := result + [group[i]];
      }
    }
    assert group[..|group|] == group;
  }

  /** `accepted` are the allowed entries of the first `n` groups. */
  ghost predicate AcceptedUpTo(levels: seq<string>, groups: seq<seq<LogEntry>>, n: nat, accepted: seq<LogEntry>)
    requires n <= |groups|
  {
    accepted == Filter(levels, Concat(groups[..n]))
  }

  lemma AcceptStep(levels: seq<string>, groups: seq<seq<LogEntry>>, n: nat, accepted: seq<LogEntry>)
    requires n < |groups| && AcceptedUpTo(levels, groups, n, accepted)
    ensures AcceptedUpTo(levels, groups, n + 1, accepted + Filter(levels, groups[n]))
  {
    ConcatOneMore(groups[..n], groups[n]);
    FilterConcat(levels, Concat(groups[..n]), groups[n]);
    assert groups[..n + 1] == groups[..n] + [groups[n]];
  }

  method AcceptAll(levels: seq<string>, groups: seq<seq<LogEntry>>) returns (result: seq<LogEntry>)
    ensures result == Filter(levels, Concat(groups))
  {
    result := [];
    for i := 0 to |groups|
      invariant AcceptedUpTo(levels, groups, i, result)
    {
      AcceptStep(levels, groups, i, result);
      result := Accept(levels, groups[i], result);
    }
    assert groups[..|groups|] == groups;
  }

  method CollectFromPlugins(loader: PluginLoader, levels: seq<string>, outcome: nat -> Outcome)
    returns (result: seq<LogEntry>)
    requires loader.Valid() && AllOpen(loader.plugins)
    modifies loader
    ensures loader.Valid() && AllOpen(loader.plugins)
    ensures loader.plugins == Kept(old(loader.plugins), outcome, 0)
    ensures result == Filter(levels, Concat(Delivered(old(loader.plugins), outcome, |old(loader.plugins)|)))
  {
    var groups := loader.CollectAll(outcome);
    result := AcceptAll(levels, groups);
  }

  // ---------------------------------------------------------------- batches

  function BatchEnd(start: nat, size: nat): nat {
    if start + LOG_BATCH_MAX < size then start + LOG_BATCH_MAX else size
  }

  /** batch.dump(): text that is not UTF-8 makes it throw. */
  type Dump = seq<LogEntry> -> Option<string>

  function Batches(entries: seq<LogEntry>, start: nat): seq<seq<LogEntry>>
    decreases |entries| - start
  {
    if start >= |entries| then []
    else [entries[start..BatchEnd(start, |entries|)]] + Batches(entries, start + LOG_BATCH_MAX)
  }

  ghost predicate Sized(batches: seq<seq<LogEntry>>) {
    forall i :: 0 <= i < |batches| ==>
      1 <= |batches[i]| <= 100 && (i < |batches| - 1 ==> |batches[i]| == 100)
  }

  /** The batches cut the entries: joined they are the entries; each holds 1 to 100, all but the last 100. */
  lemma {:induction false} BatchesCut(entries: seq<LogEntry>, start: nat)
    requires start <= |entries|
    ensures Concat(Batches(entries, start)) == entries[start..]
    ensures Sized(Batches(entries, start))
    decreases |entries| - start
  {
    if start >= |entries| {
    } else {
      var end := BatchEnd(start, |entries|);
      assert entries[start..] == entries[start..end] + entries[end..];
      if end < |entries| {
        BatchesCut(entries, end);
      }
    }
  }

  // ---------------------------------------------------------------- publishing

  /** The publish lambda of the agent: what the link refuses goes into the buffer. */
  method Publish(link: Link, buffer: LocalBuffer, topic: string, payload: string) returns (ok: bool)
    requires buffer.Valid()
    modifies link, buffer
    ensures buffer.Valid() && ok == link.answer(old(link.attempts)) && link.attempts == old(link.attempts) + 1
    ensures link.posted == if ok then old(link.posted) + [(topic, payload)] else old(link.posted)
    ensures buffer.lastId == old(buffer.lastId) + if ok then 0 else 1
    ensures var rows := if ok then [] else [Row(old(buffer.lastId) + 1, topic, payload)];
      && buffer.history == old(buffer.history) + rows
      && buffer.messages == if ok then old(buffer.messages) else Prune(old(buffer.messages)) + rows
  {
    ok := link.Publish(topic, payload);
    if !ok {
      buffer.Store(topic, payload);
    }
  }

  /** Bodies of the batches the link accepts, from attempt `first` on. */
  function Accepted(answer: nat -> bool, first: nat, bodies: seq<Body>): seq<Body> {
    if bodies == [] then []
    else
      var n := |bodies| - 1;
      var before := Accepted(answer, first, bodies[..n]);
      if answer(first + n) then before + [bodies[n]] else before
  }

  /** Bodies of the batches it refuses, each twice in a row. */
  function RefusedTwice(answer: nat -> bool, first: nat, bodies: seq<Body>): seq<Body> {
    if bodies == [] then []
    else
      var n := |bodies| - 1;
      var before := RefusedTwice(answer, first, bodies[..n]);
      if answer(first + n) then before else before + [bodies[n], bodies[n]]
  }

  lemma OneMoreBody(answer: nat -> bool, first: nat, bodies: seq<Body>, body: Body)
    ensures Accepted(answer, first, bodies + [body]) ==
      Accepted(answer, first, bodies) + (if answer(first + |bodies|) then [body] else [])
    ensures RefusedTwice(answer, first, bodies + [body]) ==
      RefusedTwice(answer, first, bodies) + (if answer(first + |bodies|) then [] else [body, body])
  {
    assert (bodies + [body])[..|bodies|] == bodies;
  }

  /** An accepted batch leaves the buffer alone; of a refused one it gets two rows, behind row `lastId`. */
  ghost predicate Batched(ok: bool, lastId: nat, topic: string, payload: string,
    table0: seq<Row>, history0: seq<Row>, table: seq<Row>, history: seq<Row>)
  {
    var row, next := Row(lastId + 1, topic, payload), Row(lastId + 2, topic, payload);
    if ok then table == table0 && history == history0
    else table == Prune(Prune(table0) + [row]) + [next] && history == history0 + [row] + [next]
  }

  /** A batch: publish it; if that fails, the lambda has buffered it, and it is buffered again. */
  method PublishBatch(link: Link, buffer: LocalBuffer, topic: string, payload: string)
    requires buffer.Valid()
    modifies link, buffer
    ensures buffer.Valid() && link.attempts == old(link.attempts) + 1
    ensures link.posted == old(link.posted) + if link.answer(old(link.attempts)) then [(topic, payload)] else []
    ensures Batched(link.answer(old(link.attempts)), old(buffer.lastId), topic, payload,
      old(buffer.messages), old(buffer.history), buffer.messages, buffer.history)
  {
    var ok := Publish(link, buffer, topic, payload);
    if !ok {
      buffer.Store(topic, payload);
    }
  }

  lemma BatchGrows(ok: bool, lastId: nat, topic: string, payload: string,
    table0: seq<Row>, history0: seq<Row>, table: seq<Row>, history: seq<Row>)
    requires Batched(ok, lastId, topic, payload, table0, history0, table, history)
    ensures Grew(table0, Refused(ok, lastId, topic, payload), table)
    ensures history == history0 + Refused(ok, lastId, topic, payload)
  {
    StoredTwo(table0, Row(lastId + 1, topic, payload), Row(lastId + 2, topic, payload));
    StoredGrew(table0, Refused(ok, lastId, topic, payload));
  }

  /** The second store never prunes the row of the first: both rows are in the table, last. */
  lemma BothAreLast(table: seq<Row>, row: Row, next: Row)
    ensures var after := Prune(Prune(table) + [row]) + [next]; |after| >= 2 && after[|after| - 2..] == [row, next]
  {
    var all, kept := Prune(table) + [row], Prune(Prune(table) + [row]);
    PruneKeepsNewest(all);
    assert kept[|kept| - 1] == all[|all| - 1];
  }

  /** The rows that a batch leaves in the buffer, behind row `lastId`: none, or two. */
  ghost function Refused(ok: bool, lastId: nat, topic: string, payload: string): seq<Row> {
    if ok then [] else TwoRows(lastId, topic, payload)
  }

  function TwoRows(lastId: nat, topic: string, payload: string): (rows: seq<Row>)
    ensures |rows| == 2 && forall i :: 0 <= i < 2 ==> rows[i] == Row(lastId + i + 1, topic, payload)
  {
    [Row(lastId + 1, topic, payload), Row(lastId + 2, topic, payload)]
  }

  /** The rows stored since. */
  function Added(before: seq<Row>, after: seq<Row>): seq<Row>
    requires |before| <= |after|
  {
    after[|before|..]
  }

  /** A batch, with the rows it leaves in the buffer. */
  method SendBatch(link: Link, buffer: LocalBuffer, topic: string, payload: string) returns (ghost rows: seq<Row>)
    requires buffer.Valid()
    modifies link, buffer
    ensures buffer.Valid() && link.attempts == old(link.attempts) + 1
    ensures link.posted == old(link.posted) + if link.answer(old(link.attempts)) then [(topic, payload)] else []
    ensures rows == Refused(link.answer(old(link.attempts)), old(buffer.lastId), topic, payload)
    ensures buffer.history == old(buffer.history) + rows && Grew(old(buffer.messages), rows, buffer.messages)
  {
    rows := Refused(link.answer(link.attempts), buffer.lastId, topic, payload);
    PublishBatch(link, buffer, topic, payload);
    BatchGrows(link.answer(old(link.attempts)), old(buffer.lastId), topic, payload,
      old(buffer.messages), old(buffer.history), buffer.messages, buffer.history);
  }

  /** The bodies of the batches from `start` on, up to the first whose dump throws. */
  function Payloads(topic: string, dump: Dump, entries: seq<LogEntry>, start: nat): seq<Body>
    decreases |entries| - start
  {
    if start >= |entries| then []
    else
      var payload := dump(entries[start..BatchEnd(start, |entries|)]);
      if payload.None? then [] else [(topic, payload.value)] + Payloads(topic, dump, entries, start + LOG_BATCH_MAX)
  }

  /** The bodies are the dumps of the batches, in order, and end only where a dump throws. */
  ghost predicate Dumped(topic: string, dump: Dump, batches: seq<seq<LogEntry>>, bodies: seq<Body>) {
    && |bodies| <= |batches|
    && (forall i :: 0 <= i < |bodies| ==> dump(batches[i]) == Some(bodies[i].1) && bodies[i].0 == topic)
    && (|bodies| < |batches| ==> dump(batches[|bodies|]) == None)
  }

  lemma {:induction false} PayloadsAreBatches(topic: string, dump: Dump, entries: seq<LogEntry>, start: nat)
    ensures Dumped(topic, dump, Batches(entries, start), Payloads(topic, dump, entries, start))
    decreases |entries| - start
  {
    if start >= |entries| {
    } else {
      PayloadsAreBatches(topic, dump, entries, start + LOG_BATCH_MAX);
    }
  }

  /** From attempt `first` on, `bodies` went out: what was accepted is on the wire, what was refused in the new rows. */
  ghost predicate Sent(answer: nat -> bool, first: nat, bodies: seq<Body>,
    posted0: seq<Body>, posted: seq<Body>, added: seq<Row>)
  {
    && posted == posted0 + Accepted(answer, first, bodies)
    && Bodies(added) == RefusedTwice(answer, first, bodies)
  }

  lemma SentOneMore(answer: nat -> bool, first: nat, bodies: seq<Body>, topic: string, payload: string,
    posted0: seq<Body>, posted: seq<Body>, added: seq<Row>, lastId: nat)
    requires Sent(answer, first, bodies, posted0, posted, added)
    ensures var ok := answer(first + |bodies|);
      Sent(answer, first, bodies + [(topic, payload)], posted0, posted + (if ok then [(topic, payload)] else []),
        added + Refused(ok, lastId, topic, payload))
  {
    OneMoreBody(answer, first, bodies, (topic, payload));
    BodiesConcat(added, Refused(answer(first + |bodies|), lastId, topic, payload));
  }

  /** Every batch is published once or buffered as two rows, in order, until a dump throws. */
  method PublishEntries(link: Link, buffer: LocalBuffer, topic: string, dump: Dump, entries: seq<LogEntry>)
    returns (threw: bool)
    requires buffer.Valid()
    modifies link, buffer
    ensures buffer.Valid() && link.attempts == old(link.attempts) + |Payloads(topic, dump, entries, 0)|
    ensures threw <==> |Payloads(topic, dump, entries, 0)| < |Batches(entries, 0)|
    ensures old(buffer.history) <= buffer.history
    ensures Sent(link.answer, old(link.attempts), Payloads(topic, dump, entries, 0),
      old(link.posted), link.posted, Added(old(buffer.history), buffer.history))
    ensures Grew(old(buffer.messages), Added(old(buffer.history), buffer.history), buffer.messages)
  {
    ghost var first, sent: seq<Body>, posted0 := link.attempts, [], link.posted;
    ghost var table0, history0, added: seq<Row> := buffer.messages, buffer.history, [];
    NothingGrew(table0);
    var start := 0;
    threw := false;
    while start < |entries|
      invariant !threw && buffer.Valid() && link.attempts == first + |sent|
      invariant sent + Payloads(topic, dump, entries, start) == Payloads(topic, dump, entries, 0)
      invariant |sent| + |Batches(entries, start)| == |Batches(entries, 0)|
      invariant Sent(link.answer, first, sent, posted0, link.posted, added)
      invariant buffer.history == history0 + added && Grew(table0, added, buffer.messages)
      decreases |entries| - start
    {
      var end := BatchEnd(start, |entries|);
      var payload := dump(entries[start..end]);
      if payload.None? {
        threw := true;
        break;
      }
      ghost var body := (topic, payload.value);
      Associative(sent, [body], Payloads(topic, dump, entries, start + LOG_BATCH_MAX));
      SentOneMore(link.answer, first, sent, topic, payload.value, posted0, link.posted, added, buffer.lastId);
      ghost var table := buffer.messages;
      ghost var rows := SendBatch(link, buffer, topic, payload.value);
      GrewThen(table0, added, table, rows, buffer.messages);
      Associative(history0, added, rows);
      sent, added := sent + [body], added + rows;
      start := start + LOG_BATCH_MAX;
    }
    assert Payloads(topic, dump, entries, start) == [];
    assert sent == Payloads(topic, dump, entries, 0);
    assert Added(history0, buffer.history) == added;
  }

  /** One cycle: entries from the plugins, or, without a loader, the native ones; nothing is sent for none. */
  method CollectAndPublish(loader: PluginLoader?, native: seq<LogEntry>, levels: seq<string>, outcome: nat -> Outcome,
    link: Link, buffer: LocalBuffer, topic: string, dump: Dump) returns (entries: seq<LogEntry>, threw: bool)
    requires loader != null ==> loader.Valid() && AllOpen(loader.plugins)
    requires buffer.Valid()
    modifies loader, link, buffer
    ensures entries == if loader == null then native
      else Filter(levels, Concat(Delivered(old(loader.plugins), outcome, |old(loader.plugins)|)))
    ensures buffer.Valid() && link.attempts == old(link.attempts) + |Payloads(topic, dump, entries, 0)|
    ensures threw <==> |Payloads(topic, dump, entries, 0)| < |Batches(entries, 0)|
    ensures old(buffer.history) <= buffer.history
    ensures Sent(link.answer, old(link.attempts), Payloads(topic, dump, entries, 0),
      old(link.posted), link.posted, Added(old(buffer.history), buffer.history))
    ensures Grew(old(buffer.messages), Added(old(buffer.history), buffer.history), buffer.messages)
  {
    entries := native;
    if loader != null {
      entries := CollectFromPlugins(loader, levels, outcome);
    }
    threw := PublishEntries(link, buffer, topic, dump, entries);
  }

  function Copies(bodies: seq<Body>, body: Body): nat {
    if bodies == [] then 0
    else Copies(bodies[..|bodies| - 1], body) + (if bodies[|bodies| - 1] == body then 1 else 0)
  }

  lemma CopiesOneMore(bodies: seq<Body>, last: Body, body: Body)
    ensures Copies(bodies + [last], body) == Copies(bodies, body) + (if last == body then 1 else 0)
    ensures Copies(bodies + [last, last], body) == Copies(bodies, body) + (if last == body then 2 else 0)
  {
    assert (bodies + [last])[..|bodies|] == bodies;
    assert (bodies + [last, last])[..|bodies| + 1] == bodies + [last];
  }

  /** Nothing is lost: counting a published batch as two copies, each batch has two, published or buffered. */
  lemma {:induction false} TwoCopies(answer: nat -> bool, first: nat, bodies: seq<Body>, body: Body)
    ensures 2 * Copies(Accepted(answer, first, bodies), body) + Copies(RefusedTwice(answer, first, bodies), body)
      == 2 * Copies(bodies, body)
  {
    if bodies == [] {
    } else {
      var front, last := bodies[..|bodies| - 1], bodies[|bodies| - 1];
      TwoCopies(answer, first, front, body);
      CopiesOneMore(Accepted(answer, first, front), last, body);
      CopiesOneMore(RefusedTwice(answer, first, front), last, body);
    }
  }
}
