/** Loading, collecting from and unloading plugins, with every use of a library handle on record. */
module PluginLoader {
  import opened Options
  import opened Positions

  /** What a plugin file turns out to be. */
  datatype Library =
    | Unloadable
    | Incomplete // opens, but lacks a required symbol
    | Throwing // its name or version function throws
    | Usable(name: string)

  datatype LogEntry = LogEntry(level: string, source: string, message: string)

  /**
   What collect() and the callback on its entries come to: no text, text that is not JSON (the parse
   error is caught), entries, or an exception from any of these steps.
   */
  datatype Outcome = Nothing | Malformed | Entries(entries: seq<LogEntry>) | Throws

  datatype Plugin = Plugin(name: string, handle: Option<nat>)

  datatype Event = Opened(handle: nat) | Collected(handle: nat) | Closed(handle: nat)

  // ---------------------------------------------------------------- the life of a handle

  function After(open: set<nat>, e: Event): set<nat> {
    if e.Opened? then open + {e.handle} else if e.Closed? then open - {e.handle} else open
  }

  /** The handles open after the first `n` events. */
  function OpenAt(events: seq<Event>, n: nat): set<nat>
    requires n <= |events|
  {
    if n == 0 then {} else After(OpenAt(events, n - 1), events[n - 1])
  }

  function OpenHandles(events: seq<Event>): set<nat> {
    OpenAt(events, |events|)
  }

  /** Each handle is opened once, closed at most once, and collected from and closed only while open. */
  ghost predicate Legal(events: seq<Event>) {
    forall i :: 0 <= i < |events| ==> LegalAt(events, i)
  }

  ghost predicate LegalAt(events: seq<Event>, i: nat)
    requires i < |events|
  {
    if events[i].Opened? then FirstAt(events, i) else events[i].handle in OpenAt(events, i)
  }

  ghost predicate FirstAt(events: seq<Event>, i: nat)
    requires i < |events|
  {
    forall k :: 0 <= k < i ==> events[k] != events[i]
  }

  lemma {:induction false} OpenInLonger(events: seq<Event>, e: Event, n: nat)
    requires n <= |events|
    ensures OpenAt(events + [e], n) == OpenAt(events, n)
  {
    if n == 0 {
    } else {
      OpenInLonger(events, e, n - 1);
    }
  }

  lemma OneMore(events: seq<Event>, e: Event)
    requires Legal(events) && if e.Opened? then e !in events else e.handle in OpenHandles(events)
    ensures Legal(events + [e])
    ensures OpenHandles(events + [e]) == After(OpenHandles(events), e)
  {
    var longer := events + [e];
    forall i | 0 <= i < |longer|
      ensures LegalAt(longer, i)
    {
      OpenInLonger(events, e, i);
      if i < |events| {
        assert LegalAt(events, i);
      }
    }
    OpenInLonger(events, e, |events|);
  }

  /** A closed handle is not open again. */
  lemma {:induction false} StaysClosed(events: seq<Event>, k: nat, i: nat, n: nat)
    requires Legal(events) && k < i < n <= |events|
    requires events[k].Opened? && events[i] == Closed(events[k].handle)
    ensures events[k].handle !in OpenAt(events, n)
  {
    if i == n - 1 {
    } else {
      assert LegalAt(events, n - 1);
      StaysClosed(events, k, i, n - 1);
    }
  }

  lemma {:induction false} OpenedBefore(events: seq<Event>, h: nat, n: nat) returns (k: nat)
    requires n <= |events| && h in OpenAt(events, n)
    ensures k < n && events[k] == Opened(h)
  {
    if events[n - 1] == Opened(h) {
      k := n - 1;
    } else {
      k := OpenedBefore(events, h, n - 1);
    }
  }

  /** In a legal record a closed handle is never used again: not opened, collected from, or closed. */
  lemma NoUseAfterClose(events: seq<Event>, i: nat, j: nat)
    requires Legal(events) && i < j < |events| && events[i].Closed?
    ensures events[j].handle != events[i].handle
  {
    assert LegalAt(events, i) && LegalAt(events, j);
    var k := OpenedBefore(events, events[i].handle, i);
    StaysClosed(events, k, i, j);
  }

  lemma NotClosedBefore(events: seq<Event>, j: nat)
    requires Legal(events) && j < |events|
    ensures forall i :: 0 <= i < j ==> events[i] != Closed(events[j].handle)
  {
    forall i | 0 <= i < j && events[i].Closed?
      ensures events[j].handle != events[i].handle
    {
      NoUseAfterClose(events, i, j);
    }
  }

  lemma OpenedOnce(events: seq<Event>, k: nat)
    requires Legal(events) && k < |events| && events[k].Opened?
    ensures forall i :: 0 <= i < |events| && events[i] == events[k] ==> i == k
  {
    assert LegalAt(events, k);
    forall i | k < i < |events| && events[i].Opened?
      ensures events[i] != events[k]
    {
      assert LegalAt(events, i);
    }
  }

  /** What is used has been opened, once, and not been closed since. */
  lemma UsedWhileOpen(events: seq<Event>, j: nat) returns (k: nat)
    requires Legal(events) && j < |events| && !events[j].Opened?
    ensures k < j && events[k] == Opened(events[j].handle)
    ensures forall i :: 0 <= i < j ==> events[i] != Closed(events[j].handle)
    ensures forall i :: 0 <= i < |events| && events[i] == Opened(events[j].handle) ==> i == k
  {
    assert LegalAt(events, j);
    k := OpenedBefore(events, events[j].handle, j);
    NotClosedBefore(events, j);
    OpenedOnce(events, k);
  }

  lemma {:induction false} ClosedSince(events: seq<Event>, k: nat, n: nat)
    requires k < n <= |events| && events[k].Opened? && events[k].handle !in OpenAt(events, n)
    ensures Closed(events[k].handle) in events
  {
    if events[n - 1] == Closed(events[k].handle) {
    } else {
      ClosedSince(events, k, n - 1);
    }
  }

  /** What was opened and is not open any more was closed. */
  lemma ClosedIfGone(events: seq<Event>, h: nat)
    requires Opened(h) in events && h !in OpenHandles(events)
    ensures Closed(h) in events
  {
    var k :| 0 <= k < |events| && events[k] == Opened(h);
    ClosedSince(events, k, |events|);
  }

  // ---------------------------------------------------------------- what a round of collecting leaves

  /** Handles answer by themselves: `outcome(h)` is what collecting from `h` comes to. */
  predicate Fails(p: Plugin, outcome: nat -> Outcome) {
    p.handle.Some? && outcome(p.handle.value).Throws?
  }

  /** The plugins from `i` on that did not fail, in order. */
  function Kept(plugins: seq<Plugin>, outcome: nat -> Outcome, i: nat): seq<Plugin>
    decreases |plugins| - i
  {
    if i >= |plugins| then []
    else if Fails(plugins[i], outcome) then Kept(plugins, outcome, i + 1)
    else [plugins[i]] + Kept(plugins, outcome, i + 1)
  }

  /** The closings of the failed plugins from `i` on, last one first. */
  function Closings(plugins: seq<Plugin>, outcome: nat -> Outcome, i: nat): seq<Event>
    decreases |plugins| - i
  {
    if i >= |plugins| then []
    else if Fails(plugins[i], outcome) then Closings(plugins, outcome, i + 1) + [Closed(plugins[i].handle.value)]
    else Closings(plugins, outcome, i + 1)
  }

  /** A list whose entries from `i` on are replaced by those of them that did not fail. */
  function KeptFrom(plugins: seq<Plugin>, outcome: nat -> Outcome, i: nat): seq<Plugin>
    requires i <= |plugins|
  {
    plugins[..i] + Kept(plugins, outcome, i)
  }

  lemma KeptStep(plugins: seq<Plugin>, outcome: nat -> Outcome, i: nat)
    requires i < |plugins| && !Fails(plugins[i], outcome)
    ensures KeptFrom(plugins, outcome, i) == KeptFrom(plugins, outcome, i + 1)
  {
    assert plugins[..i + 1] == plugins[..i] + [plugins[i]];
  }

  lemma {:induction false} NoFailures(plugins: seq<Plugin>, outcome: nat -> Outcome, first: nat, end: nat)
    requires first <= end <= |plugins| && forall k :: first <= k < end ==> !Fails(plugins[k], outcome)
    ensures KeptFrom(plugins, outcome, first) == KeptFrom(plugins, outcome, end)
    ensures Closings(plugins, outcome, first) == Closings(plugins, outcome, end)
    decreases end - first
  {
    if first == end {
    } else {
      KeptStep(plugins, outcome, first);
      NoFailures(plugins, outcome, first + 1, end);
    }
  }

  /** What is kept is what did not throw. */
  lemma {:induction false} KeptAre(plugins: seq<Plugin>, outcome: nat -> Outcome, i: nat, p: Plugin)
    requires i <= |plugins|
    ensures p in Kept(plugins, outcome, i) <==>
      p in plugins[i..] && !(p.handle.Some? && outcome(p.handle.value).Throws?)
    decreases |plugins| - i
  {
    if i == |plugins| {
    } else {
      KeptAre(plugins, outcome, i + 1, p);
      assert plugins[i..] == [plugins[i]] + plugins[i + 1..];
    }
  }

  predicate Threw(plugins: seq<Plugin>, outcome: nat -> Outcome, i: nat)
    requires AllOpen(plugins) && i < |plugins|
  {
    outcome(plugins[i].handle.value).Throws?
  }

  /** The plugins kept stand at exactly the positions where collecting did not throw, in the order of the list. */
  lemma {:induction false} KeptPositions(plugins: seq<Plugin>, outcome: nat -> Outcome, i: nat) returns (at: seq<nat>)
    requires AllOpen(plugins) && i <= |plugins|
    ensures Rising(at, i, |plugins|)
    ensures forall j :: i <= j < |plugins| ==> (j in at <==> !Threw(plugins, outcome, j))
    ensures |Kept(plugins, outcome, i)| == |at|
    ensures forall k :: 0 <= k < |at| ==> Kept(plugins, outcome, i)[k] == plugins[at[k]]
    decreases |plugins| - i
  {
    if i == |plugins| {
      at := [];
    } else {
      var rest := KeptPositions(plugins, outcome, i + 1);
      at := Behind(!Threw(plugins, outcome, i), i, rest);
      RisingBehind(!Threw(plugins, outcome, i), i, rest, |plugins|);
    }
  }

  /** The handles closed are those of exactly the plugins that threw, each once, from the end of the list on. */
  lemma {:induction false} ClosingsPositions(plugins: seq<Plugin>, outcome: nat -> Outcome, i: nat)
    returns (at: seq<nat>)
    requires AllOpen(plugins) && i <= |plugins|
    ensures Rising(at, i, |plugins|)
    ensures forall j :: i <= j < |plugins| ==> (j in at <==> Threw(plugins, outcome, j))
    ensures |Closings(plugins, outcome, i)| == |at|
    ensures forall k :: 0 <= k < |at| ==>
      Closings(plugins, outcome, i)[|at| - 1 - k] == Closed(plugins[at[k]].handle.value)
    decreases |plugins| - i
  {
    if i == |plugins| {
      at := [];
    } else {
      var rest := ClosingsPositions(plugins, outcome, i + 1);
      at := Behind(Threw(plugins, outcome, i), i, rest);
      RisingBehind(Threw(plugins, outcome, i), i, rest, |plugins|);
    }
  }

  /** Malformed JSON neither unloads a plugin nor delivers anything. */
  lemma MalformedIsKept(plugins: seq<Plugin>, outcome: nat -> Outcome, delivered: seq<seq<LogEntry>>, p: Plugin)
    requires p in plugins && p.handle.Some? && outcome(p.handle.value) == Malformed
    ensures p in Kept(plugins, outcome, 0)
    ensures Delivering(delivered, outcome(p.handle.value)) == delivered
  {
    assert plugins[0..] == plugins;
    KeptAre(plugins, outcome, 0, p);
  }

  /** Ascending, and exactly the failed ones among the first `n`. */
  ghost predicate FailedAre(failed: seq<nat>, plugins: seq<Plugin>, outcome: nat -> Outcome, n: nat)
    requires n <= |plugins|
  {
    && (forall j, k :: 0 <= j < k < |failed| ==> failed[j] < failed[k])
    && (forall j :: 0 <= j < |failed| ==> failed[j] < n && Fails(plugins[failed[j]], outcome))
    && (forall i :: 0 <= i < n && Fails(plugins[i], outcome) ==> i in failed)
  }

  lemma PollStep(plugins: seq<Plugin>, outcome: nat -> Outcome, i: nat, failed: seq<nat>, delivered: seq<seq<LogEntry>>)
    requires AllOpen(plugins) && i < |plugins|
    requires FailedAre(failed, plugins, outcome, i) && delivered == Delivered(plugins, outcome, i)
    ensures var o := outcome(plugins[i].handle.value);
      && FailedAre(if o.Throws? then failed + [i] else failed, plugins, outcome, i + 1)
      && Delivering(delivered, o) == Delivered(plugins, outcome, i + 1)
  {
    FailedPush(failed, plugins, outcome, i);
  }

  lemma FailedPush(failed: seq<nat>, plugins: seq<Plugin>, outcome: nat -> Outcome, n: nat)
    requires n < |plugins| && FailedAre(failed, plugins, outcome, n)
    ensures FailedAre(if Fails(plugins[n], outcome) then failed + [n] else failed, plugins, outcome, n + 1)
  {
    var longer := if Fails(plugins[n], outcome) then failed + [n] else failed;
    forall i | 0 <= i < n + 1 && Fails(plugins[i], outcome)
      ensures i in longer
    {
      if i == n {
        assert longer[|failed|] == n;
      }
    }
  }

  lemma FailedPop(failed: seq<nat>, plugins: seq<Plugin>, outcome: nat -> Outcome, k: nat, n: nat)
    requires k < |failed| && n <= |plugins| && FailedAre(failed[..k + 1], plugins, outcome, n)
    ensures failed[k] < n && Fails(plugins[failed[k]], outcome)
    ensures FailedAre(failed[..k], plugins, outcome, failed[k])
    ensures forall j :: failed[k] < j < n ==> !Fails(plugins[j], outcome)
  {
    var longer := failed[..k + 1];
    assert longer[k] == failed[k];
    assert longer == failed[..k] + [failed[k]];
  }

  /** Removing the failed entry in front of the replaced ones. */
  lemma KeptRemoval(plugins: seq<Plugin>, outcome: nat -> Outcome, i: nat)
    requires i < |plugins| && Fails(plugins[i], outcome)
    ensures var now := KeptFrom(plugins, outcome, i + 1);
      i < |now| && now[i] == plugins[i] && Erased(now, i) == KeptFrom(plugins, outcome, i)
  {
  }

  function Delivering(delivered: seq<seq<LogEntry>>, o: Outcome): seq<seq<LogEntry>> {
    if o.Entries? && o.entries != [] then delivered + [o.entries] else delivered
  }

  /** What the callback has received after `n` plugins: the entries of each that has some. */
  function Delivered(plugins: seq<Plugin>, outcome: nat -> Outcome, n: nat): seq<seq<LogEntry>>
    requires AllOpen(plugins) && n <= |plugins|
  {
    if n == 0 then []
    else
      Delivering(Delivered(plugins, outcome, n - 1), outcome(plugins[n - 1].handle.value))
  }

  predicate ReturnedSome(plugins: seq<Plugin>, outcome: nat -> Outcome, i: nat)
    requires AllOpen(plugins) && i < |plugins|
  {
    var o := outcome(plugins[i].handle.value);
    o.Entries? && |o.entries| > 0
  }

  /** `groups` are what the plugins at the positions `at` have returned. */
  ghost predicate GroupsAt(plugins: seq<Plugin>, outcome: nat -> Outcome, at: seq<nat>, groups: seq<seq<LogEntry>>)
    requires AllOpen(plugins)
  {
    |groups| == |at| &&
    forall k :: 0 <= k < |at| ==> at[k] < |plugins| && outcome(plugins[at[k]].handle.value) == Entries(groups[k])
  }

  lemma OneMoreGroup(plugins: seq<Plugin>, outcome: nat -> Outcome, at: seq<nat>, groups: seq<seq<LogEntry>>, i: nat)
    requires AllOpen(plugins) && i < |plugins| && GroupsAt(plugins, outcome, at, groups)
    ensures GroupsAt(plugins, outcome, Then(at, ReturnedSome(plugins, outcome, i), i),
      Delivering(groups, outcome(plugins[i].handle.value)))
  {
  }

  /** Ascending, and exactly those of the first `n` plugins that have returned at least one entry. */
  ghost predicate ReturnedAre(at: seq<nat>, plugins: seq<Plugin>, outcome: nat -> Outcome, n: nat)
    requires AllOpen(plugins) && n <= |plugins|
  {
    Rising(at, 0, n) && forall i :: 0 <= i < n ==> (i in at <==> ReturnedSome(plugins, outcome, i))
  }

  lemma ReturnedPush(at: seq<nat>, plugins: seq<Plugin>, outcome: nat -> Outcome, n: nat)
    requires AllOpen(plugins) && n < |plugins| && ReturnedAre(at, plugins, outcome, n)
    ensures ReturnedAre(Then(at, ReturnedSome(plugins, outcome, n), n), plugins, outcome, n + 1)
  {
    RisingThen(at, ReturnedSome(plugins, outcome, n), n);
  }

  /**
   One group for every plugin that has returned at least one entry, holding exactly its entries, in the
   order of the plugins; nothing else.
   */
  lemma {:induction false} DeliveredPositions(plugins: seq<Plugin>, outcome: nat -> Outcome, n: nat)
    returns (at: seq<nat>)
    requires AllOpen(plugins) && n <= |plugins|
    ensures ReturnedAre(at, plugins, outcome, n) && GroupsAt(plugins, outcome, at, Delivered(plugins, outcome, n))
  {
    if n == 0 {
      at := [];
    } else {
      var before := DeliveredPositions(plugins, outcome, n - 1);
      at := Then(before, ReturnedSome(plugins, outcome, n - 1), n - 1);
      ReturnedPush(before, plugins, outcome, n - 1);
      OneMoreGroup(plugins, outcome, before, Delivered(plugins, outcome, n - 1), n - 1);
    }
  }

  /** Each of the first `n` plugins asked once, in order. */
  function Polls(plugins: seq<Plugin>, n: nat): seq<Event>
    requires AllOpen(plugins) && n <= |plugins|
  {
    if n == 0 then [] else Polls(plugins, n - 1) + [Collected(plugins[n - 1].handle.value)]
  }

  /** So it says: the i-th use is a collect() of the i-th plugin. */
  lemma {:induction false} PollsAre(plugins: seq<Plugin>, n: nat)
    requires AllOpen(plugins) && n <= |plugins|
    ensures |Polls(plugins, n)| == n
    ensures forall i :: 0 <= i < n ==> Polls(plugins, n)[i] == Collected(plugins[i].handle.value)
  {
    if n == 0 {
    } else {
      PollsAre(plugins, n - 1);
    }
  }

  predicate AllOpen(plugins: seq<Plugin>) {
    forall i :: 0 <= i < |plugins| ==> plugins[i].handle.Some?
  }

  /** The handles a plugin list holds; it holds none of them twice. */
  function Handles(plugins: seq<Plugin>): set<nat> {
    if plugins == [] then {} else Handles(plugins[..|plugins| - 1]) + HandleOf(plugins[|plugins| - 1])
  }

  function HandleOf(p: Plugin): set<nat> {
    if p.handle.Some? then {p.handle.value} else {}
  }

  ghost predicate Distinct(plugins: seq<Plugin>) {
    plugins == [] ||
    (Distinct(plugins[..|plugins| - 1]) && Handles(plugins[..|plugins| - 1]) !! HandleOf(plugins[|plugins| - 1]))
  }

  lemma AppendPlugin(plugins: seq<Plugin>, p: Plugin)
    requires Distinct(plugins) && Handles(plugins) !! HandleOf(p)
    ensures Distinct(plugins + [p]) && Handles(plugins + [p]) == Handles(plugins) + HandleOf(p)
  {
    assert (plugins + [p])[..|plugins|] == plugins;
  }

  /** Replacing an entry by one without a handle takes that handle out of the list, and no other. */
  lemma {:induction false} DropHandle(plugins: seq<Plugin>, i: nat, p: Plugin)
    requires i < |plugins| && Distinct(plugins) && p.handle.None?
    ensures Distinct(plugins[i := p]) && Handles(plugins[i := p]) == Handles(plugins) - HandleOf(plugins[i])
    ensures HandleOf(plugins[i]) <= Handles(plugins)
  {
    var n := |plugins| - 1;
    var front, dropped := plugins[..n], plugins[i := p];
    if i < n {
      DropHandle(front, i, p);
      assert dropped[..n] == front[i := p];
      assert front[i] == plugins[i];
    } else {
      assert dropped[..n] == front;
    }
  }

  lemma {:induction false} HasHandle(plugins: seq<Plugin>, i: nat)
    requires i < |plugins|
    ensures HandleOf(plugins[i]) <= Handles(plugins)
  {
    if i == |plugins| - 1 {
    } else {
      HasHandle(plugins[..|plugins| - 1], i);
    }
  }

  function Erased(plugins: seq<Plugin>, i: nat): seq<Plugin>
    requires i < |plugins|
  {
    plugins[..i] + plugins[i + 1..]
  }

  lemma ErasedBeforeLast(plugins: seq<Plugin>, i: nat)
    requires i < |plugins| - 1
    ensures Erased(plugins, i) == Erased(plugins[..|plugins| - 1], i) + [plugins[|plugins| - 1]]
  {
  }

  lemma ErasedLast(plugins: seq<Plugin>)
    requires plugins != []
    ensures Erased(plugins, |plugins| - 1) == plugins[..|plugins| - 1]
  {
  }

  lemma {:induction false} EraseEmpty(plugins: seq<Plugin>, i: nat)
    requires i < |plugins| && Distinct(plugins) && plugins[i].handle.None?
    ensures Distinct(Erased(plugins, i)) && Handles(Erased(plugins, i)) == Handles(plugins)
  {
    var n := |plugins| - 1;
    if i == n {
      ErasedLast(plugins);
    } else {
      EraseEmpty(plugins[..n], i);
      ErasedBeforeLast(plugins, i);
      AppendPlugin(Erased(plugins[..n], i), plugins[n]);
    }
  }

  lemma {:induction false} NoneOpen(plugins: seq<Plugin>)
    requires forall i :: 0 <= i < |plugins| ==> plugins[i].handle.None?
    ensures Handles(plugins) == {}
  {
    if plugins == [] {
    } else {
      NoneOpen(plugins[..|plugins| - 1]);
    }
  }

  /** The names of the usable plugins among files, from the i-th up to the first that throws. */
  function Loaded(files: seq<Library>, i: nat): seq<string>
    decreases |files| - i
  {
    if i >= |files| || files[i].Throwing? then [] else NameOf(files[i]) + Loaded(files, i + 1)
  }

  predicate Reached(files: seq<Library>, i: nat, j: nat)
    requires i <= j < |files|
  {
    files[j].Usable? && forall k :: i <= k <= j ==> !files[k].Throwing?
  }

  /** The names are those of exactly the usable files in front of the first that throws, in order. */
  lemma {:induction false} LoadedPositions(files: seq<Library>, i: nat) returns (at: seq<nat>)
    requires i <= |files|
    ensures Rising(at, i, |files|)
    ensures forall j :: i <= j < |files| ==> (j in at <==> Reached(files, i, j))
    ensures |Loaded(files, i)| == |at|
    ensures forall k :: 0 <= k < |at| ==> files[at[k]] == Usable(Loaded(files, i)[k])
    decreases |files| - i
  {
    if i == |files| || files[i].Throwing? {
      at := [];
    } else {
      var rest := LoadedPositions(files, i + 1);
      at := Behind(files[i].Usable?, i, rest);
      RisingBehind(files[i].Usable?, i, rest, |files|);
    }
  }

  ghost predicate AnyThrows(files: seq<Library>) {
    exists i :: 0 <= i < |files| && files[i].Throwing?
  }

  function NameOf(file: Library): seq<string> {
    if file.Usable? then [file.name] else []
  }

  lemma NamesOfLonger(plugins: seq<Plugin>, p: Plugin)
    ensures Names(plugins + [p]) == Names(plugins) + [p.name]
  {
    assert (plugins + [p])[..|plugins|] == plugins;
  }

  lemma Regroup(x: seq<string>, y: seq<string>, z: seq<string>)
    ensures x + (y + z) == x + y + z
  {
  }

  function Names(plugins: seq<Plugin>): (names: seq<string>)
    ensures |names| == |plugins| && forall i :: 0 <= i < |plugins| ==> names[i] == plugins[i].name
  {
    if plugins == [] then [] else Names(plugins[..|plugins| - 1]) + [plugins[|plugins| - 1].name]
  }

  /** The open handles are those of the plugins, and the leaked ones. */
  ghost predicate Accounted(events: seq<Event>, plugins: seq<Plugin>, leaked: set<nat>) {
    OpenHandles(events) == Handles(plugins) + leaked && Handles(plugins) !! leaked
  }

  /** Since `before`, the handles of the first `n` plugins were closed, one after the other, and nothing else. */
  ghost predicate ClosedInOrder(before: seq<Event>, plugins: seq<Plugin>, n: nat, events: seq<Event>)
    requires AllOpen(plugins) && n <= |plugins|
  {
    && |events| == |before| + n && before <= events
    && forall k :: 0 <= k < n ==> events[|before| + k] == Closed(plugins[k].handle.value)
  }

  lemma AppendLater(x: seq<Event>, y: seq<Event>, e: Event)
    ensures x + y + [e] == x + (y + [e])
  {
  }

  class PluginLoader {
    var plugins: seq<Plugin>
    /** The next handle dlopen returns, and the record of all uses of handles. */
    var next: nat
    var events: seq<Event>
    /** Handles opened for a plugin that threw while it was asked for its name. */
    ghost var leaked: set<nat>

    constructor ()
      ensures Valid() && plugins == [] && events == [] && leaked == {}
    {
      plugins, next, events, leaked := [], 0, [], {};
    }

    ghost predicate Valid()
      reads this
    {
      && Legal(events) && Distinct(plugins) && Accounted(events, plugins, leaked)
      && (forall e :: e in events ==> e.handle < next)
    }

    /** dlopen: until someone keeps or closes the handle, it leaks. */
    method Open() returns (h: nat)
      requires Valid()
      modifies this`next, this`events, this`leaked
      ensures Valid() && h == old(next) && h !in old(leaked) && leaked == old(leaked) + {h}
      ensures events == old(events) + [Opened(h)]
    {
      h := next;
      if h in OpenHandles(events) {
        var k := OpenedBefore(events, h, |events|);
      }
      OneMore(events, Opened(h));
      events := events + [Opened(h)];
      next := next + 1;
      leaked := leaked + {h};
    }

    /** dlclose */
    method Close(h: nat)
      requires Valid() && h in leaked
      modifies this`events, this`leaked
      ensures Valid() && events == old(events) + [Closed(h)] && leaked == old(leaked) - {h}
    {
      OneMore(events, Closed(h));
      ghost var k := OpenedBefore(events, h, |events|);
      assert events[k] in events;
      events := events + [Closed(h)];
      leaked := leaked - {h};
    }

    method Keep(name: string, h: nat)
      requires Valid() && h in leaked
      modifies this`plugins, this`leaked
      ensures Valid() && plugins == old(plugins) + [Plugin(name, Some(h))] && leaked == old(leaked) - {h}
    {
      AppendPlugin(plugins, Plugin(name, Some(h)));
      plugins := plugins + [Plugin(name, Some(h))];
      leaked := leaked - {h};
    }

    method LoadPlugin(library: Library) returns (loaded: bool, threw: bool)
      requires Valid() && AllOpen(plugins)
      modifies this
      ensures Valid() && AllOpen(plugins)
      ensures loaded == library.Usable? && threw == library.Throwing?
      ensures plugins == if loaded then old(plugins) + [Plugin(library.name, Some(old(next)))] else old(plugins)
      ensures leaked == if threw then old(leaked) + {old(next)} else old(leaked)
      ensures threw ==> old(next) !in old(leaked)
      ensures events == old(events) +
        if library.Unloadable? then []
        else if library.Incomplete? then [Opened(old(next)), Closed(old(next))]
        else [Opened(old(next))]
    {
      if library.Unloadable? {
        return false, false;
      }
      var h := Open();
      if library.Incomplete? {
        Close(h);
        return false, false;
      }
      if library.Throwing? {
        return false, true;
      }
      Keep(library.name, h);
      return true, false;
    }

    method LoadNamed(library: Library) returns (threw: bool)
      requires Valid() && AllOpen(plugins)
      modifies this
      ensures Valid() && AllOpen(plugins) && threw == library.Throwing?
      ensures Names(plugins) == Names(old(plugins)) + NameOf(library)
      ensures old(leaked) <= leaked && (leaked == old(leaked) <==> !threw)
    {
      if library.Usable? {
        NamesOfLonger(plugins, Plugin(library.name, Some(next)));
      }
      var loaded;
      loaded, threw := LoadPlugin(library);
    }

    method LoadAll(directory: Option<seq<Library>>) returns (threw: bool)
      requires Valid() && AllOpen(plugins)
      modifies this
      ensures Valid() && AllOpen(plugins)
      ensures threw <==> directory.Some? && AnyThrows(directory.value)
      ensures old(leaked) <= leaked && (leaked == old(leaked) <==> !threw)
      ensures Names(plugins) == Names(old(plugins)) + (if directory.Some? then Loaded(directory.value, 0) else [])
    {
      if directory.None? {
        return false;
      }
      threw := LoadFiles(directory.value);
    }

    method LoadFiles(files: seq<Library>) returns (threw: bool)
      requires Valid() && AllOpen(plugins)
      modifies this
      ensures Valid() && AllOpen(plugins)
      ensures threw <==> AnyThrows(files)
      ensures old(leaked) <= leaked && (leaked == old(leaked) <==> !threw)
      ensures Names(plugins) == Names(old(plugins)) + Loaded(files, 0)
    {
      var i := 0;
      while i < |files|
        invariant Valid() && AllOpen(plugins) && i <= |files| && leaked == old(leaked)
        invariant forall k :: 0 <= k < i ==> !files[k].Throwing?
        invariant Names(plugins) + Loaded(files, i) == Names(old(plugins)) + Loaded(files, 0)
      {
        Regroup(Names(plugins), NameOf(files[i]), Loaded(files, i + 1));
        threw := LoadNamed(files[i]);
        if threw {
          return;
        }
        i := i + 1;
      }
      return false;
    }

    method UnloadPlugin(i: nat)
      requires Valid() && i < |plugins|
      modifies this`plugins, this`events, this`leaked
      ensures leaked == old(leaked)
      ensures Valid() && plugins == old(plugins)[i := old(plugins)[i].(handle := None)]
      ensures events == old(events) +
        if old(plugins)[i].handle.Some? then [Closed(old(plugins)[i].handle.value)] else []
    {
      var plugin := plugins[i];
      DropHandle(plugins, i, plugin.(handle := None));
      plugins := plugins[i := plugin.(handle := None)];
      leaked := leaked + HandleOf(plugin);
      if plugin.handle.Some? {
        Close(plugin.handle.value);
      }
    }

    method Remove(i: nat)
      requires Valid() && AllOpen(plugins) && i < |plugins|
      modifies this`plugins, this`events, this`leaked
      ensures leaked == old(leaked)
      ensures Valid() && AllOpen(plugins) && plugins == Erased(old(plugins), i)
      ensures events == old(events) + [Closed(old(plugins)[i].handle.value)]
    {
      UnloadPlugin(i);
      EraseEmpty(plugins, i);
      plugins := Erased(plugins, i);
    }

    method UnloadAll()
      requires Valid()
      modifies this`plugins, this`events, this`leaked
      ensures leaked == old(leaked)
      ensures Valid() && plugins == [] && OpenHandles(events) == leaked
      ensures AllOpen(old(plugins)) ==> ClosedInOrder(old(events), old(plugins), |old(plugins)|, events)
    {
      var i := 0;
      while i < |plugins|
        invariant Valid() && i <= |plugins| && |plugins| == |old(plugins)| && leaked == old(leaked)
        invariant forall k :: 0 <= k < i ==> plugins[k].handle.None?
        invariant forall k :: i <= k < |plugins| ==> plugins[k] == old(plugins)[k]
        invariant AllOpen(old(plugins)) ==> ClosedInOrder(old(events), old(plugins), i, events)
      {
        UnloadPlugin(i);
        i := i + 1;
      }
      NoneOpen(plugins);
      plugins := [];
    }

    /** collect() of one plugin. */
    method Collect(i: nat, outcome: nat -> Outcome) returns (o: Outcome)
      requires Valid() && AllOpen(plugins) && i < |plugins|
      modifies this`events
      ensures Valid() && events == old(events) + [Collected(plugins[i].handle.value)]
      ensures o == outcome(plugins[i].handle.value)
    {
      HasHandle(plugins, i);
      var h := plugins[i].handle.value;
      OneMore(events, Collected(h));
      ghost var k := OpenedBefore(events, h, |events|);
      assert events[k] in events;
      events := events + [Collected(h)];
      return outcome(h);
    }

    /** The first loop of collectAll() after `i` plugins, on a record that was `start`. */
    ghost predicate Polled(start: seq<Event>, outcome: nat -> Outcome, i: nat,
      failed: seq<nat>, delivered: seq<seq<LogEntry>>)
      requires AllOpen(plugins)
      reads this
    {
      && i <= |plugins|
      && events == start + Polls(plugins, i)
      && FailedAre(failed, plugins, outcome, i)
      && delivered == Delivered(plugins, outcome, i)
    }

    method PollOne(ghost start: seq<Event>, i: nat, outcome: nat -> Outcome,
      failed: seq<nat>, delivered: seq<seq<LogEntry>>)
      returns (failed': seq<nat>, delivered': seq<seq<LogEntry>>)
      requires Valid() && AllOpen(plugins) && i < |plugins| && Polled(start, outcome, i, failed, delivered)
      modifies this`events
      ensures Valid() && Polled(start, outcome, i + 1, failed', delivered')
    {
      PollStep(plugins, outcome, i, failed, delivered);
      AppendLater(start, Polls(plugins, i), Collected(plugins[i].handle.value));
      var o := Collect(i, outcome);
      failed' := if o.Throws? then failed + [i] else failed;
      delivered' := Delivering(delivered, o);
    }

    method Poll(outcome: nat -> Outcome) returns (failed: seq<nat>, delivered: seq<seq<LogEntry>>)
      requires Valid() && AllOpen(plugins)
      modifies this`events
      ensures Valid() && Polled(old(events), outcome, |plugins|, failed, delivered)
    {
      failed, delivered := [], [];
      for i := 0 to |plugins|
        invariant Valid() && Polled(old(events), outcome, i, failed, delivered)
      {
        failed, delivered := PollOne(old(events), i, outcome, failed, delivered);
      }
    }

    /** One turn of the second loop: unload and erase the failed plugin with the highest index left. */
    method RemoveOne(i: nat, ghost before: seq<Plugin>, ghost outcome: nat -> Outcome, ghost end: nat)
      requires Valid() && AllOpen(plugins) && i < end <= |before| && plugins == KeptFrom(before, outcome, end)
      requires Fails(before[i], outcome) && forall j :: i < j < end ==> !Fails(before[j], outcome)
      modifies this`plugins, this`events, this`leaked
      ensures Valid() && AllOpen(plugins) && leaked == old(leaked)
      ensures plugins == KeptFrom(before, outcome, i)
      ensures events == old(events) + [Closed(before[i].handle.value)]
      ensures Closings(before, outcome, i) == Closings(before, outcome, end) + [Closed(before[i].handle.value)]
    {
      NoFailures(before, outcome, i + 1, end);
      KeptRemoval(before, outcome, i);
      Remove(i);
    }

    /** The second loop of collectAll(), from the highest index down. */
    method RemoveFailed(failed: seq<nat>, ghost outcome: nat -> Outcome)
      requires Valid() && AllOpen(plugins) && FailedAre(failed, plugins, outcome, |plugins|)
      modifies this`plugins, this`events, this`leaked
      ensures Valid() && AllOpen(plugins) && leaked == old(leaked)
      ensures plugins == Kept(old(plugins), outcome, 0)
      ensures events == old(events) + Closings(old(plugins), outcome, 0)
    {
      ghost var before := plugins;
      ghost var end: nat := |plugins|;
      var k := |failed|;
      assert failed[..k] == failed;
      while k > 0
        invariant 0 <= k <= |failed| && end <= |before|
        invariant FailedAre(failed[..k], before, outcome, end)
        invariant Valid() && AllOpen(plugins) && leaked == old(leaked)
        invariant plugins == KeptFrom(before, outcome, end)
        invariant events == old(events) + Closings(before, outcome, end)
      {
        k := k - 1;
        FailedPop(failed, before, outcome, k, end);
        AppendLater(old(events), Closings(before, outcome, end), Closed(before[failed[k]].handle.value));
        RemoveOne(failed[k], before, outcome, end);
        end := failed[k];
      }
      NoFailures(before, outcome, 0, end);
      assert KeptFrom(before, outcome, 0) == Kept(before, outcome, 0);
    }

    method CollectAll(outcome: nat -> Outcome) returns (delivered: seq<seq<LogEntry>>)
      requires Valid() && AllOpen(plugins)
      modifies this`plugins, this`events, this`leaked
      ensures Valid() && AllOpen(plugins) && leaked == old(leaked)
      ensures plugins == Kept(old(plugins), outcome, 0)
      ensures events == old(events) + Polls(old(plugins), |old(plugins)|) + Closings(old(plugins), outcome, 0)
      ensures delivered == Delivered(old(plugins), outcome, |old(plugins)|)
    {
      var failed;
      failed, delivered := Poll(outcome);
      RemoveFailed(failed, outcome);
    }
  }

  // ---------------------------------------------------------------- the whole life of a loader

  datatype Operation = LoadAll(directory: Option<seq<Library>>) | CollectAll(outcome: nat -> Outcome) | UnloadAll

  ghost predicate Leaks(op: Operation) {
    op.LoadAll? && op.directory.Some? && AnyThrows(op.directory.value)
  }

  /** Every handle that was opened was closed exactly once, and that was its last use. */
  ghost predicate AllClosedOnce(events: seq<Event>) {
    forall h: nat :: Opened(h) in events ==> ClosedLast(events, h)
  }

  ghost predicate ClosedLast(events: seq<Event>, h: nat) {
    exists i :: 0 <= i < |events| && events[i] == Closed(h) && UsedBefore(events, h, i)
  }

  ghost predicate UsedBefore(events: seq<Event>, h: nat, i: nat) {
    forall j :: 0 <= j < |events| && events[j].handle == h && j != i ==> j < i && !events[j].Closed?
  }

  lemma LegalEnd(events: seq<Event>)
    requires Legal(events) && OpenHandles(events) == {}
    ensures AllClosedOnce(events)
  {
    forall h: nat | Opened(h) in events
      ensures ClosedLast(events, h)
    {
      ClosedIfGone(events, h);
      var i :| 0 <= i < |events| && events[i] == Closed(h);
      forall j | 0 <= j < |events| && events[j].handle == h && j != i
        ensures j < i && !events[j].Closed?
      {
        if i < j {
          NoUseAfterClose(events, i, j);
        } else if events[j].Closed? {
          NoUseAfterClose(events, j, i);
        }
      }
      assert UsedBefore(events, h, i);
    }
  }

  method Perform(loader: PluginLoader, op: Operation)
    requires loader.Valid() && AllOpen(loader.plugins)
    modifies loader
    ensures loader.Valid() && AllOpen(loader.plugins)
    ensures old(loader.leaked) <= loader.leaked && (loader.leaked == old(loader.leaked) <==> !Leaks(op))
  {
    match op
    case LoadAll(directory) => var _ := loader.LoadAll(directory);
    case CollectAll(outcome) => var _ := loader.CollectAll(outcome);
    case UnloadAll => loader.UnloadAll();
  }

  /**
   From construction to destruction, whatever is called in between: a closed handle is never used,
   and every opened handle is closed exactly once, unless a plugin threw while it was loaded.
   */
  method Live(ops: seq<Operation>) returns (loader: PluginLoader)
    ensures fresh(loader) && Legal(loader.events)
    ensures AllClosedOnce(loader.events) <==> forall op :: op in ops ==> !Leaks(op)
  {
    loader := new PluginLoader();
    for i := 0 to |ops|
      invariant fresh(loader) && loader.Valid() && AllOpen(loader.plugins)
      invariant loader.leaked == {} <==> forall k :: 0 <= k < i ==> !Leaks(ops[k])
    {
      Perform(loader, ops[i]);
    }
    loader.UnloadAll();
    if loader.leaked == {} {
      LegalEnd(loader.events);
    } else {
      ghost var h :| h in loader.leaked;
      LeakedStaysOpen(loader.events, h);
    }
  }

  /** A handle open at the end was opened, and never closed. */
  lemma LeakedStaysOpen(events: seq<Event>, h: nat)
    requires Legal(events) && h in OpenHandles(events)
    ensures Opened(h) in events && Closed(h) !in events
  {
    var k := OpenedBefore(events, h, |events|);
    if Closed(h) in events {
      var i :| 0 <= i < |events| && events[i] == Closed(h);
      assert LegalAt(events, i);
      var first := OpenedBefore(events, h, i);
      StaysClosed(events, first, i, |events|);
    }
  }
}
