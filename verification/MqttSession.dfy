/**
 Sessions, reconnection and resubscription of the MQTT client, over all interleavings.

 Each thread is a program counter. One step runs one access to shared state: an atomic flag,
 the Paho handle, or one region protected by the subscription mutex. Sessions are clean
 (section 3.1.2.4 of MQTT 3.1.1), so a new session starts without subscriptions; a subscribe
 on a live session succeeds.
 */
module MqttSession {
  import opened Options

  datatype Thread =
    // a call of subscribe()
    | Adding(topic: string)
    | ReadingFlag(topic: string)
    | ReadingLive(topic: string)
    | Subscribing(topic: string)
    // the connection-lost callback, which turns into the reconnect loop it starts
    | Lowering
    | Respawning
    | Looping
    | Sleeping
    // connect() starts here with `retry` false
    | Dialing(retry: bool)
    | Raising(epoch: nat)
    | Locking(epoch: nat)
    | Replaying(epoch: nat, next: nat)
    // a call of disconnect() that saw the flag set
    | Closing
    | Clearing
    | Done

  /**
   `live` is the session the broker currently holds for us, numbered by `epoch`; `subscribed`
   is its subscription set. `flag` is connected_, `topics` is subscriptions_, `lock` is the
   holder of sub_mutex_. `leaving` records that disconnect() has been called.
   */
  datatype System = System(
    live: Option<nat>,
    epoch: nat,
    subscribed: set<string>,
    flag: bool,
    shutdown: bool,
    leaving: bool,
    topics: seq<string>,
    lock: Option<nat>,
    threads: map<nat, Thread>)

  datatype Step =
    | Begin(tid: nat, topic: string)
    | Lose(tid: nat)
    | Shutdown
    | Disconnect(tid: nat)
    | Advance(tid: nat, connects: bool)

  /** The agent calls connect() once, at start. */
  ghost predicate Initial(s: System) {
    s == System(None, 0, {}, false, false, false, [], None, map[0 := Dialing(false)])
  }

  predicate Enabled(s: System, step: Step) {
    match step
    case Begin(tid, _) => tid !in s.threads
    case Lose(tid) => s.live.Some? && tid !in s.threads
    case Shutdown => true
    case Disconnect(tid) => tid !in s.threads
    case Advance(tid, _) =>
      && tid in s.threads && s.threads[tid] != Done
      && (s.threads[tid].Adding? || s.threads[tid].Locking? ==> s.lock == None)
  }

  function Apply(s: System, step: Step): System
    requires Enabled(s, step)
  {
    match step
    case Begin(tid, topic) => s.(threads := s.threads[tid := Adding(topic)])
    case Lose(tid) => s.(live := None, subscribed := {}, threads := s.threads[tid := Lowering])
    case Shutdown => s.(shutdown := true)
    case Disconnect(tid) => s.(leaving := true, threads := s.threads[tid := if s.flag then Closing else Done])
    case Advance(tid, connects) => Move(s, tid, connects)
  }

  /** Runs thread `tid` up to its next access to shared state. */
  function Move(s: System, tid: nat, connects: bool): System
    requires tid in s.threads
  {
    Effect(s, tid, s.threads[tid], connects).(threads := s.threads[tid := Next(s, s.threads[tid], connects)])
  }

  function Next(s: System, pc: Thread, connects: bool): Thread {
    match pc
    case Adding(t) => ReadingFlag(t)
    case ReadingFlag(t) => if s.flag then ReadingLive(t) else Done
    case ReadingLive(t) => if s.live.Some? then Subscribing(t) else Done
    case Subscribing(_) => Done
    case Lowering => Respawning
    case Respawning => if s.shutdown then Done else Looping
    case Looping => if s.shutdown || s.flag then Done else Sleeping
    case Sleeping => if s.shutdown then Done else Dialing(true)
    case Dialing(retry) => if connects then Raising(s.epoch + 1) else if retry then Looping else Done
    case Raising(e) => Locking(e)
    case Locking(e) => Replaying(e, 0)
    case Replaying(e, i) => if i < |s.topics| then Replaying(e, i + 1) else Done
    case Closing => Clearing
    case Clearing => Done
    case Done => Done
  }

  function Effect(s: System, tid: nat, pc: Thread, connects: bool): System {
    match pc
    case Adding(t) => if t in s.topics then s else s.(topics := s.topics + [t])
    case Subscribing(t) => s.(subscribed := Subscribe(s, t))
    case Lowering => s.(flag := false)
    case Dialing(_) =>
      if connects then s.(live := Some(s.epoch + 1), epoch := s.epoch + 1, subscribed := {}) else s
    case Raising(_) => s.(flag := true)
    case Locking(_) => s.(lock := Some(tid))
    case Replaying(_, i) =>
      if i < |s.topics| then s.(subscribed := Subscribe(s, s.topics[i])) else s.(lock := None)
    case Closing => s.(live := None, subscribed := {})
    case Clearing => s.(flag := false)
    case _ => s
  }

  function Subscribe(s: System, topic: string): set<string> {
    if s.live.Some? then s.subscribed + {topic} else s.subscribed
  }

  ghost predicate Run(states: seq<System>, steps: seq<Step>) {
    && |states| == |steps| + 1
    && Initial(states[0])
    && forall i :: 0 <= i < |steps| ==> Enabled(states[i], steps[i]) && states[i + 1] == Apply(states[i], steps[i])
  }

  // ---------------------------------------------------------------- one reconnector

  /** Between losing a session and having a new one: the right to dial. */
  predicate Reconnecting(t: Thread) {
    t.Lowering? || t.Respawning? || t.Looping? || t.Sleeping? || t.Dialing?
  }

  predicate MayDial(s: System, tid: nat) {
    tid in s.threads && Reconnecting(s.threads[tid])
  }

  ghost predicate OneReconnector(s: System) {
    && (forall t, u :: MayDial(s, t) && MayDial(s, u) ==> t == u)
    && (s.live.Some? ==> forall t :: !MayDial(s, t))
  }

  // ---------------------------------------------------------------- resubscription

  /** Threads inside the add/check/subscribe window of `topic`. */
  predicate InSubscribe(t: Thread, topic: string) {
    t == ReadingFlag(topic) || t == ReadingLive(topic) || t == Subscribing(topic)
  }

  /** The connector of session `epoch` has yet to replay `topic`. */
  predicate WillReplay(t: Thread, epoch: nat, topics: seq<string>, topic: string) {
    || t == Raising(epoch)
    || t == Locking(epoch)
    || (t.Replaying? && t.epoch == epoch && t.next <= |topics| && topic in topics[t.next..])
  }

  ghost predicate Covered(s: System, topic: string)
    requires s.live.Some?
  {
    || topic in s.subscribed
    || exists t :: t in s.threads
         && (InSubscribe(s.threads[t], topic) || WillReplay(s.threads[t], s.live.value, s.topics, topic))
  }

  ghost predicate NoDuplicates(topics: seq<string>) {
    forall i, j :: 0 <= i < j < |topics| ==> topics[i] != topics[j]
  }

  ghost predicate ThreadOk(s: System, tid: nat, t: Thread) {
    && (t.ReadingFlag? || t.ReadingLive? || t.Subscribing? ==> t.topic in s.topics)
    && (t.Raising? || t.Locking? || t.Replaying? ==> t.epoch <= s.epoch)
    && (t.Replaying? ==> s.lock == Some(tid) && t.next <= |s.topics|)
    && (t.Closing? || t.Clearing? ==> s.leaving)
  }

  ghost predicate Basic(s: System) {
    && OneReconnector(s)
    && (s.live.Some? ==> s.live.value == s.epoch)
    && (forall tid :: tid in s.threads ==> ThreadOk(s, tid, s.threads[tid]))
    && NoDuplicates(s.topics)
    && Recorded(s.subscribed, s.topics)
  }

  /** A live session whose flag is down has a connector just about to raise it. */
  ghost predicate FlagFollows(s: System) {
    s.live.Some? && !s.flag ==> exists t :: t in s.threads && s.threads[t] == Raising(s.live.value)
  }

  ghost predicate Resubscribed(s: System) {
    !s.leaving ==>
      && FlagFollows(s)
      && (s.live.Some? ==> forall topic :: topic in s.topics ==> Covered(s, topic))
  }

  /** The right to dial moves from a lost session to its callback, its loop, and the next session. */
  lemma StepKeepsOneReconnector(s: System, step: Step)
    requires OneReconnector(s) && Enabled(s, step)
    ensures OneReconnector(Apply(s, step))
  {
    var s' := Apply(s, step);
    assert forall t :: MayDial(s', t) && !MayDial(s, t) ==> step == Lose(t);
    if step.Advance? {
      assert s.live.None? && s'.live.Some? ==> MayDial(s, step.tid) && !MayDial(s', step.tid);
    }
  }

  /** The thread a step runs or starts; a shutdown request runs none. */
  predicate Runs(step: Step, tid: nat) {
    !step.Shutdown? && step.tid == tid
  }

  /** What a step leaves alone: other threads, a lock held by another, and the list except for its end. */
  ghost predicate Later(s: System, step: Step, s': System) {
    && s.epoch <= s'.epoch
    && s.topics <= s'.topics
    && (s.leaving ==> s'.leaving)
    && (forall tid :: tid in s.threads && !Runs(step, tid) ==> tid in s'.threads && s'.threads[tid] == s.threads[tid])
    && (forall tid :: tid in s'.threads && !Runs(step, tid) ==> tid in s.threads)
    && (s.lock.Some? && !Runs(step, s.lock.value) ==> s'.lock == s.lock)
  }

  lemma StepLater(s: System, step: Step)
    requires Enabled(s, step)
    requires step.Advance? ==> ThreadOk(s, step.tid, s.threads[step.tid])
    ensures Later(s, step, Apply(s, step))
  {
  }

  lemma OtherThreadStays(s: System, step: Step, s': System, tid: nat)
    requires Later(s, step, s') && tid in s.threads && !Runs(step, tid)
    requires ThreadOk(s, tid, s.threads[tid])
    ensures ThreadOk(s', tid, s'.threads[tid])
  {
    assert forall topic :: topic in s.topics ==> topic in s'.topics;
  }

  lemma ThreadStep(s: System, step: Step, tid: nat)
    requires Basic(s) && Enabled(s, step) && Runs(step, tid)
    ensures tid in Apply(s, step).threads && ThreadOk(Apply(s, step), tid, Apply(s, step).threads[tid])
  {
    if step.Advance? {
      assert ThreadOk(s, tid, s.threads[tid]);
    }
  }

  lemma StepKeepsSession(s: System, step: Step)
    requires Enabled(s, step) && (s.live.Some? ==> s.live.value == s.epoch)
    ensures var s' := Apply(s, step); s'.live.Some? ==> s'.live.value == s'.epoch
  {
  }

  lemma OneMoreTopic(topics: seq<string>, topic: string)
    requires NoDuplicates(topics) && topic !in topics
    ensures NoDuplicates(topics + [topic])
  {
  }

  lemma StepKeepsList(s: System, step: Step)
    requires NoDuplicates(s.topics) && Enabled(s, step)
    ensures NoDuplicates(Apply(s, step).topics) && s.topics <= Apply(s, step).topics
  {
    if step.Advance? && s.threads[step.tid].Adding? && s.threads[step.tid].topic !in s.topics {
      OneMoreTopic(s.topics, s.threads[step.tid].topic);
    }
  }

  ghost predicate Recorded(subscribed: set<string>, topics: seq<string>) {
    forall topic :: topic in subscribed ==> topic in topics
  }

  /** The topic a thread is about to subscribe, if any. */
  function Subscribes(s: System, pc: Thread): set<string> {
    if pc.Subscribing? then {pc.topic}
    else if pc.Replaying? && pc.next < |s.topics| then {s.topics[pc.next]}
    else {}
  }

  lemma StepSubscribes(s: System, step: Step)
    requires Enabled(s, step)
    ensures Apply(s, step).subscribed <= s.subscribed + if step.Advance? then Subscribes(s, s.threads[step.tid]) else {}
  {
  }

  lemma StepKeepsRecorded(s: System, step: Step)
    requires Basic(s) && Enabled(s, step)
    ensures Recorded(Apply(s, step).subscribed, Apply(s, step).topics)
  {
    StepSubscribes(s, step);
    StepKeepsList(s, step);
    var topics := Apply(s, step).topics;
    assert forall i :: 0 <= i < |s.topics| ==> s.topics[i] == topics[i];
    if step.Advance? {
      assert ThreadOk(s, step.tid, s.threads[step.tid]);
    }
  }

  lemma StepKeepsBasic(s: System, step: Step)
    requires Basic(s) && Enabled(s, step)
    ensures Basic(Apply(s, step))
  {
    var s' := Apply(s, step);
    StepKeepsOneReconnector(s, step);
    StepKeepsSession(s, step);
    StepKeepsList(s, step);
    StepKeepsRecorded(s, step);
    forall tid | tid in s'.threads
      ensures ThreadOk(s', tid, s'.threads[tid])
    {
      if Runs(step, tid) {
        ThreadStep(s, step, tid);
      } else {
        assert step.Advance? ==> ThreadOk(s, step.tid, s.threads[step.tid]);
        StepLater(s, step);
        OtherThreadStays(s, step, s', tid);
      }
    }
  }

  lemma StepKeepsResubscribed(s: System, step: Step)
    requires Basic(s) && Resubscribed(s) && Enabled(s, step)
    ensures Resubscribed(Apply(s, step))
  {
    var s' := Apply(s, step);
    if !s'.leaving && s'.live.Some? {
      FlagStep(s, step);
      forall topic | topic in s'.topics
        ensures Covered(s', topic)
      {
        CoverStep(s, step, topic);
      }
    }
  }

  lemma FlagStep(s: System, step: Step)
    requires Basic(s) && Resubscribed(s) && Enabled(s, step)
    requires !Apply(s, step).leaving
    ensures FlagFollows(Apply(s, step))
  {
    var s' := Apply(s, step);
    if step.Advance? {
      assert ThreadOk(s, step.tid, s.threads[step.tid]);
      assert s.live.Some? ==> !MayDial(s, step.tid);
    }
    if s'.live.Some? && !s'.flag {
      if s.live.Some? && !s.flag {
        var t :| t in s.threads && s.threads[t] == Raising(s.live.value);
        assert t in s'.threads && s'.threads[t] == Raising(s'.live.value);
      } else {
        assert step.Advance? && s'.threads[step.tid] == Raising(s'.live.value);
      }
    }
  }

  /** While a session lives and nobody disconnects, no step ends it or empties its subscriptions, save a loss. */
  lemma SessionStays(s: System, step: Step)
    requires Basic(s) && Enabled(s, step) && s.live.Some?
    requires !Apply(s, step).leaving && !step.Lose?
    ensures Apply(s, step).live == s.live && s.subscribed <= Apply(s, step).subscribed
  {
    if step.Advance? {
      assert ThreadOk(s, step.tid, s.threads[step.tid]) && !MayDial(s, step.tid);
    }
  }

  /** A topic covered by a thread that is not running stays covered by it. */
  lemma CoverStays(s: System, step: Step, s': System, t: nat, topic: string)
    requires Later(s, step, s') && s.live.Some? && s'.live == s.live
    requires t in s.threads && !Runs(step, t) && ThreadOk(s, t, s.threads[t])
    requires InSubscribe(s.threads[t], topic) || WillReplay(s.threads[t], s.live.value, s.topics, topic)
    ensures Covered(s', topic)
  {
    assert t in s'.threads;
    var pc := s.threads[t];
    if pc.Replaying? {
      assert s'.topics[pc.next..] == s.topics[pc.next..] + s'.topics[|s.topics|..];
    }
  }

  lemma CoverStep(s: System, step: Step, topic: string)
    requires Basic(s) && Resubscribed(s) && Enabled(s, step)
    requires !Apply(s, step).leaving && Apply(s, step).live.Some? && topic in Apply(s, step).topics
    ensures Covered(Apply(s, step), topic)
  {
    var s' := Apply(s, step);
    if s.live.None? {
      assert s'.threads[step.tid] == Raising(s'.live.value);
    } else if topic !in s.topics {
      assert s'.threads[step.tid] == ReadingFlag(topic);
    } else {
      SessionStays(s, step);
      assert Covered(s, topic);
      if topic !in s.subscribed {
        var t :| t in s.threads
          && (InSubscribe(s.threads[t], topic) || WillReplay(s.threads[t], s.live.value, s.topics, topic));
        CoverKept(s, step, topic, t);
      }
    }
  }

  lemma CoverKept(s: System, step: Step, topic: string, t: nat)
    requires Basic(s) && Resubscribed(s) && Enabled(s, step) && topic in s.topics
    requires !Apply(s, step).leaving && s.live.Some? && Apply(s, step).live == s.live
    requires t in s.threads
    requires InSubscribe(s.threads[t], topic) || WillReplay(s.threads[t], s.live.value, s.topics, topic)
    ensures Covered(Apply(s, step), topic)
  {
    assert ThreadOk(s, t, s.threads[t]);
    if Runs(step, t) {
      CoverMoves(s, t, step.connects, topic);
    } else {
      assert step.Advance? ==> ThreadOk(s, step.tid, s.threads[step.tid]);
      StepLater(s, step);
      CoverStays(s, step, Apply(s, step), t, topic);
    }
  }

  /** The thread that keeps a topic covered keeps it covered, or subscribes it. */
  lemma CoverMoves(s: System, tid: nat, connects: bool, topic: string)
    requires Basic(s) && Resubscribed(s) && Enabled(s, Advance(tid, connects))
    requires !s.leaving && s.live.Some? && topic in s.topics
    requires InSubscribe(s.threads[tid], topic) || WillReplay(s.threads[tid], s.live.value, s.topics, topic)
    ensures Move(s, tid, connects).live == s.live
    ensures Covered(Move(s, tid, connects), topic)
  {
    var s' := Move(s, tid, connects);
    assert tid in s'.threads;
    if s.threads[tid].Replaying? {
      ReplayMoves(s, tid, connects, topic);
    } else if s.threads[tid].ReadingFlag? && !s.flag {
      var t :| t in s.threads && s.threads[t] == Raising(s.live.value);
      assert s'.threads[t] == Raising(s.live.value);
    }
  }

  lemma ReplayMoves(s: System, tid: nat, connects: bool, topic: string)
    requires tid in s.threads && s.live.Some? && s.threads[tid].Replaying?
    requires WillReplay(s.threads[tid], s.live.value, s.topics, topic)
    ensures Covered(Move(s, tid, connects), topic)
  {
    var s' := Move(s, tid, connects);
    var i := s.threads[tid].next;
    assert |s.topics[i..]| == |s.topics| - i > 0;
    assert s.topics[i..] == [s.topics[i]] + s.topics[i + 1..];
    assert s'.threads[tid] == Replaying(s.threads[tid].epoch, i + 1);
  }

  lemma {:induction false} RunKeepsInv(states: seq<System>, steps: seq<Step>, n: nat)
    requires Run(states, steps) && n < |states|
    ensures Basic(states[n]) && Resubscribed(states[n])
  {
    if n == 0 {
    } else {
      RunKeepsInv(states, steps, n - 1);
      StepKeepsBasic(states[n - 1], steps[n - 1]);
      StepKeepsResubscribed(states[n - 1], steps[n - 1]);
    }
  }

  /** No thread is between recording a topic and its subscribe, or between connecting and the end of the replay. */
  ghost predicate Quiescent(s: System) {
    forall t :: t in s.threads ==>
      var pc := s.threads[t];
      !(pc.ReadingFlag? || pc.ReadingLive? || pc.Subscribing? || pc.Raising? || pc.Locking? || pc.Replaying?)
  }

  /**
   In every interleaving, and up to an explicit disconnect: once the threads are out of their
   windows, a live session is subscribed to exactly the recorded topics, each recorded once.
   */
  lemma ResubscriptionComplete(states: seq<System>, steps: seq<Step>, n: nat)
    requires Run(states, steps) && n < |states|
    requires states[n].live.Some? && !states[n].leaving && Quiescent(states[n])
    ensures states[n].subscribed == set topic | topic in states[n].topics
    ensures NoDuplicates(states[n].topics)
  {
    RunKeepsInv(states, steps, n);
    var s := states[n];
    forall topic | topic in s.topics
      ensures topic in s.subscribed
    {
      assert Covered(s, topic);
    }
  }

  /** Never two threads between losing a session and dialing the next, and none while one is live. */
  lemma NeverTwoReconnectors(states: seq<System>, steps: seq<Step>, n: nat, t: nat, u: nat)
    requires Run(states, steps) && n < |states|
    requires MayDial(states[n], t) && MayDial(states[n], u)
    ensures t == u && states[n].live.None?
  {
    RunKeepsInv(states, steps, n);
  }

  // ---------------------------------------------------------------- when reconnection stops

  /** No thread will ever dial again: none is reconnecting, and no session is left to be lost. */
  ghost predicate Stuck(s: System) {
    && s.live.None? && s.epoch > 0 && !s.shutdown && !s.leaving
    && forall t :: !MayDial(s, t)
  }

  /** A reconnect loop ends because it finds the flag up: its own session's, raised late. */
  predicate Misled(s: System, step: Step) {
    step.Advance? && step.tid in s.threads && s.threads[step.tid].Looping? && s.flag && !s.shutdown
  }

  /** Before the first session the first connect() is the only dialer, and later it is none. */
  ghost predicate FirstDial(s: System) {
    && (s.live.Some? ==> s.epoch > 0)
    && (forall t :: MayDial(s, t) ==> (s.threads[t] == Dialing(false) <==> s.epoch == 0))
  }

  /** While the client is wanted, a lost session has a dialer. */
  ghost predicate Attended(s: System) {
    s.live.None? && s.epoch > 0 && !s.shutdown && !s.leaving ==> exists t :: MayDial(s, t)
  }

  lemma DialersShrink(s: System, step: Step)
    requires Enabled(s, step)
    ensures forall t :: MayDial(Apply(s, step), t) ==> MayDial(s, t) || step == Lose(t)
    ensures Apply(s, step).epoch != s.epoch ==>
      step.Advance? && MayDial(s, step.tid) && !MayDial(Apply(s, step), step.tid)
  {
  }

  lemma StepKeepsFirstDial(s: System, step: Step)
    requires Basic(s) && FirstDial(s) && Enabled(s, step)
    ensures FirstDial(Apply(s, step))
  {
    var s' := Apply(s, step);
    DialersShrink(s, step);
    forall t | MayDial(s', t)
      ensures s'.threads[t] == Dialing(false) <==> s'.epoch == 0
    {
      if step != Lose(t) {
        assert MayDial(s, t);
      }
    }
  }

  lemma StepKeepsAttended(s: System, step: Step)
    requires Basic(s) && FirstDial(s) && Attended(s) && Enabled(s, step) && !Misled(s, step)
    ensures Attended(Apply(s, step))
  {
    var s' := Apply(s, step);
    if s'.live.None? && s'.epoch > 0 && !s'.shutdown && !s'.leaving {
      if step.Lose? {
        assert MayDial(s', step.tid);
      } else {
        assert step.Advance? ==> ThreadOk(s, step.tid, s.threads[step.tid]);
        var t :| MayDial(s, t);
        assert MayDial(s', t);
      }
    }
  }

  lemma {:induction false} RunKeepsFirstDial(states: seq<System>, steps: seq<Step>, n: nat)
    requires Run(states, steps) && n < |states|
    ensures FirstDial(states[n])
  {
    if n == 0 {
    } else {
      RunKeepsFirstDial(states, steps, n - 1);
      RunKeepsInv(states, steps, n - 1);
      StepKeepsFirstDial(states[n - 1], steps[n - 1]);
    }
  }

  lemma {:induction false} RunAttended(states: seq<System>, steps: seq<Step>, n: nat)
    requires Run(states, steps) && n < |states|
    requires forall i :: 0 <= i < n ==> !Misled(states[i], steps[i])
    ensures Attended(states[n])
  {
    if n == 0 {
    } else {
      RunAttended(states, steps, n - 1);
      RunKeepsInv(states, steps, n - 1);
      RunKeepsFirstDial(states, steps, n - 1);
      StepKeepsAttended(states[n - 1], steps[n - 1]);
    }
  }

  /** Shutting down and disconnecting are for good. */
  lemma {:induction false} WantedBefore(states: seq<System>, steps: seq<Step>, i: nat, n: nat)
    requires Run(states, steps) && i <= n < |states|
    requires !states[n].shutdown && !states[n].leaving
    ensures !states[i].shutdown && !states[i].leaving
  {
    if i == n {
    } else {
      WantedBefore(states, steps, i, n - 1);
    }
  }

  lemma MisledSticks(states: seq<System>, steps: seq<Step>, i: nat)
    requires Run(states, steps) && i < |steps| && Misled(states[i], steps[i]) && !states[i].leaving
    ensures Stuck(states[i + 1])
  {
    RunKeepsInv(states, steps, i);
    RunKeepsFirstDial(states, steps, i);
    DialersShrink(states[i], steps[i]);
    assert MayDial(states[i], steps[i].tid);
  }

  /** While the client is wanted, it is stuck exactly when a reconnect loop has ended on a flag that was up. */
  lemma StuckExactly(states: seq<System>, steps: seq<Step>, n: nat)
    requires Run(states, steps) && n < |states| && !states[n].shutdown && !states[n].leaving
    ensures Stuck(states[n]) <==> exists i :: 0 <= i < n && Misled(states[i], steps[i])
  {
    if i :| 0 <= i < n && Misled(states[i], steps[i]) {
      WantedBefore(states, steps, i, n);
      MisledSticks(states, steps, i);
      StuckForever(states, steps, i + 1, n);
    } else {
      RunAttended(states, steps, n);
    }
  }

  /** As long as no loop was misled, after the first connect: down exactly when a thread is reconnecting. */
  lemma DownExactlyWhenReconnecting(states: seq<System>, steps: seq<Step>, n: nat)
    requires Run(states, steps) && n < |states|
    requires states[n].epoch > 0 && !states[n].shutdown && !states[n].leaving
    requires forall i :: 0 <= i < n ==> !Misled(states[i], steps[i])
    ensures states[n].live.None? <==> exists t :: MayDial(states[n], t)
  {
    RunAttended(states, steps, n);
    RunKeepsInv(states, steps, n);
  }

  // ---------------------------------------------------------------- what misleads a loop

  /** No session is lost between the moment it is made and the moment its flag is raised. */
  ghost predicate Calm(states: seq<System>, steps: seq<Step>)
    requires |states| == |steps| + 1
  {
    forall i :: 0 <= i < |steps| && steps[i].Lose? ==>
      forall t :: t in states[i].threads ==> !states[i].threads[t].Raising?
  }

  /** Raising follows connecting at once, and loops run with the flag down. */
  ghost predicate CalmInv(s: System) {
    !s.leaving && !s.shutdown ==>
      && (forall t :: t in s.threads && s.threads[t].Raising? ==> s.live == Some(s.threads[t].epoch))
      && (forall t :: MayDial(s, t) && !s.threads[t].Lowering? ==> !s.flag)
  }

  lemma RaiserStep(s: System, step: Step)
    requires Basic(s) && CalmInv(s) && Enabled(s, step)
    requires step.Lose? ==> forall t :: t in s.threads ==> !s.threads[t].Raising?
    requires !Apply(s, step).leaving && !Apply(s, step).shutdown
    ensures var s' := Apply(s, step);
      forall t :: t in s'.threads && s'.threads[t].Raising? ==> s'.live == Some(s'.threads[t].epoch)
  {
    if step.Advance? {
      assert ThreadOk(s, step.tid, s.threads[step.tid]);
      assert s.live.Some? ==> !MayDial(s, step.tid);
    }
  }

  lemma DialerStep(s: System, step: Step)
    requires Basic(s) && CalmInv(s) && Enabled(s, step)
    requires !Apply(s, step).leaving && !Apply(s, step).shutdown
    ensures var s' := Apply(s, step);
      forall t :: MayDial(s', t) && !s'.threads[t].Lowering? ==> !s'.flag
  {
    DialersShrink(s, step);
    if step.Advance? {
      assert s.live.Some? ==> !MayDial(s, step.tid);
    }
  }

  lemma StepKeepsCalm(s: System, step: Step)
    requires Basic(s) && CalmInv(s) && Enabled(s, step)
    requires step.Lose? ==> forall t :: t in s.threads ==> !s.threads[t].Raising?
    ensures CalmInv(Apply(s, step))
  {
    var s' := Apply(s, step);
    if !s'.leaving && !s'.shutdown {
      RaiserStep(s, step);
      DialerStep(s, step);
    }
  }

  lemma {:induction false} CalmRun(states: seq<System>, steps: seq<Step>, n: nat)
    requires Run(states, steps) && Calm(states, steps) && n < |states|
    ensures CalmInv(states[n])
  {
    if n == 0 {
    } else {
      CalmRun(states, steps, n - 1);
      RunKeepsInv(states, steps, n - 1);
      StepKeepsCalm(states[n - 1], steps[n - 1]);
    }
  }

  /** A loop is misled only in runs that lose a session whose flag was not up yet. */
  lemma MisledMeansEarlyLoss(states: seq<System>, steps: seq<Step>, i: nat)
    requires Run(states, steps) && i < |steps| && Misled(states[i], steps[i]) && !states[i].leaving
    ensures !Calm(states, steps)
  {
    if Calm(states, steps) {
      CalmRun(states, steps, i);
      assert MayDial(states[i], steps[i].tid);
    }
  }

  // ---------------------------------------------------------------- a client that is stuck

  lemma StuckStep(s: System, step: Step)
    requires Enabled(s, step) && (Stuck(s) || s.shutdown || s.leaving)
    ensures var s' := Apply(s, step); Stuck(s') || s'.shutdown || s'.leaving
  {
    DialersShrink(s, step);
  }

  /** Once stuck, the client never connects again: only shutting down ends it. */
  lemma {:induction false} StuckForever(states: seq<System>, steps: seq<Step>, n: nat, m: nat)
    requires Run(states, steps) && n <= m < |states| && Stuck(states[n])
    ensures Stuck(states[m]) || states[m].shutdown || states[m].leaving
  {
    if n == m {
    } else {
      StuckForever(states, steps, n, m - 1);
      StuckStep(states[m - 1], steps[m - 1]);
    }
  }

  /** Thread 0 is connect(), thread 1 the connection-lost callback and then its loop. */
  function ExampleThreads(i: nat): (Thread, Thread) {
    if i <= 1 then (Raising(1), Done)
    else if i == 2 then (Raising(1), Lowering)
    else if i == 3 then (Raising(1), Respawning)
    else if i == 4 then (Raising(1), Looping)
    else if i == 5 then (Locking(1), Looping)
    else (Locking(1), Done)
  }

  function ExampleState(i: nat): System {
    var (connector, loop) := ExampleThreads(i);
    System(if i == 1 then Some(1) else None, if i == 0 then 0 else 1, {}, i >= 5, false, false, [], None,
           if i == 0 then map[0 := Dialing(false)] else if i == 1 then map[0 := connector]
           else map[0 := connector, 1 := loop])
  }

  function ExampleStep(i: nat): Step {
    if i == 1 then Lose(1) else Advance(if i == 0 || i == 4 then 0 else 1, true)
  }

  lemma ExampleStepRuns(i: nat)
    requires i < 6
    ensures Enabled(ExampleState(i), ExampleStep(i))
    ensures Apply(ExampleState(i), ExampleStep(i)) == ExampleState(i + 1)
  {
  }

  /** Such runs exist: the late raise of the first connector makes the new loop believe it is connected. */
  lemma EarlyLossCanStick() returns (states: seq<System>, steps: seq<Step>)
    ensures Run(states, steps) && Stuck(states[|steps|]) && states[|steps|].flag
  {
    steps := seq(6, (i: nat) => ExampleStep(i));
    states := seq(7, (i: nat) => ExampleState(i));
    forall i | 0 <= i < 6
      ensures Enabled(states[i], steps[i]) && states[i + 1] == Apply(states[i], steps[i])
    {
      ExampleStepRuns(i);
    }
  }

  // ---------------------------------------------------------------- a client that comes back

  /** Thread `tid` runs alone, against a broker that accepts. */
  ghost predicate Alone(states: seq<System>, tid: nat) {
    && |states| > 0
    && forall i :: 0 <= i < |states| - 1 ==>
         Enabled(states[i], Advance(tid, true)) && states[i + 1] == Apply(states[i], Advance(tid, true))
  }

  lemma AloneFirst(s: System, tid: nat, rest: seq<System>)
    requires Enabled(s, Advance(tid, true)) && Alone(rest, tid) && rest[0] == Apply(s, Advance(tid, true))
    ensures Alone([s] + rest, tid)
  {
  }

  function Final(states: seq<System>): System
    requires |states| > 0
  {
    states[|states| - 1]
  }

  /** The session is up, its flag too, every recorded topic is subscribed, and the mutex is free. */
  ghost predicate Restored(s: System, epoch: nat, topics: seq<string>) {
    && s.live == Some(epoch) && s.flag && s.lock == None && s.topics == topics
    && forall i :: 0 <= i < |topics| ==> topics[i] in s.subscribed
  }

  ghost predicate ReplayedUpTo(s: System, tid: nat, epoch: nat, i: nat) {
    && tid in s.threads && s.threads[tid] == Replaying(epoch, i) && i <= |s.topics|
    && s.live == Some(epoch) && s.flag
    && forall k :: 0 <= k < i ==> s.topics[k] in s.subscribed
  }

  lemma {:induction false} ReplayEnds(s: System, tid: nat, epoch: nat, i: nat) returns (states: seq<System>)
    requires ReplayedUpTo(s, tid, epoch, i)
    ensures Alone(states, tid) && states[0] == s && Restored(Final(states), epoch, s.topics)
    decreases |s.topics| - i
  {
    var next := Apply(s, Advance(tid, true));
    if i == |s.topics| {
      states := [s, next];
    } else {
      var rest := ReplayEnds(next, tid, epoch, i + 1);
      AloneFirst(s, tid, rest);
      states := [s] + rest;
    }
  }

  /** How many steps a thread is from dialing. */
  function ToDial(pc: Thread): nat {
    if pc.Lowering? then 4 else if pc.Respawning? then 3 else if pc.Looping? then 2 else if pc.Sleeping? then 1 else 0
  }

  /** A thread with the right to dial, while the client is wanted and the flag is down, or about to be. */
  ghost predicate Comeback(s: System, tid: nat) {
    MayDial(s, tid) && !s.shutdown && s.lock == None && (!s.flag || s.threads[tid].Lowering?)
  }

  lemma ComebackStep(s: System, tid: nat)
    requires Comeback(s, tid) && !s.threads[tid].Dialing?
    ensures Enabled(s, Advance(tid, true))
    ensures var t := Apply(s, Advance(tid, true));
      && Comeback(t, tid) && t.topics == s.topics && t.epoch == s.epoch
      && ToDial(t.threads[tid]) < ToDial(s.threads[tid])
  {
  }

  /** The session is there, and the thread that made it is past the dial. */
  ghost predicate Connecting(s: System, tid: nat, epoch: nat, pc: Thread) {
    tid in s.threads && s.threads[tid] == pc && s.live == Some(epoch) && s.lock == None
  }

  lemma FromLocking(s: System, tid: nat, epoch: nat) returns (states: seq<System>)
    requires Connecting(s, tid, epoch, Locking(epoch)) && s.flag
    ensures Alone(states, tid) && states[0] == s && Restored(Final(states), epoch, s.topics)
  {
    var rest := ReplayEnds(Apply(s, Advance(tid, true)), tid, epoch, 0);
    AloneFirst(s, tid, rest);
    states := [s] + rest;
  }

  lemma FromRaising(s: System, tid: nat, epoch: nat) returns (states: seq<System>)
    requires Connecting(s, tid, epoch, Raising(epoch))
    ensures Alone(states, tid) && states[0] == s && Restored(Final(states), epoch, s.topics)
  {
    var rest := FromLocking(Apply(s, Advance(tid, true)), tid, epoch);
    AloneFirst(s, tid, rest);
    states := [s] + rest;
  }

  lemma FromDialing(s: System, tid: nat) returns (states: seq<System>)
    requires Comeback(s, tid) && s.threads[tid].Dialing?
    ensures Alone(states, tid) && states[0] == s && Restored(Final(states), s.epoch + 1, s.topics)
  {
    var rest := FromRaising(Apply(s, Advance(tid, true)), tid, s.epoch + 1);
    AloneFirst(s, tid, rest);
    states := [s] + rest;
  }

  /** The loop brings the client back: left alone with a broker that accepts, it restores the session. */
  lemma {:induction false} ComesBack(s: System, tid: nat) returns (states: seq<System>)
    requires Comeback(s, tid)
    ensures Alone(states, tid) && states[0] == s && Restored(Final(states), s.epoch + 1, s.topics)
    decreases ToDial(s.threads[tid])
  {
    if s.threads[tid].Dialing? {
      states := FromDialing(s, tid);
    } else {
      ComebackStep(s, tid);
      var rest := ComesBack(Apply(s, Advance(tid, true)), tid);
      AloneFirst(s, tid, rest);
      states := [s] + rest;
    }
  }

  // ---------------------------------------------------------------- shutting down and leaving

  predicate IsDialing(s: System, tid: nat) {
    tid in s.threads && s.threads[tid].Dialing?
  }

  /** At most one more session than `bound`, if a dial is under way. */
  ghost predicate EpochBelow(s: System, bound: nat) {
    s.epoch <= bound && (s.epoch == bound ==> forall t :: !IsDialing(s, t))
  }

  lemma DialsUnderShutdown(s: System, step: Step)
    requires s.shutdown && Enabled(s, step)
    ensures Apply(s, step).shutdown
    ensures forall t :: IsDialing(Apply(s, step), t) ==> IsDialing(s, t)
    ensures Apply(s, step).epoch != s.epoch ==>
      && Apply(s, step).epoch == s.epoch + 1
      && step.Advance? && IsDialing(s, step.tid) && !IsDialing(Apply(s, step), step.tid)
  {
  }

  lemma ShutdownStep(s: System, step: Step, bound: nat)
    requires OneReconnector(s) && s.shutdown && Enabled(s, step) && EpochBelow(s, bound)
    ensures Apply(s, step).shutdown && EpochBelow(Apply(s, step), bound)
    ensures forall t :: IsDialing(Apply(s, step), t) ==> IsDialing(s, t)
  {
    DialsUnderShutdown(s, step);
    var s' := Apply(s, step);
    if s'.epoch != s.epoch {
      forall t
        ensures !IsDialing(s', t)
      {
        assert MayDial(s, step.tid) && (IsDialing(s, t) ==> MayDial(s, t));
      }
    }
  }

  /** A shutdown is honoured: nobody starts to dial any more, and a dial already under way is the last session. */
  lemma {:induction false} ShutdownHonoured(states: seq<System>, steps: seq<Step>, i: nat, n: nat)
    requires Run(states, steps) && i <= n < |states| && states[i].shutdown
    ensures states[n].shutdown && forall t :: IsDialing(states[n], t) ==> IsDialing(states[i], t)
    ensures EpochBelow(states[n], if exists t :: IsDialing(states[i], t) then states[i].epoch + 1 else states[i].epoch)
  {
    if i == n {
    } else {
      ShutdownHonoured(states, steps, i, n - 1);
      RunKeepsInv(states, steps, n - 1);
      ShutdownStep(states[n - 1], steps[n - 1],
        if exists t :: IsDialing(states[i], t) then states[i].epoch + 1 else states[i].epoch);
    }
  }

  predicate InLoop(s: System, tid: nat) {
    tid in s.threads && (s.threads[tid].Looping? || s.threads[tid].Sleeping? || s.threads[tid].Dialing?)
  }

  predicate IsSleeping(s: System, tid: nat) {
    tid in s.threads && s.threads[tid].Sleeping?
  }

  lemma LoopsUnderShutdown(s: System, step: Step)
    requires s.shutdown && Enabled(s, step)
    ensures forall t :: InLoop(Apply(s, step), t) ==> InLoop(s, t)
    ensures forall t :: IsSleeping(Apply(s, step), t) ==> IsSleeping(s, t)
  {
  }

  /** After a shutdown no thread enters the reconnect loop, and none in it waits again. */
  lemma {:induction false} LoopsWindDown(states: seq<System>, steps: seq<Step>, i: nat, n: nat)
    requires Run(states, steps) && i <= n < |states| && states[i].shutdown
    ensures forall t :: InLoop(states[n], t) ==> InLoop(states[i], t)
    ensures forall t :: IsSleeping(states[n], t) ==> IsSleeping(states[i], t)
  {
    if i == n {
    } else {
      LoopsWindDown(states, steps, i, n - 1);
      ShutdownHonoured(states, steps, i, n - 1);
      LoopsUnderShutdown(states[n - 1], steps[n - 1]);
    }
  }

  /** Between `i` and `n` the session was ended. */
  ghost predicate Ended(states: seq<System>, i: nat, n: nat)
    requires n < |states|
  {
    exists j :: i < j <= n && states[j].live == None && states[j].subscribed == {}
  }

  /** After that the flag was lowered. */
  ghost predicate EndedThenLowered(states: seq<System>, i: nat, n: nat)
    requires n < |states|
  {
    exists k :: i < k <= n && !states[k].flag && Ended(states, i, k - 1)
  }

  lemma ClosingStep(s: System, step: Step, tid: nat)
    requires Enabled(s, step) && tid in s.threads
    ensures var t := Apply(s, step);
      && tid in t.threads
      && (s.threads[tid] == Closing && t.threads[tid] != Closing ==>
          t.threads[tid] == Clearing && t.live == None && t.subscribed == {})
      && (s.threads[tid] == Clearing && t.threads[tid] != Clearing ==> t.threads[tid] == Done && !t.flag)
      && (s.threads[tid] == Done ==> t.threads[tid] == Done)
  {
  }

  /** How far a disconnect that began at `i` and found the flag up has come. */
  ghost predicate Closed(states: seq<System>, i: nat, n: nat, pc: Thread)
    requires n < |states|
  {
    || pc == Closing
    || (pc == Clearing && Ended(states, i, n))
    || (pc == Done && EndedThenLowered(states, i, n))
  }

  lemma ClosedLonger(states: seq<System>, i: nat, n: nat, pc: Thread, pc': Thread)
    requires 0 < n < |states| && i < n && Closed(states, i, n - 1, pc)
    requires pc == Closing && pc' != Closing ==>
      pc' == Clearing && states[n].live == None && states[n].subscribed == {}
    requires pc == Clearing && pc' != Clearing ==> pc' == Done && !states[n].flag
    requires pc == Done ==> pc' == Done
    ensures Closed(states, i, n, pc')
  {
  }

  /** A disconnect that finds the flag up ends the session, then lowers the flag. */
  lemma {:induction false} DisconnectCloses(states: seq<System>, steps: seq<Step>, i: nat, n: nat, tid: nat)
    requires Run(states, steps) && i < n < |states| && steps[i] == Disconnect(tid) && states[i].flag
    ensures tid in states[n].threads && Closed(states, i, n, states[n].threads[tid])
  {
    if n == i + 1 {
    } else {
      DisconnectCloses(states, steps, i, n - 1, tid);
      ClosingStep(states[n - 1], steps[n - 1], tid);
      ClosedLonger(states, i, n, states[n - 1].threads[tid], states[n].threads[tid]);
    }
  }

  /** One that finds it down leaves the session alone. */
  lemma DisconnectWhenDown(s: System, tid: nat)
    requires Enabled(s, Disconnect(tid)) && !s.flag
    ensures Apply(s, Disconnect(tid)) == s.(leaving := true, threads := s.threads[tid := Done])
  {
  }

  // ---------------------------------------------------------------- the subscription mutex

  predicate Replays(s: System, tid: nat) {
    tid in s.threads && s.threads[tid].Replaying?
  }

  lemma OwnLockStep(s: System, tid: nat, connects: bool)
    requires Enabled(s, Advance(tid, connects)) && (s.lock == Some(tid) <==> Replays(s, tid))
    ensures Move(s, tid, connects).lock == Some(tid) <==> Replays(Move(s, tid, connects), tid)
  {
  }

  lemma LockStep(s: System, step: Step, tid: nat)
    requires Enabled(s, step) && (s.lock == Some(tid) <==> Replays(s, tid))
    requires step.Advance? ==> ThreadOk(s, step.tid, s.threads[step.tid])
    ensures Apply(s, step).lock == Some(tid) <==> Replays(Apply(s, step), tid)
  {
    if step.Advance? && step.tid == tid {
      OwnLockStep(s, tid, step.connects);
    }
  }

  /** The mutex is held by a thread exactly while it replays. */
  lemma {:induction false} LockedWhileReplaying(states: seq<System>, steps: seq<Step>, n: nat, tid: nat)
    requires Run(states, steps) && n < |states|
    ensures states[n].lock == Some(tid) <==> Replays(states[n], tid)
  {
    if n == 0 {
    } else {
      LockedWhileReplaying(states, steps, n - 1, tid);
      RunKeepsInv(states, steps, n - 1);
      LockStep(states[n - 1], steps[n - 1], tid);
    }
  }

  /** The list does not change under a replay. */
  lemma ListStaysUnderReplay(states: seq<System>, steps: seq<Step>, n: nat, tid: nat)
    requires Run(states, steps) && n < |steps|
    requires Replays(states[n], tid)
    ensures states[n + 1].topics == states[n].topics
  {
    LockedWhileReplaying(states, steps, n, tid);
  }

  /** The thread has still to record the topic, or the list has it. */
  predicate Records(s: System, tid: nat, topic: string) {
    tid in s.threads && (s.threads[tid] == Adding(topic) || topic in s.topics)
  }

  lemma RecordsStep(s: System, step: Step, tid: nat, topic: string)
    requires Enabled(s, step) && Records(s, tid, topic)
    ensures Records(Apply(s, step), tid, topic)
  {
  }

  /** A call of subscribe() that is past its first region has recorded the topic, for good. */
  lemma {:induction false} SubscribeRecords(states: seq<System>, steps: seq<Step>, i: nat, n: nat,
    tid: nat, topic: string)
    requires Run(states, steps) && i < n < |states| && steps[i] == Begin(tid, topic)
    ensures tid in states[n].threads && (states[n].threads[tid] == Adding(topic) || topic in states[n].topics)
  {
    if n == i + 1 {
    } else {
      SubscribeRecords(states, steps, i, n - 1, tid, topic);
      RecordsStep(states[n - 1], steps[n - 1], tid, topic);
    }
  }
}
