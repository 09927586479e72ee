/** The MQTT client as one thread sees it: subscription list, connect, and the reconnect loop. */
module MqttClient {
  import opened Backoff

  /** Topic and QoS. */
  type Subscription = (string, int)

  predicate Registered(subscriptions: seq<Subscription>, topic: string) {
    exists i :: 0 <= i < |subscriptions| && subscriptions[i].0 == topic
  }

  ghost predicate DistinctTopics(subscriptions: seq<Subscription>) {
    forall i, j :: 0 <= i < j < |subscriptions| ==> subscriptions[i].0 != subscriptions[j].0
  }

  /** The Paho handle: arbitrary answers to connects; sessions are clean, and live until lost. */
  class Paho {
    const accepts: nat -> bool
    var dials: nat
    var live: bool
    var granted: seq<Subscription>

    constructor (accepts: nat -> bool)
      ensures this.accepts == accepts && dials == 0 && !live && granted == []
    {
      this.accepts, dials, live, granted := accepts, 0, false, [];
    }

    method Connect() returns (ok: bool)
      modifies this
      ensures ok == accepts(old(dials)) && dials == old(dials) + 1
      ensures ok ==> live && granted == []
      ensures !ok ==> live == old(live) && granted == old(granted)
    {
      ok := accepts(dials);
      dials := dials + 1;
      if ok {
        live, granted := true, [];
      }
    }

    method Subscribe(topic: string, qos: int) returns (ok: bool)
      modifies this`granted
      ensures ok == live
      ensures granted == if live then old(granted) + [(topic, qos)] else old(granted)
    {
      ok := live;
      if live {
        granted := granted + [(topic, qos)];
      }
    }
  }

  class MqttClientWrapper {
    const client: Paho
    const minSec: int
    const maxSec: int
    var connected: bool
    var subscriptions: seq<Subscription>

    ghost predicate Valid()
      reads this
    {
      DistinctTopics(subscriptions)
    }

    constructor (client: Paho, minSec: int, maxSec: int)
      ensures Valid() && this.client == client && this.minSec == minSec && this.maxSec == maxSec
      ensures !connected && subscriptions == []
    {
      this.client, this.minSec, this.maxSec := client, minSec, maxSec;
      connected, subscriptions := false, [];
    }

    method IsConnected() returns (ok: bool)
      ensures ok == (connected && client.live)
    {
      ok := connected && client.live;
    }

    /** A topic is remembered, once and with its first QoS, whether or not it can be subscribed now. */
    method Subscribe(topic: string, qos: int) returns (ok: bool)
      requires Valid()
      modifies this`subscriptions, client`granted
      ensures Valid()
      ensures Registered(subscriptions, topic)
      ensures subscriptions == if Registered(old(subscriptions), topic) then old(subscriptions)
                               else old(subscriptions) + [(topic, qos)]
      ensures ok == (connected && client.live)
      ensures client.granted == if ok then old(client.granted) + [(topic, qos)] else old(client.granted)
    {
      var i := 0;
      while i < |subscriptions| && subscriptions[i].0 != topic
        invariant i <= |subscriptions|
        invariant forall j :: 0 <= j < i ==> subscriptions[j].0 != topic
      {
        i := i + 1;
      }
      if i == |subscriptions| {
        subscriptions := subscriptions + [(topic, qos)];
        assert subscriptions[i].0 == topic;
      }
      ok := IsConnected();
      if ok {
        ok := client.Subscribe(topic, qos);
      }
    }

    method Resubscribe()
      requires client.live
      modifies client`granted
      ensures client.granted == old(client.granted) + subscriptions
    {
      for i := 0 to |subscriptions|
        invariant client.granted == old(client.granted) + subscriptions[..i]
      {
        var _ := client.Subscribe(subscriptions[i].0, subscriptions[i].1);
        assert subscriptions[..i + 1] == subscriptions[..i] + [subscriptions[i]];
      }
      assert subscriptions[..|subscriptions|] == subscriptions;
    }

    method Connect() returns (ok: bool)
      modifies this`connected, client
      ensures ok == client.accepts(old(client.dials)) && client.dials == old(client.dials) + 1
      ensures ok ==> connected && client.live && client.granted == subscriptions
      ensures !ok ==> connected == old(connected) && client.live == old(client.live)
    {
      ok := client.Connect();
      if ok {
        connected := true;
        Resubscribe();
      }
    }

    /**
     Dials until the broker accepts or a shutdown is seen, waiting before each dial. `stops`
     gives the answers of the shutdown flag: one read per loop test, one after each wait.
     The number of attempts, the waits and the subscriptions of the new session are exact.
     `last` bounds the attempts: without a broker that ever answers the loop is meant to run on.
     */
    method ReconnectLoop(stops: nat -> bool, ghost last: nat) returns (waits: seq<int>, ghost seen: nat)
      requires FitsInt32(1024 * minSec)
      requires client.accepts(client.dials + last) || stops(2 * last)
      modifies this`connected, client
      ensures |waits| <= last + 1 && Waited(waits, minSec, maxSec)
      ensures old(connected) ==> connected && waits == [] && client.dials == old(client.dials)
      ensures connected && !old(connected) ==>
        && Joined(stops, client.accepts, old(client.dials), client.dials, |waits|)
        && client.live && client.granted == subscriptions
      ensures !connected ==>
        seen <= 2 * last + 1 && Stopped(stops, client.accepts, old(client.dials), client.dials, |waits|, seen)
    {
      ghost var first := client.dials;
      var attempt: nat := 0;
      waits, seen := [], 0;
      while !stops(2 * attempt) && !connected
        invariant connected == old(connected) && client.dials == first + attempt && attempt == |waits| <= last
        invariant connected ==> attempt == 0
        invariant Waited(waits, minSec, maxSec) && InVain(stops, client.accepts, first, attempt)
        decreases last - attempt
      {
        OneMoreWait(waits, minSec, maxSec);
        OneMoreDial(stops, client.accepts, first, attempt);
        waits := waits + [Delay(minSec, maxSec, attempt)];
        seen := 2 * attempt + 1;
        if stops(2 * attempt + 1) {
          return;
        }
        var ok := Connect();
        if ok {
          return;
        }
        attempt := attempt + 1;
      }
      seen := 2 * attempt;
    }
  }

  /** The waits are the delays of attempts 0, 1, 2 and so on. */
  ghost predicate Waited(waits: seq<int>, minSec: int, maxSec: int) {
    forall i :: 0 <= i < |waits| ==> waits[i] == Delay(minSec, maxSec, i)
  }

  lemma OneMoreWait(waits: seq<int>, minSec: int, maxSec: int)
    requires Waited(waits, minSec, maxSec)
    ensures Waited(waits + [Delay(minSec, maxSec, |waits|)], minSec, maxSec)
  {
  }

  /** `n` attempts have failed, with no shutdown seen. */
  ghost predicate InVain(stops: nat -> bool, accepts: nat -> bool, first: nat, n: nat) {
    Refused(accepts, first, first + n) && Unstopped(stops, 2 * n)
  }

  /** The last of the dials was accepted, the others not; there was one wait before each, and no shutdown was seen. */
  ghost predicate Joined(stops: nat -> bool, accepts: nat -> bool, first: nat, dials: nat, waits: nat) {
    && waits > 0 && dials == first + waits && accepts(dials - 1) && Refused(accepts, first, dials - 1)
    && Unstopped(stops, 2 * waits)
  }

  /** All dials were refused; read `seen` of the flag was the first to see a shutdown, maybe after one more wait. */
  ghost predicate Stopped(stops: nat -> bool, accepts: nat -> bool, first: nat, dials: nat, waits: nat, seen: nat) {
    && first <= dials <= first + waits <= dials + 1 && waits + dials == seen + first
    && Refused(accepts, first, dials) && Unstopped(stops, seen) && stops(seen)
  }

  lemma OneMoreDial(stops: nat -> bool, accepts: nat -> bool, first: nat, n: nat)
    requires InVain(stops, accepts, first, n) && !stops(2 * n)
    ensures if stops(2 * n + 1) then Stopped(stops, accepts, first, first + n, n + 1, 2 * n + 1)
      else if accepts(first + n) then Joined(stops, accepts, first, first + n + 1, n + 1)
      else InVain(stops, accepts, first, n + 1)
  {
  }

  /** None of the first `n` reads of the flag saw a shutdown. */
  ghost predicate Unstopped(stops: nat -> bool, n: nat) {
    forall k: nat :: k < n ==> !stops(k)
  }

  /** The broker turns these dials down. */
  ghost predicate Refused(accepts: nat -> bool, first: nat, end: nat) {
    forall k: nat :: first <= k < end ==> !accepts(k)
  }
}
