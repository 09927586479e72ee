/** The sliding window of probes in NetworkScanner::scan(). Probes finish in any order, at any time. */
module ScanWindow {
  import opened Subnet

  const CONCURRENCY := 32

  /** How often `h` answers among the first `n` hosts, without the probes in `skip`. */
  ghost function Answers(hosts: seq<uint32>, live: uint32 -> bool, n: nat, skip: set<nat>, h: uint32): nat
    requires n <= |hosts|
  {
    if n == 0 then 0
    else Answers(hosts, live, n - 1, skip, h) + (if n - 1 !in skip && hosts[n - 1] == h && live(h) then 1 else 0)
  }

  /** The neighbours found are the answers of the first `n` probes without those in `skip`. */
  ghost predicate Found(neighbors: seq<uint32>, hosts: seq<uint32>, live: uint32 -> bool, n: nat, skip: set<nat>)
    requires n <= |hosts|
  {
    forall h :: multiset(neighbors)[h] == Answers(hosts, live, n, skip, h)
  }

  lemma {:induction false} SkipsAgree(hosts: seq<uint32>, live: uint32 -> bool, n: nat,
    a: set<nat>, b: set<nat>, h: uint32)
    requires n <= |hosts| && forall i: nat :: i < n ==> (i in a <==> i in b)
    ensures Answers(hosts, live, n, a, h) == Answers(hosts, live, n, b, h)
  {
    if n == 0 {
    } else {
      SkipsAgree(hosts, live, n - 1, a, b, h);
    }
  }

  /** A probe that finishes adds its host, if that is live. */
  lemma {:induction false} FinishAdds(hosts: seq<uint32>, live: uint32 -> bool, n: nat,
    skip: set<nat>, t: nat, h: uint32)
    requires t < n <= |hosts| && t in skip
    ensures Answers(hosts, live, n, skip - {t}, h) ==
      Answers(hosts, live, n, skip, h) + (if hosts[t] == h && live(h) then 1 else 0)
  {
    if t == n - 1 {
      SkipsAgree(hosts, live, t, skip - {t}, skip, h);
    } else {
      FinishAdds(hosts, live, n - 1, skip, t, h);
    }
  }

  lemma FinishKeeps(neighbors: seq<uint32>, hosts: seq<uint32>, live: uint32 -> bool, n: nat, skip: set<nat>, t: nat)
    requires t < n <= |hosts| && t in skip && Found(neighbors, hosts, live, n, skip)
    ensures Found(if live(hosts[t]) then neighbors + [hosts[t]] else neighbors, hosts, live, n, skip - {t})
  {
    forall h
      ensures multiset(if live(hosts[t]) then neighbors + [hosts[t]] else neighbors)[h] ==
        Answers(hosts, live, n, skip - {t}, h)
    {
      FinishAdds(hosts, live, n, skip, t, h);
    }
  }

  lemma LaunchKeeps(neighbors: seq<uint32>, hosts: seq<uint32>, live: uint32 -> bool, n: nat, skip: set<nat>)
    requires n < |hosts| && Found(neighbors, hosts, live, n, skip) && forall t :: t in skip ==> t < n
    ensures Found(neighbors, hosts, live, n + 1, skip + {n})
  {
    forall h
      ensures multiset(neighbors)[h] == Answers(hosts, live, n + 1, skip + {n}, h)
    {
      SkipsAgree(hosts, live, n, skip, skip + {n}, h);
    }
  }

  lemma PrefixGrows(hosts: seq<uint32>, n: nat)
    requires n < |hosts|
    ensures hosts[..n + 1] == hosts[..n] + [hosts[n]]
  {
  }

  class Scan {
    const hosts: seq<uint32>
    const live: uint32 -> bool
    /** How many probes were launched; probe `i` tries hosts[i]. */
    var launched: nat
    /** The futures in the window, oldest first. */
    var tasks: seq<nat>
    var unfinished: set<nat>
    var neighbors: seq<uint32>
    /** The hosts probed, in launch order, and the most probes ever unfinished at once. */
    ghost var probed: seq<uint32>
    ghost var peak: nat

    constructor (hosts: seq<uint32>, live: uint32 -> bool)
      ensures Valid() && launched == 0
      ensures this.hosts == hosts && this.live == live
    {
      this.hosts, this.live := hosts, live;
      launched, tasks, unfinished, neighbors := 0, [], {}, [];
      probed, peak := [], 0;
    }

    ghost predicate InWindow()
      reads this
    {
      && |tasks| <= launched
      && (forall k :: 0 <= k < |tasks| ==> tasks[k] == launched - |tasks| + k)
      && (forall t :: t in unfinished ==> launched - |tasks| <= t < launched)
    }

    ghost predicate Valid()
      reads this
    {
      && launched <= |hosts| && probed == hosts[..launched]
      && InWindow() && |tasks| <= CONCURRENCY
      && |unfinished| <= peak <= CONCURRENCY
      && Found(neighbors, hosts, live, launched, unfinished)
    }

    /** One probe finishes: under the mutex, its host joins the neighbours if it answered. */
    method Finish(t: nat)
      requires Valid() && t in unfinished
      modifies this`unfinished, this`neighbors
      ensures Valid() && unfinished == old(unfinished) - {t}
    {
      FinishKeeps(neighbors, hosts, live, launched, unfinished, t);
      if live(hosts[t]) {
        neighbors := neighbors + [hosts[t]];
      }
      unfinished := unfinished - {t};
    }

    /** Between two steps of the scanning thread, any probes finish. */
    method SomeFinish()
      requires Valid()
      modifies this`unfinished, this`neighbors
      ensures Valid() && unfinished <= old(unfinished)
    {
      while *
        invariant Valid() && unfinished <= old(unfinished)
        decreases |unfinished|
      {
        if unfinished == {} {
          break;
        }
        var t :| t in unfinished;
        Finish(t);
      }
    }

    /** The scanning thread waits for one probe, while any others finish. */
    method Wait(t: nat)
      requires Valid()
      modifies this`unfinished, this`neighbors
      ensures Valid() && unfinished <= old(unfinished) && t !in unfinished
    {
      while t in unfinished
        invariant Valid() && unfinished <= old(unfinished)
        decreases |unfinished|
      {
        var u :| u in unfinished;
        Finish(u);
      }
    }

    method MakeRoom()
      requires Valid()
      modifies this`tasks, this`unfinished, this`neighbors
      ensures Valid() && |tasks| < 32 && tasks == if |old(tasks)| < 32 then old(tasks) else old(tasks)[1..]
    {
      if |tasks| >= CONCURRENCY {
        Wait(tasks[0]);
        tasks := tasks[1..];
      }
    }

    method Launch()
      requires Valid() && |tasks| < CONCURRENCY && launched < |hosts|
      modifies this`launched, this`tasks, this`unfinished, this`probed, this`peak
      ensures Valid() && launched == old(launched) + 1
    {
      UnfinishedFit();
      LaunchKeeps(neighbors, hosts, live, launched, unfinished);
      PrefixGrows(hosts, launched);
      tasks := tasks + [launched];
      unfinished := unfinished + {launched};
      probed := probed + [hosts[launched]];
      launched := launched + 1;
      peak := if |unfinished| > peak then |unfinished| else peak;
    }

    /** Unfinished probes all have a future in the window. */
    lemma UnfinishedFit()
      requires InWindow()
      ensures |unfinished| <= |tasks|
    {
      WindowSize(unfinished, launched - |tasks|, launched);
    }

    method Drain()
      requires Valid()
      modifies this`unfinished, this`neighbors
      ensures Valid() && unfinished == {}
    {
      var k := 0;
      while k < |tasks|
        invariant Valid() && k <= |tasks|
        invariant forall j :: 0 <= j < k ==> tasks[j] !in unfinished
      {
        Wait(tasks[k]);
        k := k + 1;
      }
      assert forall t :: t in unfinished ==> t == tasks[t - (launched - |tasks|)];
    }

    method Probe()
      requires Valid() && launched < |hosts|
      modifies this
      ensures Valid() && launched == old(launched) + 1
    {
      SomeFinish();
      MakeRoom();
      SomeFinish();
      Launch();
    }

    /** `stop(i)` is what stop_requested_ reads before probe `i`. */
    method Run(stop: nat -> bool)
      requires Valid() && launched == 0
      modifies this
      ensures Valid() && unfinished == {} && forall i: nat :: i < launched ==> !stop(i)
      ensures launched < |hosts| ==> stop(launched)
      ensures peak <= 32
      ensures probed == hosts[..launched] && Found(neighbors, hosts, live, launched, {})
    {
      while launched < |hosts| && !stop(launched)
        invariant Valid() && forall i: nat :: i < launched ==> !stop(i)
        decreases |hosts| - launched
      {
        Probe();
      }
      Drain();
    }
  }

  lemma {:induction false} WindowSize(s: set<nat>, lo: nat, hi: nat)
    requires lo <= hi && forall t :: t in s ==> lo <= t < hi
    ensures |s| <= hi - lo
  {
    if lo < hi {
      WindowSize(s - {hi - 1}, lo, hi - 1);
    } else {
      assert s == {};
    }
  }

  ghost predicate Distinct(hosts: seq<uint32>) {
    forall i, j :: 0 <= i < j < |hosts| ==> hosts[i] != hosts[j]
  }

  /** Probing distinct hosts finds each live one once. */
  lemma {:induction false} AnswersOfDistinct(hosts: seq<uint32>, live: uint32 -> bool, n: nat, h: uint32)
    requires n <= |hosts| && Distinct(hosts)
    ensures Answers(hosts, live, n, {}, h) == if h in hosts[..n] && live(h) then 1 else 0
  {
    if n == 0 {
    } else {
      AnswersOfDistinct(hosts, live, n - 1, h);
      assert hosts[..n] == hosts[..n - 1] + [hosts[n - 1]];
    }
  }

  /** Each live address of the subnet of `ip` up to its `probes`-th usable one, once, and nothing else. */
  ghost predicate ExactlyTheLive(neighbors: seq<uint32>, ip: uint32, p: nat, live: uint32 -> bool, probes: nat)
    requires p <= 32
  {
    forall h: uint32 :: multiset(neighbors)[h] ==
      if Usable(h, ip, Mask(p)) && h <= And(ip, Mask(p)) + probes && live(h) then 1 else 0
  }

  /** `h` is among the first `n` addresses behind `net`, modulo 32 bits. */
  ghost predicate Behind(h: uint32, net: uint32, n: nat) {
    exists i: nat :: 1 <= i <= n && h == Host(net, i)
  }

  /** Each live address among the first `probes` behind the masked one, once, and nothing else. */
  ghost predicate LiveBehind(neighbors: seq<uint32>, net: uint32, live: uint32 -> bool, probes: nat) {
    forall h: uint32 :: multiset(neighbors)[h] == if Behind(h, net, probes) && live(h) then 1 else 0
  }

  /** How far a scan gets: through all hosts, or up to the first probe before which a stop is seen. */
  ghost predicate Stops(stop: nat -> bool, probes: nat, total: nat) {
    probes <= total && (forall i: nat :: i < probes ==> !stop(i)) && (probes < total ==> stop(probes))
  }

  /** One scan of the local network. */
  method ScanLocalNetwork(ip: uint32, msk: uint32, live: uint32 -> bool, stop: nat -> bool)
    returns (neighbors: seq<uint32>, ghost probes: nat, ghost prefix: nat)
    ensures LeadingOnes(msk, prefix)
    ensures 16 <= prefix <= 30 ==> Stops(stop, probes, Count(prefix))
    ensures 16 <= prefix <= 30 && msk == Mask(prefix) ==> ExactlyTheLive(neighbors, ip, prefix, live, probes)
    ensures 16 <= prefix <= 30 ==> And(ip, msk) <= ip && LiveBehind(neighbors, And(ip, msk), live, probes)
    ensures !(16 <= prefix <= 30) ==> neighbors == []
  {
    var hosts;
    hosts, prefix := ScanTargets(ip, msk);
    var scan := new Scan(hosts, live);
    scan.Run(stop);
    neighbors, probes := scan.neighbors, scan.launched;
    if 16 <= prefix <= 30 && msk == Mask(prefix) {
      FoundAll(neighbors, hosts, live, ip, prefix, probes);
    }
    if 16 <= prefix <= 30 {
      FoundBehind(neighbors, hosts, live, And(ip, msk), prefix, probes);
    }
    NothingFound(neighbors, hosts, live, probes);
  }

  lemma NothingFound(neighbors: seq<uint32>, hosts: seq<uint32>, live: uint32 -> bool, n: nat)
    requires n <= |hosts| && Found(neighbors, hosts, live, n, {})
    ensures hosts == [] ==> neighbors == []
  {
    HeadCounts(neighbors);
  }

  lemma HeadCounts(neighbors: seq<uint32>)
    ensures neighbors != [] ==> multiset(neighbors)[neighbors[0]] > 0
  {
  }

  lemma HostsDiffer(net: uint32, i: nat, j: nat)
    requires i < j < i + WORD
    ensures Host(net, i) != Host(net, j)
  {
  }

  lemma FollowersDistinct(hosts: seq<uint32>, net: uint32, p: nat)
    requires 16 <= p <= 30 && Follows(hosts, net, p)
    ensures Distinct(hosts)
  {
    CountBounds(p);
    forall i, j | 0 <= i < j < |hosts|
      ensures hosts[i] != hosts[j]
    {
      HostsDiffer(net, i + 1, j + 1);
    }
  }

  lemma FoundBehind(neighbors: seq<uint32>, hosts: seq<uint32>, live: uint32 -> bool, net: uint32, p: nat, n: nat)
    requires 16 <= p <= 30 && Follows(hosts, net, p) && n <= |hosts| && Found(neighbors, hosts, live, n, {})
    ensures LiveBehind(neighbors, net, live, n)
  {
    FollowersDistinct(hosts, net, p);
    forall h: uint32
      ensures multiset(neighbors)[h] == if Behind(h, net, n) && live(h) then 1 else 0
    {
      AnswersOfDistinct(hosts, live, n, h);
      AmongFollowers(hosts, net, p, n, h);
    }
  }

  lemma AmongFollowers(hosts: seq<uint32>, net: uint32, p: nat, n: nat, h: uint32)
    requires 16 <= p <= 30 && Follows(hosts, net, p) && n <= |hosts|
    ensures h in hosts[..n] <==> Behind(h, net, n)
  {
    if Behind(h, net, n) {
      var i: nat :| 1 <= i <= n && h == Host(net, i);
      assert hosts[..n][i - 1] == h;
    }
    forall i | 0 <= i < n && hosts[..n][i] == h
      ensures Behind(h, net, n)
    {
      assert h == Host(net, i + 1);
    }
  }

  lemma FoundAll(neighbors: seq<uint32>, hosts: seq<uint32>, live: uint32 -> bool, ip: uint32, p: nat, n: nat)
    requires 16 <= p <= 30 && CoversSubnet(hosts, ip, p) && n <= |hosts| && Found(neighbors, hosts, live, n, {})
    ensures ExactlyTheLive(neighbors, ip, p, live, n)
  {
    var net := And(ip, Mask(p));
    forall h: uint32
      ensures multiset(neighbors)[h] == if Usable(h, ip, Mask(p)) && h <= net + n && live(h) then 1 else 0
    {
      AnswersOfDistinct(hosts, live, n, h);
      AmongFirst(hosts, ip, p, n, h);
    }
  }

  lemma AmongFirst(hosts: seq<uint32>, ip: uint32, p: nat, n: nat, h: uint32)
    requires 16 <= p <= 30 && CoversSubnet(hosts, ip, p) && n <= |hosts|
    ensures h in hosts[..n] <==> Usable(h, ip, Mask(p)) && h <= And(ip, Mask(p)) + n
  {
    var net := And(ip, Mask(p));
    assert forall i :: 0 <= i < n ==> hosts[..n][i] == net + i + 1;
    assert forall g :: g in hosts[..n] ==> g in hosts;
    forall i | 0 <= i < |hosts| && hosts[i] == h && h <= net + n
      ensures h in hosts[..n]
    {
      assert hosts[..n][i] == h;
    }
  }
}
