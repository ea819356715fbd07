/** The two address searches: clusters around an address, and the interaction graph with a node limit. */
module Searches {
  import opened Domain
  import opened Bfs

  /** One address's rows: first the addresses it sent to, then those it received from. */
  function Both(sent: Neighbours, received: Neighbours): Neighbours
  {
    (a: Bytes) => sent(a) + received(a)
  }

  /** One transaction row leads from `a` to `b`: `a` sent to `b`, or received from it. */
  predicate Linked(sent: Neighbours, received: Neighbours, a: Bytes, b: Bytes)
  {
    b in sent(a) || b in received(a)
  }

  ghost predicate LinkedPath(
    sent: Neighbours, received: Neighbours, start: Bytes, x: Bytes, path: seq<Bytes>, k: nat)
  {
    && 0 < |path| <= k + 1 && path[0] == start && path[|path| - 1] == x
    && forall i, j :: 0 <= i < |path| && 0 <= j < |path| && j == i + 1 ==> Linked(sent, received, path[i], path[j])
  }

  /** `x` is at most `k` links away from `start`. */
  ghost predicate Within(sent: Neighbours, received: Neighbours, start: Bytes, x: Bytes, k: nat)
  {
    exists path :: LinkedPath(sent, received, start, x, path, k)
  }

  lemma {:induction false} BallIsWithin(sent: Neighbours, received: Neighbours, start: Bytes, x: Bytes, k: nat)
    ensures x in Ball(Both(sent, received), start, k) <==> Within(sent, received, start, x, k)
  {
    var nbr := Both(sent, received);
    BallIsReachability(nbr, start, x, k);
    if path :| PathTo(nbr, start, x, path, k) {
      assert LinkedPath(sent, received, start, x, path, k);
    }
    if path :| LinkedPath(sent, received, start, x, path, k) {
      assert PathTo(nbr, start, x, path, k);
    }
  }

  /** The queue holds the entries of the list from `i` on, with their distances. */
  ghost predicate Queued(queue: seq<(Bytes, nat)>, list: seq<Bytes>, ds: seq<nat>, i: nat)
  {
    && |list| == |ds| && i <= |list| && |queue| == |list| - i
    && forall k :: 0 <= k < |queue| ==> queue[k] == (list[i + k], ds[i + k])
  }

  lemma {:induction false} QueueAdvances(
    queue: seq<(Bytes, nat)>, list: seq<Bytes>, ds: seq<nat>, i: nat, e: seq<Bytes>, queue': seq<(Bytes, nat)>)
    requires Queued(queue, list, ds, i) && i < |list| && list <= e
    requires queue' == queue[1..] + Enqueued(e[|list|..], ds[i] + 1)
    ensures Queued(queue', e, Depths(ds, |e|, ds[i] + 1), i + 1)
  {
  }

  lemma {:induction false} TwoVisits(
    queue: seq<(Bytes, nat)>, list: seq<Bytes>, middle: seq<Bytes>, e: seq<Bytes>, d: nat)
    requires list <= middle <= e
    ensures queue + Enqueued(middle[|list|..], d) + Enqueued(e[|middle|..], d) == queue + Enqueued(e[|list|..], d)
  {
    assert Enqueued(middle[|list|..], d) + Enqueued(e[|middle|..], d) == Enqueued(e[|list|..], d);
  }

  /** Below the cap nothing was cut: the extended list is a full expansion. */
  lemma {:induction false} BelowCapExpands(nbr: Neighbours, list: seq<Bytes>, i: nat, cap: Option<nat>)
    requires i < |list| && Distinct(list) && !Full(cap, |Extend(list, nbr(list[i]), cap)|)
    ensures Expands(nbr, list, i, Extend(list, nbr(list[i]), cap))
  {
    ExtendAdds(list, nbr(list[i]), cap);
  }

  /** One turn of either search: pop the head, visit its rows of both kinds. */
  method Expand(sent: Neighbours, received: Neighbours, visited: set<Bytes>, queue: seq<(Bytes, nat)>, list: seq<Bytes>,
                cap: Option<nat>, ghost ds: seq<nat>, ghost i: nat)
    returns (visited': set<Bytes>, queue': seq<(Bytes, nat)>, list': seq<Bytes>)
    requires visited == Elements(list) && Queued(queue, list, ds, i) && i < |list|
    ensures visited' == Elements(list') && list <= list'
    ensures list' == Extend(list, sent(list[i]) + received(list[i]), cap)
    ensures Queued(queue', list', Depths(ds, |list'|, ds[i] + 1), i + 1)
  {
    var (current, depth) := queue[0];
    var rest := queue[1..];
    var visited1, queue1, list1 := Visit(visited, rest, list, sent(current), depth + 1, cap);
    visited', queue', list' := Visit(visited1, queue1, list1, received(current), depth + 1, cap);
    ExtendConcat(list, sent(current), received(current), cap);
    TwoVisits(rest, list, list1, list', depth + 1);
    QueueAdvances(queue, list, ds, i, list', queue');
  }

  // ----- clusters -----

  /** What the cluster search keeps: the frontier, and no entry beyond the depth. */
  ghost predicate Searching(nbr: Neighbours, start: Bytes, list: seq<Bytes>, ds: seq<nat>, i: nat, m: nat)
  {
    Frontier(nbr, BallsFrom(nbr, start), list, ds, i) && forall k :: 0 <= k < |ds| ==> ds[k] <= m
  }

  lemma {:induction false} ClusterStarts(nbr: Neighbours, start: Bytes, m: nat)
    ensures Searching(nbr, start, [start], [0], 0, m)
  {
  }

  lemma {:induction false} ClusterStep(
    nbr: Neighbours, start: Bytes, list: seq<Bytes>, ds: seq<nat>, i: nat, e: seq<Bytes>, m: nat)
    requires Searching(nbr, start, list, ds, i, m) && i < |list| && ds[i] < m
    requires e == Extend(list, nbr(list[i]), None)
    ensures list <= e && Searching(nbr, start, e, Depths(ds, |e|, ds[i] + 1), i + 1, m)
  {
    var ball := BallsFrom(nbr, start);
    BallsFromGrow(nbr, start);
    BallsFromStep(nbr, start);
    ExtendAdds(list, nbr(list[i]), None);
    BelowCapExpands(nbr, list, i, None);
    assert StepsAt(nbr, ball, ds[i]);
    FrontierAdvances(nbr, ball, list, ds, i, e);
  }

  /** The ball of the given depth bounds the search, however large the graph. */
  lemma {:induction false} ClusterBound(nbr: Neighbours, start: Bytes, list: seq<Bytes>, ds: seq<nat>, i: nat, m: nat)
    requires Searching(nbr, start, list, ds, i, m)
    ensures |list| <= |Ball(nbr, start, m)|
  {
    BallsFromGrow(nbr, start);
    ListedWithin(nbr, BallsFrom(nbr, start), list, ds, i, m);
    DistinctFits(list, Ball(nbr, start, m));
  }

  lemma {:induction false} ClusterStops(nbr: Neighbours, start: Bytes, list: seq<Bytes>, ds: seq<nat>, i: nat, m: nat)
    requires Searching(nbr, start, list, ds, i, m) && (i == |list| || ds[i] == m)
    ensures Distinct(list) && Elements(list) == Ball(nbr, start, m)
  {
    BallsFromGrow(nbr, start);
    BallsFromStep(nbr, start);
    StoppedAtBall(nbr, BallsFrom(nbr, start), list, ds, i, m);
  }

  /**
   * The cluster of an address: without repeats, in order of discovery, exactly the addresses at most
   * `maxDepth` links away; at a depth of zero or less, the address alone.
   */
  method FindClusters(sent: Neighbours, received: Neighbours, address: Bytes, maxDepth: int)
    returns (addresses: seq<Bytes>)
    ensures Distinct(addresses) && |addresses| > 0 && addresses[0] == address
    ensures maxDepth >= 0 ==> forall x :: x in addresses <==> Within(sent, received, address, x, maxDepth)
    ensures maxDepth <= 0 ==> addresses == [address]
    ensures InOrder(Both(sent, received), addresses)
  {
    ghost var nbr, m := Both(sent, received), if maxDepth <= 0 then 0 else maxDepth;
    var visited, queue := {address}, [(address, 0 as nat)];
    addresses := [address];
    ghost var ds: seq<nat>, i := [0], 0;
    ClusterStarts(nbr, address, m);
    ListStarts(nbr, address, None);
    while queue != []
      invariant visited == Elements(addresses) && Queued(queue, addresses, ds, i)
      invariant Searching(nbr, address, addresses, ds, i, m) && addresses[0] == address
      invariant Listed(nbr, addresses, i, None)
      invariant maxDepth <= 0 ==> addresses == [address] && i == 0
      decreases |Ball(nbr, address, m)| - i
    {
      ClusterBound(nbr, address, addresses, ds, i, m);
      var depth := queue[0].1;
      if depth >= maxDepth {
        break;
      }
      ghost var list := addresses;
      visited, queue, addresses := Expand(sent, received, visited, queue, addresses, None, ds, i);
      ClusterStep(nbr, address, list, ds, i, addresses, m);
      ListedAdvances(nbr, list, i, None, addresses);
      ds, i := Depths(ds, |addresses|, ds[i] + 1), i + 1;
    }
    ClusterStops(nbr, address, addresses, ds, i, m);
    forall x ensures x in addresses <==> Within(sent, received, address, x, m) {
      BallIsWithin(sent, received, address, x, m);
    }
  }

  lemma {:induction false} ListStarts(nbr: Neighbours, start: Bytes, cap: Option<nat>)
    ensures Listed(nbr, [start], 0, cap)
  {
  }

  // ----- the interaction graph -----

  /** All of one ball is listed and nothing beyond the next. */
  ghost predicate Shell(ball: Balls, list: seq<Bytes>, d: nat)
  {
    ball(d) <= Elements(list) <= ball(d + 1)
  }

  lemma {:induction false} ShellAfterVisit(
    nbr: Neighbours, ball: Balls, list: seq<Bytes>, ds: seq<nat>, i: nat, cap: Option<nat>, e: seq<Bytes>)
    requires Grows(ball) && Steps(nbr, ball) && Frontier(nbr, ball, list, ds, i) && i < |list|
    requires e == Extend(list, nbr(list[i]), cap)
    ensures Shell(ball, e, ds[i])
  {
    ExtendAdds(list, nbr(list[i]), cap);
    ListedWithin(nbr, ball, list, ds, i, ds[i] + 1);
    assert StepsAt(nbr, ball, ds[i]) && AtDistance(ball, list[i], ds[i]);
    assert forall x :: x in list ==> x in e;
    forall x | x in e ensures x in ball(ds[i] + 1) {
      var k :| 0 <= k < |e| && e[k] == x;
      if k < |list| {
        assert x == list[k] && x in Elements(list);
      }
    }
  }

  /** No listed address is farther than an unlisted one. */
  ghost predicate ClosestFirst(ball: Balls, list: seq<Bytes>)
  {
    forall k: nat, x :: x in ball(k) && x !in list ==> Elements(list) <= ball(k)
  }

  lemma {:induction false} ShellIsClosestFirst(ball: Balls, list: seq<Bytes>, d: nat)
    requires Grows(ball) && Shell(ball, list, d)
    ensures ClosestFirst(ball, list)
  {
    forall k: nat, x | x in ball(k) && x !in list ensures Elements(list) <= ball(k) {
      assert k > d;
    }
  }

  /**
   * The graph's nodes: distinct, without the centre, at most `limit`, all at most `depth` links away,
   * closest first and in order of discovery; and, below the limit, everything within `depth` but the centre.
   */
  method BuildGraph(sent: Neighbours, received: Neighbours, center: Bytes, depth: nat, limit: nat)
    returns (nodes: seq<Bytes>)
    ensures Distinct(nodes) && center !in nodes && |nodes| <= limit
    ensures forall x :: x in nodes ==> Within(sent, received, center, x, depth)
    ensures |nodes| < limit ==> forall x :: x in nodes <==> x != center && Within(sent, received, center, x, depth)
    ensures forall k: nat, x, y :: Within(sent, received, center, x, k) && x != center && x !in nodes && y in nodes ==>
              Within(sent, received, center, y, k)
    ensures InOrder(Both(sent, received), [center] + nodes)
  {
    var list := Discover(sent, received, center, depth, limit);
    nodes := list[1..];
    assert list == [center] + nodes;
    assert Elements(list) == {center} + Elements(nodes);
    ghost var nbr := Both(sent, received);
    forall x ensures x in Ball(nbr, center, depth) <==> Within(sent, received, center, x, depth) {
      BallIsWithin(sent, received, center, x, depth);
    }
    GraphClosestFirst(sent, received, center, list);
  }

  /** Closest first, in terms of links. */
  lemma {:induction false} GraphClosestFirst(sent: Neighbours, received: Neighbours, center: Bytes, list: seq<Bytes>)
    requires ClosestFirst(BallsFrom(Both(sent, received), center), list)
    ensures forall k: nat, x, y :: Within(sent, received, center, x, k) && x !in list && y in list ==>
              Within(sent, received, center, y, k)
  {
    forall k: nat, x, y | Within(sent, received, center, x, k) && x !in list && y in list
      ensures Within(sent, received, center, y, k)
    {
      BallIsWithin(sent, received, center, x, k);
      BallIsWithin(sent, received, center, y, k);
      assert x in BallsFrom(Both(sent, received), center)(k);
      assert y in Elements(list);
    }
  }

  /** With the same depth, a graph's nodes are the first of the cluster's addresses after the centre. */
  lemma {:induction false} GraphBeginsCluster(
    sent: Neighbours, received: Neighbours, center: Bytes, nodes: seq<Bytes>, addresses: seq<Bytes>)
    requires InOrder(Both(sent, received), [center] + nodes)
    requires InOrder(Both(sent, received), addresses) && addresses[0] == center
    requires Distinct([center] + nodes) && forall x :: x in nodes ==> x in addresses
    ensures [center] + nodes <= addresses
  {
    var list := [center] + nodes;
    DistinctFits(list, Elements(addresses));
    ElementsFit(addresses);
    OrderIsUnique(Both(sent, received), list, addresses);
  }

  lemma {:induction false} ElementsFit(s: seq<Bytes>)
    ensures |Elements(s)| <= |s|
  {
    if s != [] {
      var front := s[..|s| - 1];
      ElementsFit(front);
      assert Elements(s) == Elements(front) + {s[|s| - 1]};
    }
  }

  /** The search itself; the centre heads the list. */
  method Discover(
    sent: Neighbours, received: Neighbours, center: Bytes, depth: nat, limit: nat) returns (list: seq<Bytes>)
    ensures Distinct(list) && 0 < |list| <= limit + 1 && list[0] == center
    ensures Elements(list) <= Ball(Both(sent, received), center, depth)
    ensures |list| <= limit ==> Elements(list) == Ball(Both(sent, received), center, depth)
    ensures ClosestFirst(BallsFrom(Both(sent, received), center), list) && InOrder(Both(sent, received), list)
  {
    ghost var nbr := Both(sent, received);
    var visited, queue := {center}, [(center, 0 as nat)];
    list := [center];
    ghost var ds: seq<nat>, i := [0], 0;
    GraphStarts(nbr, center, limit, depth);
    ListStarts(nbr, center, Some(limit + 1));
    while queue != []
      invariant visited == Elements(list) && Queued(queue, list, ds, i)
      invariant Listed(nbr, list, i, Some(limit + 1))
      invariant Growing(nbr, center, list, ds, i, limit, depth)
      decreases |Ball(nbr, center, depth)| - i
    {
      DistinctFits(list, Ball(nbr, center, depth));
      var currentDepth := queue[0].1;
      if currentDepth >= depth || |list| - 1 >= limit {
        break;
      }
      ghost var before := list;
      visited, queue, list := Expand(sent, received, visited, queue, list, Some(limit + 1), ds, i);
      GraphStep(nbr, center, before, ds, i, limit, depth, list);
      ListedAdvances(nbr, before, i, Some(limit + 1), list);
      ds, i := Depths(ds, |list|, ds[i] + 1), i + 1;
    }
    GraphStops(nbr, center, list, ds, i, limit, depth);
  }

  /**
   * What the graph search keeps: an honest frontier while below the limit, and at all times a list
   * within depth, within the limit and closest first.
   */
  ghost predicate Growing(
    nbr: Neighbours, center: Bytes, list: seq<Bytes>, ds: seq<nat>, i: nat, limit: nat, depth: nat)
  {
    && Distinct(list) && 0 < |list| <= limit + 1 && list[0] == center
    && (|list| <= limit ==> Searching(nbr, center, list, ds, i, depth))
    && Elements(list) <= Ball(nbr, center, depth) && ClosestFirst(BallsFrom(nbr, center), list)
  }

  lemma {:induction false} GraphStarts(nbr: Neighbours, center: Bytes, limit: nat, depth: nat)
    ensures Growing(nbr, center, [center], [0], 0, limit, depth)
  {
    ClusterStarts(nbr, center, depth);
    BallsFromGrow(nbr, center);
    BallGrows(nbr, center, 0, depth);
    BallGrows(nbr, center, 0, 1);
    ShellIsClosestFirst(BallsFrom(nbr, center), [center], 0);
  }

  lemma {:induction false} GraphVisit(
    nbr: Neighbours, ball: Balls, list: seq<Bytes>, ds: seq<nat>, i: nat, limit: nat, depth: nat, e: seq<Bytes>)
    requires Grows(ball) && Steps(nbr, ball) && Frontier(nbr, ball, list, ds, i) && i < |list| <= limit
    requires ds[i] < depth && e == Extend(list, nbr(list[i]), Some(limit + 1))
    ensures list <= e && Distinct(e) && |e| <= limit + 1
    ensures |e| <= limit ==> Frontier(nbr, ball, e, Depths(ds, |e|, ds[i] + 1), i + 1)
    ensures Elements(e) <= ball(depth) && ClosestFirst(ball, e)
  {
    ExtendAdds(list, nbr(list[i]), Some(limit + 1));
    ShellAfterVisit(nbr, ball, list, ds, i, Some(limit + 1), e);
    ShellIsClosestFirst(ball, e, ds[i]);
    assert ball(ds[i] + 1) <= ball(depth);
    if |e| <= limit {
      BelowCapExpands(nbr, list, i, Some(limit + 1));
      assert StepsAt(nbr, ball, ds[i]);
      FrontierAdvances(nbr, ball, list, ds, i, e);
    }
  }

  lemma {:induction false} GraphStep(
    nbr: Neighbours, center: Bytes, list: seq<Bytes>, ds: seq<nat>, i: nat, limit: nat, depth: nat, e: seq<Bytes>)
    requires Growing(nbr, center, list, ds, i, limit, depth) && |ds| == |list| && i < |list| <= limit
    requires ds[i] < depth && e == Extend(list, nbr(list[i]), Some(limit + 1)) && |list| <= |e|
    ensures Growing(nbr, center, e, Depths(ds, |e|, ds[i] + 1), i + 1, limit, depth)
  {
    BallsFromGrow(nbr, center);
    BallsFromStep(nbr, center);
    GraphVisit(nbr, BallsFrom(nbr, center), list, ds, i, limit, depth, e);
  }

  lemma {:induction false} GraphStops(
    nbr: Neighbours, center: Bytes, list: seq<Bytes>, ds: seq<nat>, i: nat, limit: nat, depth: nat)
    requires Growing(nbr, center, list, ds, i, limit, depth) && |ds| == |list| && i <= |list|
    requires i == |list| || |list| > limit || ds[i] >= depth
    ensures |list| <= limit ==> Elements(list) == Ball(nbr, center, depth)
  {
    if |list| <= limit {
      ClusterStops(nbr, center, list, ds, i, depth);
    }
  }
}
