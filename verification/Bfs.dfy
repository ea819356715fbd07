/** Breadth-first search over an address graph given by an ordered neighbour list per address. */
module Bfs {
  import opened Domain

  /** The rows a search reads for one address, in query order. The graph may be infinite; each list is finite. */
  type Neighbours = Bytes -> seq<Bytes>

  /** The addresses at distance at most `k` from `start`. */
  ghost function Ball(nbr: Neighbours, start: Bytes, k: nat): set<Bytes>
  {
    if k == 0 then {start}
    else Ball(nbr, start, k - 1) + set a, b | a in Ball(nbr, start, k - 1) && b in nbr(a) :: b
  }

  ghost predicate IsPath(nbr: Neighbours, path: seq<Bytes>)
  {
    forall i, j :: 0 <= i < |path| && 0 <= j < |path| && j == i + 1 ==> path[j] in nbr(path[i])
  }

  ghost predicate PathTo(nbr: Neighbours, start: Bytes, x: Bytes, path: seq<Bytes>, k: nat)
  {
    0 < |path| <= k + 1 && path[0] == start && path[|path| - 1] == x && IsPath(nbr, path)
  }

  lemma {:induction false} BallGrows(nbr: Neighbours, start: Bytes, j: nat, k: nat)
    requires j <= k
    ensures Ball(nbr, start, j) <= Ball(nbr, start, k)
    decreases k
  {
    if j < k {
      BallGrows(nbr, start, j, k - 1);
    }
  }

  /** Membership in a ball is reachability by a path of at most that many edges. */
  lemma {:induction false} BallIsReachability(nbr: Neighbours, start: Bytes, x: Bytes, k: nat)
    ensures x in Ball(nbr, start, k) <==> exists path :: PathTo(nbr, start, x, path, k)
    decreases k
  {
    if x in Ball(nbr, start, k) {
      var path := PathInBall(nbr, start, x, k);
    }
    if path :| PathTo(nbr, start, x, path, k) {
      PathStaysInBall(nbr, start, path, k);
    }
  }

  lemma {:induction false} PathInBall(nbr: Neighbours, start: Bytes, x: Bytes, k: nat) returns (path: seq<Bytes>)
    requires x in Ball(nbr, start, k)
    ensures PathTo(nbr, start, x, path, k)
    decreases k
  {
    if k == 0 {
      path := [start];
    } else if x in Ball(nbr, start, k - 1) {
      path := PathInBall(nbr, start, x, k - 1);
    } else {
      var a :| a in Ball(nbr, start, k - 1) && x in nbr(a);
      path := PathInBall(nbr, start, a, k - 1);
      path := path + [x];
    }
  }

  lemma {:induction false} PathStaysInBall(nbr: Neighbours, start: Bytes, path: seq<Bytes>, k: nat)
    requires 0 < |path| <= k + 1 && path[0] == start && IsPath(nbr, path)
    ensures path[|path| - 1] in Ball(nbr, start, k)
    decreases k
  {
    if |path| == 1 {
      BallGrows(nbr, start, 0, k);
    } else {
      var front := path[..|path| - 1];
      PathStaysInBall(nbr, start, front, k - 1);
      assert path[|path| - 1] in nbr(path[|path| - 2]);
    }
  }

  // ----- visiting one address's rows -----

  ghost predicate Distinct(s: seq<Bytes>)
  {
    forall i, j :: 0 <= i < j < |s| ==> s[i] != s[j]
  }

  predicate Full(cap: Option<nat>, n: nat)
  {
    cap.Some? && n >= cap.value
  }

  /** The list after appending each row not yet in it, while it is below the cap. */
  function Extend(list: seq<Bytes>, rows: seq<Bytes>, cap: Option<nat>): seq<Bytes>
  {
    if rows == [] then list else
    var e := Extend(list, rows[..|rows| - 1], cap);
    if rows[|rows| - 1] in e || Full(cap, |e|) then e else e + [rows[|rows| - 1]]
  }

  lemma {:induction false} ExtendAdds(list: seq<Bytes>, rows: seq<Bytes>, cap: Option<nat>)
    requires Distinct(list)
    ensures var e := Extend(list, rows, cap);
      && list <= e && Distinct(e)
      && (forall k :: |list| <= k < |e| ==> e[k] in rows && e[k] !in list)
      && (!Full(cap, |e|) ==> forall x :: x in rows ==> x in e)
      && (cap.Some? && |list| <= cap.value ==> |e| <= cap.value)
  {
    if rows != [] {
      ExtendAdds(list, rows[..|rows| - 1], cap);
    }
  }

  /** A cap cuts the list short and changes nothing else. */
  lemma {:induction false} ExtendCapped(list: seq<Bytes>, rows: seq<Bytes>, cap: Option<nat>)
    ensures var e, all := Extend(list, rows, cap), Extend(list, rows, None);
      list <= e <= all && (!Full(cap, |e|) ==> e == all)
  {
    if rows != [] {
      ExtendCapped(list, rows[..|rows| - 1], cap);
    }
  }

  /** `x` occurs in the rows before position `j`. */
  ghost predicate OccursBefore(rows: seq<Bytes>, x: Bytes, j: nat)
  {
    exists i :: 0 <= i < j && i < |rows| && rows[i] == x
  }

  /** What is appended is appended in the order of the rows: an earlier entry occurs before any later one. */
  lemma {:induction false} ExtendKeepsOrder(
    list: seq<Bytes>, rows: seq<Bytes>, cap: Option<nat>, p: nat, q: nat, j: nat)
    requires Distinct(list) && |list| <= p < q < |Extend(list, rows, cap)|
    requires j < |rows| && rows[j] == Extend(list, rows, cap)[q]
    ensures OccursBefore(rows, Extend(list, rows, cap)[p], j)
  {
    var n := |rows| - 1;
    var front := rows[..n];
    var before := Extend(list, front, cap);
    ExtendAdds(list, front, cap);
    if q < |before| {
      if j < n {
        ExtendKeepsOrder(list, front, cap, p, q, j);
        assert OccursBefore(front, before[p], j);
      } else {
        assert before[p] in front;
      }
    } else {
      assert j == n;
      assert before[p] in front;
    }
  }

  lemma {:induction false} ExtendConcat(list: seq<Bytes>, a: seq<Bytes>, b: seq<Bytes>, cap: Option<nat>)
    ensures Extend(list, a + b, cap) == Extend(Extend(list, a, cap), b, cap)
  {
    if b == [] {
      assert a + b == a;
    } else {
      assert (a + b)[..|a + b| - 1] == a + b[..|b| - 1];
      ExtendConcat(list, a, b[..|b| - 1], cap);
    }
  }

  // ----- the order of discovery -----

  /** The rows of the listed addresses, one after the other. */
  function RowsOf(nbr: Neighbours, list: seq<Bytes>): seq<Bytes>
  {
    if list == [] then [] else RowsOf(nbr, list[..|list| - 1]) + nbr(list[|list| - 1])
  }

  /** Each address after the first is the next new one among the rows of those before it, in order. */
  ghost predicate InOrder(nbr: Neighbours, list: seq<Bytes>)
  {
    list != [] && forall k :: 0 < k < |list| ==> list[..k + 1] <= Extend([list[0]], RowsOf(nbr, list[..k]), None)
  }

  /** There is only one order: of two lists from the same start, the shorter begins the longer. */
  lemma {:induction false} OrderIsUnique(nbr: Neighbours, a: seq<Bytes>, b: seq<Bytes>)
    requires InOrder(nbr, a) && InOrder(nbr, b) && a[0] == b[0] && |a| <= |b|
    ensures a <= b
  {
    var k := |a| - 1;
    if k > 0 {
      var front := a[..k];
      forall i | 0 < i < k ensures front[..i + 1] <= Extend([front[0]], RowsOf(nbr, front[..i]), None) {
        assert front[..i + 1] == a[..i + 1] && front[..i] == a[..i];
      }
      OrderIsUnique(nbr, front, b);
      assert b[..k] == front;
      assert a[..k + 1] <= Extend([a[0]], RowsOf(nbr, front), None);
      assert b[..k + 1] <= Extend([a[0]], RowsOf(nbr, front), None);
      assert a == a[..k + 1];
      assert a[k] == b[..k + 1][k];
    }
  }

  lemma {:induction false} RowsConcat(nbr: Neighbours, a: seq<Bytes>, b: seq<Bytes>)
    ensures RowsOf(nbr, a + b) == RowsOf(nbr, a) + RowsOf(nbr, b)
  {
    if b == [] {
      assert a + b == a;
    } else {
      assert (a + b)[..|a + b| - 1] == a + b[..|b| - 1];
      RowsConcat(nbr, a, b[..|b| - 1]);
    }
  }

  /** More rows only append. */
  lemma {:induction false} MoreRows(nbr: Neighbours, start: Bytes, short: seq<Bytes>, long: seq<Bytes>)
    requires short <= long
    ensures Extend([start], RowsOf(nbr, short), None) <= Extend([start], RowsOf(nbr, long), None)
  {
    var more := long[|short|..];
    assert long == short + more;
    RowsConcat(nbr, short, more);
    ExtendConcat([start], RowsOf(nbr, short), RowsOf(nbr, more), None);
    ExtendCapped(Extend([start], RowsOf(nbr, short), None), RowsOf(nbr, more), None);
  }

  /** What a search has listed is what the rows of its expanded entries give, in order. */
  ghost predicate Listed(nbr: Neighbours, list: seq<Bytes>, i: nat, cap: Option<nat>)
  {
    i <= |list| && InOrder(nbr, list) && list == Extend([list[0]], RowsOf(nbr, list[..i]), cap)
  }

  /** The expanded entries' rows give the extended list. */
  lemma {:induction false} RowsAdvance(nbr: Neighbours, list: seq<Bytes>, i: nat, cap: Option<nat>, e: seq<Bytes>)
    requires list != [] && i < |list| && list == Extend([list[0]], RowsOf(nbr, list[..i]), cap)
    requires e == Extend(list, nbr(list[i]), cap)
    ensures list <= e && e == Extend([list[0]], RowsOf(nbr, list[..i + 1]), cap)
  {
    assert list[..i + 1][..i] == list[..i];
    ExtendConcat([list[0]], RowsOf(nbr, list[..i]), nbr(list[i]), cap);
    ExtendCapped(list, nbr(list[i]), cap);
  }

  lemma {:induction false} OrderAdvances(
    nbr: Neighbours, list: seq<Bytes>, upTo: seq<Bytes>, cap: Option<nat>, e: seq<Bytes>)
    requires InOrder(nbr, list) && upTo <= list <= e && e == Extend([list[0]], RowsOf(nbr, upTo), cap)
    ensures InOrder(nbr, e)
  {
    ExtendCapped([list[0]], RowsOf(nbr, upTo), cap);
    forall k | 0 < k < |e| ensures e[..k + 1] <= Extend([e[0]], RowsOf(nbr, e[..k]), None) {
      if k < |list| {
        assert e[..k + 1] == list[..k + 1] && e[..k] == list[..k];
      } else {
        assert upTo <= e[..k];
        MoreRows(nbr, list[0], upTo, e[..k]);
      }
    }
  }

  lemma {:induction false} ListedAdvances(nbr: Neighbours, list: seq<Bytes>, i: nat, cap: Option<nat>, e: seq<Bytes>)
    requires Listed(nbr, list, i, cap) && i < |list| && e == Extend(list, nbr(list[i]), cap)
    ensures Listed(nbr, e, i + 1, cap)
  {
    RowsAdvance(nbr, list, i, cap, e);
    OrderAdvances(nbr, list, list[..i + 1], cap, e);
    assert e[..i + 1] == list[..i + 1];
  }

  /** Entries appended to the queue at one depth. */
  function Enqueued(added: seq<Bytes>, depth: nat): seq<(Bytes, nat)>
  {
    seq(|added|, i requires 0 <= i < |added| => (added[i], depth))
  }

  function Elements(s: seq<Bytes>): set<Bytes>
  {
    set x | x in s
  }

  /** The row loop both searches share: skip what is visited or over the cap; otherwise mark, enqueue and record. */
  method Visit(
    visited: set<Bytes>, queue: seq<(Bytes, nat)>, list: seq<Bytes>, rows: seq<Bytes>, depth: nat, cap: Option<nat>)
    returns (visited': set<Bytes>, queue': seq<(Bytes, nat)>, list': seq<Bytes>)
    requires visited == Elements(list)
    ensures list' == Extend(list, rows, cap) && visited' == Elements(list')
    ensures list <= list' && queue' == queue + Enqueued(list'[|list|..], depth)
  {
    visited', queue', list' := visited, queue, list;
    for i := 0 to |rows|
      invariant list' == Extend(list, rows[..i], cap) && visited' == Elements(list')
      invariant list <= list' && queue' == queue + Enqueued(list'[|list|..], depth)
    {
      assert rows[..i + 1][..i] == rows[..i];
      if rows[i] !in visited' && !Full(cap, |list'|) {
        visited' := visited' + {rows[i]};
        queue' := queue' + [(rows[i], depth)];
        assert Enqueued((list' + [rows[i]])[|list|..], depth) == Enqueued(list'[|list|..], depth) + [(rows[i], depth)];
        list' := list' + [rows[i]];
      }
    }
    assert rows[..|rows|] == rows;
  }

  // ----- the search invariant -----

  /** Balls of growing radius, as one value. */
  type Balls = nat -> set<Bytes>

  ghost predicate Grows(ball: Balls)
  {
    forall j: nat, k: nat :: j <= k ==> ball(j) <= ball(k)
  }

  /** `outer` is `inner` with all its neighbours. */
  ghost predicate OneStep(nbr: Neighbours, inner: set<Bytes>, outer: set<Bytes>)
  {
    forall x :: x in outer <==> x in inner || exists a :: a in inner && x in nbr(a)
  }

  ghost function BallsFrom(nbr: Neighbours, start: Bytes): Balls
  {
    (k: nat) => Ball(nbr, start, k)
  }

  lemma {:induction false} BallsFromGrow(nbr: Neighbours, start: Bytes)
    ensures Grows(BallsFrom(nbr, start))
  {
    forall j: nat, k: nat | j <= k ensures BallsFrom(nbr, start)(j) <= BallsFrom(nbr, start)(k) {
      BallGrows(nbr, start, j, k);
    }
  }

  ghost predicate StepsAt(nbr: Neighbours, ball: Balls, k: nat)
  {
    OneStep(nbr, ball(k), ball(k + 1))
  }

  /** Each ball is the one before with all its neighbours. */
  ghost predicate Steps(nbr: Neighbours, ball: Balls)
  {
    forall k: nat :: StepsAt(nbr, ball, k)
  }

  lemma {:induction false} BallsFromStep(nbr: Neighbours, start: Bytes)
    ensures Steps(nbr, BallsFrom(nbr, start))
  {
    forall k: nat ensures StepsAt(nbr, BallsFrom(nbr, start), k) {
      assert BallsFrom(nbr, start)(k) == Ball(nbr, start, k);
      assert BallsFrom(nbr, start)(k + 1) == Ball(nbr, start, k + 1);
    }
  }

  /** `d` is the exact distance of `x`. */
  ghost predicate AtDistance(ball: Balls, x: Bytes, d: nat)
  {
    x in ball(d) && (d > 0 ==> x !in ball(d - 1))
  }

  ghost predicate Sorted(ds: seq<nat>)
  {
    forall j, k :: 0 <= j < k < |ds| ==> ds[j] <= ds[k]
  }

  /** All neighbours of `expanded` are among `listed`. */
  ghost predicate Closed(nbr: Neighbours, expanded: set<Bytes>, listed: set<Bytes>)
  {
    forall a, x :: a in expanded && x in nbr(a) ==> x in listed
  }

  /**
   * The discovered list with its distances, the first `i` entries already expanded: distances are
   * exact and ascending, expanded entries have all their neighbours listed, and every address no
   * farther than the next entry is listed.
   */
  ghost predicate Frontier(nbr: Neighbours, ball: Balls, list: seq<Bytes>, ds: seq<nat>, i: nat)
  {
    && 0 < |list| == |ds| && i <= |list| && ball(0) == {list[0]}
    && Distinct(list) && Sorted(ds)
    && (forall k :: 0 <= k < |list| ==> AtDistance(ball, list[k], ds[k]))
    && Closed(nbr, Elements(list[..i]), Elements(list))
    && (i < |list| ==> (forall k :: 0 <= k < |list| ==> ds[k] <= ds[i] + 1) && ball(ds[i]) <= Elements(list))
  }

  ghost function Depths(ds: seq<nat>, n: nat, d: nat): (r: seq<nat>)
    requires |ds| <= n
    ensures |r| == n && forall k :: 0 <= k < n ==> r[k] == if k < |ds| then ds[k] else d
  {
    seq(n, k requires 0 <= k => if k < |ds| then ds[k] else d)
  }

  /** With the ball of radius `d` expanded, the ball one larger is listed. */
  lemma {:induction false} NextBallListed(
    nbr: Neighbours, inner: set<Bytes>, outer: set<Bytes>, expanded: set<Bytes>, listed: set<Bytes>)
    requires OneStep(nbr, inner, outer) && inner <= expanded <= listed && Closed(nbr, expanded, listed)
    ensures outer <= listed
  {
  }

  /** If only the first `i` entries are within distance `d`, the ball of radius `d` is among them. */
  lemma {:induction false} BallExpanded(ball: Balls, list: seq<Bytes>, ds: seq<nat>, d: nat, i: nat)
    requires Grows(ball) && |list| == |ds| && i <= |list| && ball(d) <= Elements(list)
    requires forall k :: 0 <= k < |list| ==> AtDistance(ball, list[k], ds[k])
    requires forall k :: 0 <= k < |list| && ds[k] <= d ==> k < i
    ensures ball(d) <= Elements(list[..i])
  {
    forall y | y in ball(d) ensures y in list[..i] {
      var k :| 0 <= k < |list| && list[k] == y;
      assert AtDistance(ball, list[k], ds[k]);
      assert ds[k] <= d;
      assert list[..i][k] == y;
    }
  }

  /** `e` lists, after `list`, exactly the unlisted neighbours of its entry `i`. */
  ghost predicate Expands(nbr: Neighbours, list: seq<Bytes>, i: nat, e: seq<Bytes>)
    requires i < |list|
  {
    && list <= e && Distinct(e)
    && (forall k :: |list| <= k < |e| ==> e[k] in nbr(list[i]) && e[k] !in list)
    && (forall x :: x in nbr(list[i]) ==> x in e)
  }

  /** Newly listed neighbours of the expanded entry are exactly one farther than it. */
  lemma {:induction false} ExpandedDistances(
    nbr: Neighbours, ball: Balls, list: seq<Bytes>, ds: seq<nat>, i: nat, e: seq<Bytes>)
    requires Frontier(nbr, ball, list, ds, i) && i < |list| && Expands(nbr, list, i, e)
    requires StepsAt(nbr, ball, ds[i])
    ensures forall k :: 0 <= k < |e| ==> AtDistance(ball, e[k], Depths(ds, |e|, ds[i] + 1)[k])
  {
    forall k | 0 <= k < |e| ensures AtDistance(ball, e[k], Depths(ds, |e|, ds[i] + 1)[k]) {
      if k >= |list| {
        assert AtDistance(ball, list[i], ds[i]);
        assert e[k] !in ball(ds[i]);
      } else {
        assert e[k] == list[k];
      }
    }
  }

  lemma {:induction false} ExpandedClosed(nbr: Neighbours, list: seq<Bytes>, i: nat, e: seq<Bytes>)
    requires i < |list| && Closed(nbr, Elements(list[..i]), Elements(list)) && Expands(nbr, list, i, e)
    ensures Elements(list) <= Elements(e) && Closed(nbr, Elements(e[..i + 1]), Elements(e))
  {
    assert e[..i + 1] == list[..i] + [list[i]];
    assert forall x :: x in list ==> x in e;
  }

  lemma {:induction false} ExpandedDepths(ds: seq<nat>, i: nat, n: nat)
    requires Sorted(ds) && i < |ds| <= n && forall k :: 0 <= k < |ds| ==> ds[k] <= ds[i] + 1
    ensures var ds' := Depths(ds, n, ds[i] + 1);
      && Sorted(ds')
      && (forall k :: 0 <= k < n ==> ds'[k] <= ds[i] + 1)
      && (i + 1 < n ==> ds[i] <= ds'[i + 1])
      && (i + 1 < n && ds'[i + 1] > ds[i] ==> forall k :: 0 <= k < n && ds'[k] <= ds[i] ==> k < i + 1)
  {
  }

  lemma {:induction false} ExpandedHead(
    nbr: Neighbours, ball: Balls, list: seq<Bytes>, ds: seq<nat>, i: nat, e: seq<Bytes>)
    requires Frontier(nbr, ball, list, ds, i) && i + 1 < |e| && i < |list| && Expands(nbr, list, i, e)
    requires Grows(ball) && StepsAt(nbr, ball, ds[i])
    ensures ball(Depths(ds, |e|, ds[i] + 1)[i + 1]) <= Elements(e)
  {
    var ds' := Depths(ds, |e|, ds[i] + 1);
    ExpandedClosed(nbr, list, i, e);
    ExpandedDepths(ds, i, |e|);
    if ds'[i + 1] > ds[i] {
      assert ds'[i + 1] == ds[i] + 1;
      ExpandedDistances(nbr, ball, list, ds, i, e);
      BallExpanded(ball, e, ds', ds[i], i + 1);
      NextBallListed(nbr, ball(ds[i]), ball(ds[i] + 1), Elements(e[..i + 1]), Elements(e));
    }
  }

  /** Expanding the next entry keeps the invariant. */
  lemma {:induction false} FrontierAdvances(
    nbr: Neighbours, ball: Balls, list: seq<Bytes>, ds: seq<nat>, i: nat, e: seq<Bytes>)
    requires Frontier(nbr, ball, list, ds, i) && i < |list| && Expands(nbr, list, i, e)
    requires Grows(ball) && StepsAt(nbr, ball, ds[i])
    ensures Frontier(nbr, ball, e, Depths(ds, |e|, ds[i] + 1), i + 1)
  {
    ExpandedDistances(nbr, ball, list, ds, i, e);
    ExpandedClosed(nbr, list, i, e);
    ExpandedDepths(ds, i, |e|);
    if i + 1 < |e| {
      ExpandedHead(nbr, ball, list, ds, i, e);
    }
  }

  // ----- what a stopped search has listed -----

  lemma {:induction false} ListedWithin(nbr: Neighbours, ball: Balls, list: seq<Bytes>, ds: seq<nat>, i: nat, m: nat)
    requires Grows(ball) && Frontier(nbr, ball, list, ds, i) && forall k :: 0 <= k < |ds| ==> ds[k] <= m
    ensures Elements(list) <= ball(m)
  {
    forall x | x in list ensures x in ball(m) {
      var k :| 0 <= k < |list| && list[k] == x;
      assert AtDistance(ball, list[k], ds[k]);
    }
  }

  /** Once every entry is expanded, every ball is listed. */
  lemma {:induction false} ExhaustedListsAll(nbr: Neighbours, ball: Balls, listed: set<Bytes>, k: nat)
    requires Steps(nbr, ball) && ball(0) <= listed && Closed(nbr, listed, listed)
    ensures ball(k) <= listed
    decreases k
  {
    if k > 0 {
      ExhaustedListsAll(nbr, ball, listed, k - 1);
      assert StepsAt(nbr, ball, k - 1);
      NextBallListed(nbr, ball(k - 1), ball(k), listed, listed);
    }
  }

  /** A search may stop at an empty queue or at the first entry at the depth limit: the list is then the ball. */
  lemma {:induction false} StoppedAtBall(nbr: Neighbours, ball: Balls, list: seq<Bytes>, ds: seq<nat>, i: nat, m: nat)
    requires Grows(ball) && Steps(nbr, ball) && Frontier(nbr, ball, list, ds, i)
    requires forall k :: 0 <= k < |ds| ==> ds[k] <= m
    requires i == |list| || ds[i] == m
    ensures Elements(list) == ball(m)
  {
    ListedWithin(nbr, ball, list, ds, i, m);
    if i == |list| {
      assert list[..i] == list;
      ExhaustedListsAll(nbr, ball, Elements(list), m);
    }
  }

  lemma {:induction false} DistinctFits(s: seq<Bytes>, t: set<Bytes>)
    requires Distinct(s) && Elements(s) <= t
    ensures |s| <= |t|
  {
    if s != [] {
      var front, last := s[..|s| - 1], s[|s| - 1];
      assert last !in front;
      assert Elements(front) <= t - {last};
      DistinctFits(front, t - {last});
    }
  }
}
