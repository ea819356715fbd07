/** Reorg detection and the walk back to an ancestor. */
module Reorg {
  import opened Domain
  import opened Chain
  import opened Store

  datatype ReorgError = DepthExceeded(depth: nat, maxDepth: nat) | RpcFailed

  datatype Found<+T> = Found(value: T) | Failed(error: ReorgError)

  /** Read back by `last_indexed_block`; an absent cursor reads as the empty byte string. */
  function CursorHash(c: Cursor): Bytes
  {
    if c.At? then c.hash else []
  }

  /** The answer to the i-th call of a walk. The remote may change between calls; a missing answer is a failed call. */
  function Answer(walk: seq<Option<Block>>, i: nat): Option<Block>
  {
    if i < |walk| then walk[i] else None
  }

  /** The walk from its `depth`-th call on. */
  function Walk(walk: seq<Option<Block>>, stored: Bytes, start: nat, maxDepth: nat, depth: nat): Found<nat>
    requires depth <= maxDepth + 1
    decreases maxDepth + 1 - depth
  {
    if depth == maxDepth + 1 then Failed(DepthExceeded(maxDepth + 1, maxDepth))
    else if start < depth then Failed(DepthExceeded(depth, maxDepth))
    else if Answer(walk, depth).None? then Failed(RpcFailed)
    else if start - depth == 0 || stored == Answer(walk, depth).value.hash then Found(start - depth)
    else Walk(walk, stored, start, maxDepth, depth + 1)
  }

  method FindAncestor(walk: seq<Option<Block>>, cursor: Cursor, start: nat, maxDepth: nat) returns (r: Found<nat>)
    ensures r == Walk(walk, CursorHash(cursor), start, maxDepth, 0)
  {
    for depth := 0 to maxDepth + 1
      invariant Walk(walk, CursorHash(cursor), start, maxDepth, 0)
             == Walk(walk, CursorHash(cursor), start, maxDepth, depth)
    {
      if start < depth {
        return Failed(DepthExceeded(depth, maxDepth));
      }
      var blockNumber := start - depth;
      var block := Answer(walk, depth);
      if block.None? {
        return Failed(RpcFailed);
      }
      if blockNumber == 0 || CursorHash(cursor) == block.value.hash {
        return Found(blockNumber);
      }
    }
    r := Failed(DepthExceeded(maxDepth + 1, maxDepth));
  }

  /** None: no reorg; Some(a): roll back to a. */
  function Detected(
    walk: seq<Option<Block>>, cursor: Cursor, incoming: nat, parentHash: B256, maxDepth: nat): Found<Option<nat>>
  {
    if incoming == 0 then Found(None)
    else if incoming - 1 == 0 || CursorHash(cursor) == parentHash then Found(None)
    else
      match Walk(walk, CursorHash(cursor), incoming - 1, maxDepth, 0)
      case Found(a) => Found(Some(a))
      case Failed(e) => Failed(e)
  }

  method Detect(walk: seq<Option<Block>>, cursor: Cursor, incoming: nat, parentHash: B256, maxDepth: nat)
    returns (r: Found<Option<nat>>)
    ensures r == Detected(walk, cursor, incoming, parentHash, maxDepth)
  {
    if incoming == 0 { return Found(None); }
    var prev := incoming - 1;
    if prev == 0 || CursorHash(cursor) == parentHash { return Found(None); }
    var a := FindAncestor(walk, cursor, prev, maxDepth);
    r := if a.Found? then Found(Some(a.value)) else Failed(a.error);
  }

  // ----- what the walk finds -----

  /** The answers that carry the stored hash all come from height `c`. */
  ghost predicate MatchesOnlyAt(walk: seq<Option<Block>>, stored: Bytes, start: nat, c: nat)
  {
    forall i :: 0 <= i <= start && Answer(walk, i).Some? && Answer(walk, i).value.hash == stored ==> start - i == c
  }

  /** Whatever calls fail, a walk ends at genesis, at a match or in an error; an exceeded depth is always max + 1. */
  lemma {:induction false} WalkOutcomes(walk: seq<Option<Block>>, stored: Bytes, start: nat, maxDepth: nat, depth: nat)
    requires depth <= maxDepth + 1 && depth <= start
    ensures var r := Walk(walk, stored, start, maxDepth, depth);
      && (r.Found? ==>
            && r.value <= start - depth && start - r.value <= maxDepth
            && Answer(walk, start - r.value).Some?
            && (r.value == 0 || Answer(walk, start - r.value).value.hash == stored))
      && (r.Failed? && r.error.DepthExceeded? ==> r.error.depth == maxDepth + 1)
    decreases maxDepth + 1 - depth
  {
    if depth <= maxDepth && Answer(walk, depth).Some? && depth < start {
      WalkOutcomes(walk, stored, start, maxDepth, depth + 1);
    }
  }

  /** The first `d` calls were answered, by blocks that do not carry the stored hash. */
  ghost predicate PassedOver(walk: seq<Option<Block>>, stored: Bytes, d: nat)
  {
    forall i :: 0 <= i < d ==> Answer(walk, i).Some? && Answer(walk, i).value.hash != stored
  }

  /** The walk stops at height `a`: answered, genesis or a match, and everything above it passed over. */
  ghost predicate StopsAt(walk: seq<Option<Block>>, stored: Bytes, start: nat, maxDepth: nat, a: nat)
  {
    && a <= start <= a + maxDepth && PassedOver(walk, stored, start - a)
    && Answer(walk, start - a).Some? && (a == 0 || Answer(walk, start - a).value.hash == stored)
  }

  /** The call for height start - d failed, and everything above it was passed over. */
  ghost predicate FailsAt(walk: seq<Option<Block>>, stored: Bytes, start: nat, maxDepth: nat, d: nat)
  {
    d <= start && d <= maxDepth && PassedOver(walk, stored, d) && Answer(walk, d).None?
  }

  /** Some call failed before any match and before genesis. */
  ghost predicate NodeFails(walk: seq<Option<Block>>, stored: Bytes, start: nat, maxDepth: nat)
  {
    exists d: nat :: FailsAt(walk, stored, start, maxDepth, d)
  }

  lemma {:induction false} WalkExactFrom(
    walk: seq<Option<Block>>, stored: Bytes, start: nat, maxDepth: nat, depth: nat)
    requires depth <= maxDepth + 1 && depth <= start && PassedOver(walk, stored, depth)
    ensures var r := Walk(walk, stored, start, maxDepth, depth);
      match r
      case Found(a) => StopsAt(walk, stored, start, maxDepth, a)
      case Failed(RpcFailed) => NodeFails(walk, stored, start, maxDepth)
      case Failed(DepthExceeded(d, m)) =>
        d == maxDepth + 1 && m == maxDepth && start > maxDepth && PassedOver(walk, stored, maxDepth + 1)
    decreases maxDepth + 1 - depth
  {
    if depth <= maxDepth {
      if Answer(walk, depth).None? {
        assert FailsAt(walk, stored, start, maxDepth, depth);
      } else if depth < start && Answer(walk, depth).value.hash != stored {
        assert PassedOver(walk, stored, depth + 1);
        WalkExactFrom(walk, stored, start, maxDepth, depth + 1);
      } else {
        assert StopsAt(walk, stored, start, maxDepth, start - depth);
      }
    }
  }

  /** No two of the three ways a walk can end are open at once, and none in two places. */
  lemma {:induction false} EndsOneWay(
    walk: seq<Option<Block>>, stored: Bytes, start: nat, maxDepth: nat, a: nat, d: nat)
    ensures StopsAt(walk, stored, start, maxDepth, a) ==> !FailsAt(walk, stored, start, maxDepth, d)
    ensures StopsAt(walk, stored, start, maxDepth, a) && StopsAt(walk, stored, start, maxDepth, d) ==> a == d
    ensures start > maxDepth && PassedOver(walk, stored, maxDepth + 1) ==>
              !StopsAt(walk, stored, start, maxDepth, a) && !FailsAt(walk, stored, start, maxDepth, d)
  {
  }

  /**
   * Exactly how a walk ends, whatever calls fail. It finds `a` if and only if every call from the start
   * down to `a` was answered, none above `a` matched, and `a` matches or is genesis. It fails with the
   * node if and only if some call failed before any match and before genesis. Otherwise it exceeds the depth.
   */
  lemma {:induction false} WalkExact(walk: seq<Option<Block>>, stored: Bytes, start: nat, maxDepth: nat)
    ensures var r := Walk(walk, stored, start, maxDepth, 0);
      && (forall a: nat :: r == Found(a) <==> StopsAt(walk, stored, start, maxDepth, a))
      && (r == Failed(RpcFailed) <==> NodeFails(walk, stored, start, maxDepth))
      && (r == Failed(DepthExceeded(maxDepth + 1, maxDepth)) <==>
            start > maxDepth && PassedOver(walk, stored, maxDepth + 1))
  {
    WalkExactFrom(walk, stored, start, maxDepth, 0);
    forall a: nat, d: nat {
      EndsOneWay(walk, stored, start, maxDepth, a, d);
    }
  }

  /** An empty cursor matches no parent: above height 1 an empty store always walks. */
  lemma {:induction false} NoCursorNeverMatches(
    walk: seq<Option<Block>>, incoming: nat, parentHash: B256, maxDepth: nat)
    requires incoming >= 2
    ensures var r := Detected(walk, NoCursor, incoming, parentHash, maxDepth);
      r != Found(None) && (r.Found? ==> r.value == Some(0))
  {
    WalkOutcomes(walk, [], incoming - 1, maxDepth, 0);
  }

  /** All calls of the walk are answered. */
  ghost predicate Answered(walk: seq<Option<Block>>, start: nat, maxDepth: nat)
  {
    forall i :: 0 <= i <= maxDepth && i <= start ==> Answer(walk, i).Some?
  }

  /** The cursor's own height if it matches in reach; otherwise genesis if in reach; otherwise the depth is exceeded. */
  function WalkResult(matched: bool, c: nat, start: nat, maxDepth: nat): Found<nat>
  {
    if matched && c <= start <= c + maxDepth then Found(c)
    else if start <= maxDepth then Found(0)
    else Failed(DepthExceeded(maxDepth + 1, maxDepth))
  }

  lemma {:induction false} WalkClosedFormFrom(
    walk: seq<Option<Block>>, stored: Bytes, start: nat, maxDepth: nat, c: nat, matched: bool, depth: nat)
    requires depth <= maxDepth + 1 && depth <= start && Answered(walk, start, maxDepth)
    requires MatchesOnlyAt(walk, stored, start, c)
    requires c <= start <= c + maxDepth ==> (matched <==> Answer(walk, start - c).value.hash == stored)
    requires matched && c <= start ==> depth <= start - c
    ensures Walk(walk, stored, start, maxDepth, depth) == WalkResult(matched, c, start, maxDepth)
    decreases maxDepth + 1 - depth
  {
    if depth <= maxDepth && depth < start && Answer(walk, depth).value.hash != stored {
      WalkClosedFormFrom(walk, stored, start, maxDepth, c, matched, depth + 1);
    }
  }

  /** With every call answered, the walk from `start` has this closed form. */
  lemma {:induction false} WalkClosedForm(
    walk: seq<Option<Block>>, stored: Bytes, start: nat, maxDepth: nat, c: nat, matched: bool)
    requires Answered(walk, start, maxDepth) && MatchesOnlyAt(walk, stored, start, c)
    requires c <= start <= c + maxDepth ==> (matched <==> Answer(walk, start - c).value.hash == stored)
    ensures Walk(walk, stored, start, maxDepth, 0) == WalkResult(matched, c, start, maxDepth)
  {
    WalkClosedFormFrom(walk, stored, start, maxDepth, c, matched, 0);
  }

  // ----- comparison with the documented walk -----

  /** The answers of a remote that does not change during the walk. */
  function StableWalk(remote: seq<Block>, start: nat): (walk: seq<Option<Block>>)
    requires start < |remote|
    ensures |walk| == start + 1
    ensures forall i :: 0 <= i <= start ==> walk[i] == Some(remote[start - i])
  {
    seq(start + 1, i requires 0 <= i <= start => Some(remote[start - i]))
  }

  /** The walk as documented: compare each remote block with the stored row of the same height. */
  function DocumentedWalk(rows: map<nat, Block>, remote: seq<Block>, start: nat, maxDepth: nat, depth: nat): Found<nat>
    requires depth <= maxDepth + 1
    decreases maxDepth + 1 - depth
  {
    if depth == maxDepth + 1 || start < depth then Failed(DepthExceeded(maxDepth + 1, maxDepth))
    else if Agrees(rows, remote, start - depth) then Found(start - depth)
    else DocumentedWalk(rows, remote, start, maxDepth, depth + 1)
  }

  /** `g` is the highest stored height on the remote chain. */
  ghost predicate CommonAncestor(rows: map<nat, Block>, remote: seq<Block>, g: nat)
  {
    Agrees(rows, remote, g) && forall k :: k > g ==> !Agrees(rows, remote, k)
  }

  lemma {:induction false} DocumentedWalkFinds(
    rows: map<nat, Block>, remote: seq<Block>, start: nat, maxDepth: nat, target: nat, depth: nat)
    requires depth <= maxDepth + 1 && target <= start && Agrees(rows, remote, target)
    requires forall k :: target < k <= start ==> !Agrees(rows, remote, k)
    requires depth <= start - target
    ensures DocumentedWalk(rows, remote, start, maxDepth, depth)
         == if start - target <= maxDepth then Found(target) else Failed(DepthExceeded(maxDepth + 1, maxDepth))
    decreases maxDepth + 1 - depth
  {
    if depth <= maxDepth && depth < start - target {
      DocumentedWalkFinds(rows, remote, start, maxDepth, target, depth + 1);
    }
  }

  /** `stored` is the hash of the remote block at `m`, at or below `start` and no deeper than the walk goes. */
  predicate MatchedInReach(remote: seq<Block>, stored: Bytes, start: nat, maxDepth: nat, m: nat)
  {
    m <= start <= m + maxDepth && m < |remote| && remote[m].hash == stored
  }

  lemma {:induction false} WalkOverStableRemote(
    w: World, remote: seq<Block>, stored: Bytes, start: nat, maxDepth: nat, m: nat)
    requires RemoteChain(w, remote) && start < |remote|
    requires (exists k: nat :: MatchedInReach(remote, stored, start, maxDepth, k)) ==>
               MatchedInReach(remote, stored, start, maxDepth, m)
    ensures Walk(StableWalk(remote, start), stored, start, maxDepth, 0) ==
      if MatchedInReach(remote, stored, start, maxDepth, m) then Found(m)
      else if start <= maxDepth then Found(0)
      else Failed(DepthExceeded(maxDepth + 1, maxDepth))
  {
    var walk := StableWalk(remote, start);
    if k: nat :| k <= start && remote[k].hash == stored {
      forall i | 0 <= i <= start && walk[i].value.hash == stored ensures start - i == k {
        assert remote[start - i] == remote[k];
      }
      assert start <= k + maxDepth ==> MatchedInReach(remote, stored, start, maxDepth, k);
      WalkClosedForm(walk, stored, start, maxDepth, k, true);
    } else {
      WalkClosedForm(walk, stored, start, maxDepth, 0, false);
    }
  }

  /** What the documented walk finds: the common ancestor, or the start if that lies below, when in reach. */
  lemma {:induction false} DocumentedWalkResult(
    w: World, rows: map<nat, Block>, lo: nat, c: nat, remote: seq<Block>, g: nat, start: nat, maxDepth: nat)
    requires ChainRows(w, rows, lo, c) && lo <= start < |remote|
    requires RemoteChain(w, remote) && CommonAncestor(rows, remote, g)
    ensures var target := Min(g, start);
      DocumentedWalk(rows, remote, start, maxDepth, 0)
        == if start - target <= maxDepth then Found(target) else Failed(DepthExceeded(maxDepth + 1, maxDepth))
  {
    AgreementCarriesDown(w, rows, lo, c, remote, g, Min(g, start));
    DocumentedWalkFinds(rows, remote, start, maxDepth, Min(g, start), 0);
  }

  /**
   * Against a remote that holds still, with true common ancestor `g` and whatever hash in the cursor:
   * if the hash is that of a remote block `m` in reach, the code's walk agrees with the documented one
   * exactly when `m` is the documented answer; otherwise exactly when the documented answer is genesis
   * or out of reach.
   */
  lemma {:induction false} WalksAgreeIff(
    w: World, rows: map<nat, Block>, lo: nat, c: nat, remote: seq<Block>, g: nat, stored: Bytes,
    start: nat, maxDepth: nat, m: nat)
    requires ChainRows(w, rows, lo, c) && lo <= start < |remote|
    requires RemoteChain(w, remote) && CommonAncestor(rows, remote, g)
    requires (exists k: nat :: MatchedInReach(remote, stored, start, maxDepth, k)) ==>
               MatchedInReach(remote, stored, start, maxDepth, m)
    ensures Walk(StableWalk(remote, start), stored, start, maxDepth, 0)
         == DocumentedWalk(rows, remote, start, maxDepth, 0)
      <==> if MatchedInReach(remote, stored, start, maxDepth, m) then m == Min(g, start)
           else Min(g, start) == 0 || start - Min(g, start) > maxDepth
  {
    WalkOverStableRemote(w, remote, stored, start, maxDepth, m);
    DocumentedWalkResult(w, rows, lo, c, remote, g, start, maxDepth);
  }

  /**
   * For the cursors an indexer can have, intact at `c` or zeroed: the two walks agree exactly when the
   * cursor is intact and its block canonical and not above the start, or the documented answer is
   * genesis, or it lies out of reach.
   */
  lemma {:induction false} WalkAgreesWithDocumentation(
    w: World, rows: map<nat, Block>, lo: nat, c: nat, remote: seq<Block>, g: nat, stored: Bytes,
    start: nat, maxDepth: nat)
    requires ChainRows(w, rows, lo, c) && lo <= c && lo <= 1 && lo <= start < |remote|
    requires RemoteChain(w, remote) && CommonAncestor(rows, remote, g)
    requires stored == rows[c].hash || stored == ZERO_HASH
    ensures Walk(StableWalk(remote, start), stored, start, maxDepth, 0)
         == DocumentedWalk(rows, remote, start, maxDepth, 0)
      <==> (stored == rows[c].hash && g == c <= start) || Min(g, start) == 0 || start - Min(g, start) > maxDepth
  {
    forall k: nat | MatchedInReach(remote, stored, start, maxDepth, k) ensures k == c && stored == rows[c].hash {
      assert Genuine(w, remote[k]);
      assert remote[k] == rows[c];
    }
    assert c <= start ==> (g == c <==> Agrees(rows, remote, c));
    WalksAgreeIff(w, rows, lo, c, remote, g, stored, start, maxDepth, c);
  }

  /** The walk never returns a height above the true common ancestor. */
  lemma {:induction false} WalkNeverAboveCommonAncestor(
    w: World, rows: map<nat, Block>, lo: nat, c: nat, remote: seq<Block>, g: nat, start: nat, maxDepth: nat)
    requires ChainRows(w, rows, lo, c) && lo <= c && start < |remote|
    requires RemoteChain(w, remote) && CommonAncestor(rows, remote, g)
    ensures var r := Walk(StableWalk(remote, start), rows[c].hash, start, maxDepth, 0);
      r.Found? ==> r.value <= g
  {
    var walk := StableWalk(remote, start);
    WalkOutcomes(walk, rows[c].hash, start, maxDepth, 0);
    var r := Walk(walk, rows[c].hash, start, maxDepth, 0);
    if r.Found? && r.value > 0 {
      assert remote[r.value] == rows[c];
      assert Agrees(rows, remote, c);
    }
  }
}
