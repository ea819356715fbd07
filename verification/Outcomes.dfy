/** Consequences of the ingest invariant: the repository's own checker, stalls, restarts and rollbacks. */
module Outcomes {
  import opened Domain
  import opened Chain
  import opened Store
  import opened Reorg
  import opened Committer
  import opened Ingest
  import BlockDecoder

  // ----- the repository's invariant checker -----

  ghost predicate IsMinHeight(rows: map<nat, Block>, m: nat)
  {
    if rows == map[] then m == 0 else m in rows && forall k :: k in rows ==> m <= k
  }

  ghost predicate ReportsGap(db: Tables)
  {
    var last := if db.cursor.At? then db.cursor.number else 0;
    exists m: nat, e: nat :: IsMinHeight(db.blocks, m) && 0 < e && m <= e <= last && e !in db.blocks
  }

  ghost predicate ReportsParentMismatch(db: Tables)
  {
    exists k :: k > 0 && k in db.blocks && k - 1 in db.blocks && db.blocks[k].parentHash != db.blocks[k - 1].hash
  }

  ghost predicate ReportsCursorOrphan(db: Tables)
  {
    db.cursor.At? && db.cursor.number !in db.blocks
  }

  /** `p` is the log index just before `i` among the stored logs of height `n`. */
  ghost predicate Precedes(logs: map<(nat, nat), Log>, n: nat, p: nat, i: nat)
  {
    (n, p) in logs && p < i && forall j :: p < j < i ==> (n, j) !in logs
  }

  ghost predicate ReportsLogIndexGap(db: Tables)
  {
    exists k, p: nat :: k in db.logs && k.1 != 0 && Precedes(db.logs, k.0, p, k.1) && k.1 != p + 1
  }

  ghost predicate ReportsCursorHashMismatch(db: Tables)
  {
    db.cursor.At? && db.cursor.number in db.blocks && db.blocks[db.cursor.number].hash != db.cursor.hash
  }

  ghost predicate CheckerReports(db: Tables)
  {
    || ReportsGap(db) || ReportsParentMismatch(db) || ReportsCursorOrphan(db)
    || ReportsLogIndexGap(db) || ReportsCursorHashMismatch(db)
  }

  lemma {:induction false} CheckerOnInvariant(env: Env, db: Tables)
    requires ValidEnv(env) && DbInv(env, db)
    ensures !ReportsGap(db) && !ReportsParentMismatch(db) && !ReportsLogIndexGap(db)
    ensures CheckerReports(db) <==> db.cursor.At? && db.cursor.hash == ZERO_HASH
  {
    forall k, p: nat | k in db.logs && k.1 != 0 && Precedes(db.logs, k.0, p, k.1) ensures k.1 == p + 1 {
      assert (k.0, k.1 - 1) in db.logs;
    }
  }

  /** In every state of every run, the checker finds a violation exactly when a rollback left zeros in the cursor. */
  lemma {:induction false} CheckerIsExact(env: Env, cfg: Config, run: seq<Sys>, i: nat)
    requires ValidEnv(env) && IsRun(env, cfg, run) && i < |run|
    ensures CheckerReports(run[i].db) <==> run[i].db.cursor.At? && run[i].db.cursor.hash == ZERO_HASH
  {
    RunKeepsInvariant(env, cfg, run, i);
    CheckerOnInvariant(env, run[i].db);
  }

  // ----- a rollback to a high ancestor stalls the indexer for good -----

  lemma {:induction false} ZeroCursorRefuses(env: Env, db: Tables, n: nat, g: Digest, maxDepth: nat)
    requires ValidEnv(env) && Honest(env, n, g)
    requires db.cursor.At? && db.cursor.hash == ZERO_HASH && n >= maxDepth + 2
    ensures Attempt(db, n, g, maxDepth) == (db, Refused)
  {
    if g.header.Some? {
      assert g.header.value.parentHash != ZERO_HASH;
      WalkOutcomes(g.walk, ZERO_HASH, n - 1, maxDepth, 0);
    }
  }

  ghost predicate StalledAt(db: Tables, maxDepth: nat)
  {
    db.cursor.At? && db.cursor.hash == ZERO_HASH && db.cursor.number >= maxDepth + 2
  }

  lemma {:induction false} StalledStep(env: Env, cfg: Config, s: Sys, s': Sys)
    requires ValidEnv(env) && Inv(env, cfg, s) && StalledAt(s.db, cfg.maxDepth) && Step(env, cfg, s, s')
    ensures s'.db == s.db
  {
    if g :| Attempted(env, cfg, s, s', g) {
      ZeroCursorRefuses(env, s.db, s.process.next, g, cfg.maxDepth);
    }
  }

  lemma {:induction false} StalledStepOfRun(env: Env, cfg: Config, run: seq<Sys>, j: nat, db: Tables)
    requires ValidEnv(env) && IsRun(env, cfg, run) && j + 1 < |run|
    requires run[j].db == db && StalledAt(db, cfg.maxDepth)
    ensures run[j + 1].db == db
  {
    RunKeepsInvariant(env, cfg, run, j);
    assert StepAt(env, cfg, run, j);
    StalledStep(env, cfg, run[j], run[j + 1]);
  }

  /** Once the cursor holds zeros at a height of at least maxDepth + 2, no step of any run changes the tables again. */
  lemma {:induction false} HighRollbackStallsForever(env: Env, cfg: Config, run: seq<Sys>, i: nat, j: nat)
    requires ValidEnv(env) && IsRun(env, cfg, run) && i <= j < |run| && StalledAt(run[i].db, cfg.maxDepth)
    ensures run[j].db == run[i].db
    decreases j
  {
    if i < j {
      HighRollbackStallsForever(env, cfg, run, i, j - 1);
      StalledStepOfRun(env, cfg, run, j - 1, run[i].db);
    }
  }

  lemma {:induction false} RewoundHighIsStalled(env: Env, cfg: Config, s: Sys, s': Sys, g: Digest)
    requires ValidEnv(env) && Inv(env, cfg, s) && Attempted(env, cfg, s, s', g)
    requires Attempt(s.db, s.process.next, g, cfg.maxDepth).1 == Rewound
    requires s'.db.cursor.At? && s'.db.cursor.number >= cfg.maxDepth + 2
    ensures StalledAt(s'.db, cfg.maxDepth)
  {
    AttemptKeepsInvariant(env, s.db, s.process.next, g, cfg.maxDepth);
  }

  /** So after any rollback to a height of at least maxDepth + 2, continuations and restarts leave the tables alone. */
  lemma {:induction false} RollbackThenStall(env: Env, cfg: Config, run: seq<Sys>, i: nat, g: Digest, j: nat)
    requires ValidEnv(env) && IsRun(env, cfg, run) && i < j < |run|
    requires Attempted(env, cfg, run[i], run[i + 1], g)
    requires Attempt(run[i].db, run[i].process.next, g, cfg.maxDepth).1 == Rewound
    requires run[i + 1].db.cursor.At? && run[i + 1].db.cursor.number >= cfg.maxDepth + 2
    ensures run[j].db == run[i + 1].db
  {
    RunKeepsInvariant(env, cfg, run, i);
    RewoundHighIsStalled(env, cfg, run[i], run[i + 1], g);
    HighRollbackStallsForever(env, cfg, run, i + 1, j);
  }

  // ----- starting at height 2 or above stores nothing -----

  ghost predicate NothingStored(db: Tables)
  {
    db.blocks == map[] && (db.cursor == NoCursor || db.cursor == At(0, ZERO_HASH))
  }

  lemma {:induction false} AttemptStoresNothing(env: Env, db: Tables, n: nat, g: Digest, maxDepth: nat)
    requires ValidEnv(env) && DbInv(env, db) && Honest(env, n, g) && NothingStored(db) && n >= 2
    ensures NothingStored(Attempt(db, n, g, maxDepth).0)
  {
    if g.header.Some? {
      assert g.header.value.parentHash != ZERO_HASH;
      var r := Detected(g.walk, db.cursor, n, g.header.value.parentHash, maxDepth);
      if r.Found? {
        RollbackTargets(env, db, n, g, maxDepth);
      }
    }
  }

  lemma {:induction false} StepStoresNothing(env: Env, cfg: Config, s: Sys, s': Sys)
    requires ValidEnv(env) && Inv(env, cfg, s) && NothingStored(s.db) && cfg.backfillFrom >= 2 && Step(env, cfg, s, s')
    ensures NothingStored(s'.db)
  {
    if g :| Attempted(env, cfg, s, s', g) {
      AttemptStoresNothing(env, s.db, s.process.next, g, cfg.maxDepth);
    }
  }

  /** An indexer configured to start at height 2 or above never stores a block. */
  lemma {:induction false} HighStartStoresNothing(env: Env, cfg: Config, run: seq<Sys>, i: nat)
    requires ValidEnv(env) && IsRun(env, cfg, run) && i < |run| && cfg.backfillFrom >= 2
    ensures NothingStored(run[i].db)
  {
    if i > 0 {
      HighStartStoresNothing(env, cfg, run, i - 1);
      RunKeepsInvariant(env, cfg, run, i - 1);
      assert StepAt(env, cfg, run, i - 1);
      StepStoresNothing(env, cfg, run[i - 1], run[i]);
    }
  }

  // ----- rollbacks against a remote that holds still -----

  /** The walk's answers, where they come, are blocks of the chain `remote`. */
  ghost predicate WalkFrom(remote: seq<Block>, n: nat, walk: seq<Option<Block>>)
  {
    forall i :: 0 <= i < n && Answer(walk, i).Some? ==>
      n - 1 - i < |remote| && Answer(walk, i).value == remote[n - 1 - i]
  }

  lemma {:induction false} CanonicalBelowAncestor(
    env: Env, db: Tables, n: nat, walk: seq<Option<Block>>, remote: seq<Block>, anc: nat)
    requires DbInv(env, db) && RemoteChain(env.world, remote) && |remote| > 0 && remote[0] == env.genesis
    requires WalkFrom(remote, n, walk) && anc < n && Answer(walk, n - 1 - anc).Some?
    requires anc == 0 || (db.cursor.At? && anc == db.cursor.number && anc in db.blocks
                          && db.blocks[anc].hash == Answer(walk, n - 1 - anc).value.hash)
    ensures var rows := BlocksKept(db.blocks, anc); forall k :: k in rows ==> k < |remote| && rows[k] == remote[k]
  {
    if anc > 0 {
      assert Agrees(db.blocks, remote, anc);
      forall k | k in BlocksKept(db.blocks, anc) ensures k < |remote| && db.blocks[k] == remote[k] {
        AgreementCarriesDown(env.world, db.blocks, Lowest(db.blocks), anc, remote, anc, k);
      }
    } else if 0 in db.blocks {
      assert db.cursor.At?;
    }
  }

  /** After any rollback, every surviving row is a block of the remote chain. */
  lemma {:induction false} RollbackLeavesOnlyCanonicalRows(
    env: Env, db: Tables, n: nat, g: Digest, remote: seq<Block>, maxDepth: nat)
    requires ValidEnv(env) && DbInv(env, db) && Honest(env, n, g)
    requires RemoteChain(env.world, remote) && |remote| > 0 && remote[0] == env.genesis && WalkFrom(remote, n, g.walk)
    requires Attempt(db, n, g, maxDepth).1 == Rewound
    ensures var rows := Attempt(db, n, g, maxDepth).0.blocks;
      forall k :: k in rows ==> k < |remote| && rows[k] == remote[k]
  {
    RollbackTargets(env, db, n, g, maxDepth);
    WalkOutcomes(g.walk, CursorHash(db.cursor), n - 1, maxDepth, 0);
    var anc := Detected(g.walk, db.cursor, n, g.header.value.parentHash, maxDepth).value.value;
    CanonicalBelowAncestor(env, db, n, g.walk, remote, anc);
  }

  /** A block of the remote and what it decodes to. */
  datatype Node = Node(header: Block, decoded: IndexedBlock)

  function Headers(remote: seq<Node>): (hs: seq<Block>)
    ensures |hs| == |remote|
    ensures forall i :: 0 <= i < |hs| ==> hs[i] == remote[i].header
  {
    seq(|remote|, i requires 0 <= i < |remote| => remote[i].header)
  }

  /** A remote that serves one decodable chain. */
  ghost predicate StableRemote(env: Env, remote: seq<Node>)
  {
    && |remote| >= 2 && RemoteChain(env.world, Headers(remote))
    && remote[0].header == env.genesis && remote[1].header == env.first
    && forall k :: 0 <= k < |remote| ==>
         remote[k].decoded.block == remote[k].header && BlockDecoder.WellFormed(remote[k].decoded)
  }

  /** The answers of a stable remote and a healthy database for height `n`. */
  ghost predicate StableDigest(remote: seq<Node>, n: nat, g: Digest)
  {
    && n < |remote| && g.header == Some(remote[n].header) && (n > 0 ==> g.walk == StableWalk(Headers(remote), n - 1))
    && g.decoded == Some(Ok(remote[n].decoded)) && g.budget > 3 && g.budget > |CommitScript(remote[n].decoded)|
  }

  /** The durable cursor sits at `c` with the remote's own hash. */
  ghost predicate IntactAt(env: Env, db: Tables, remote: seq<Node>, c: nat)
  {
    DbInv(env, db) && c < |remote| && db.cursor == At(c, remote[c].header.hash)
  }

  /** Hashes of a remote chain identify their height. */
  lemma {:induction false} HashesDiffer(w: World, hs: seq<Block>, i: nat, j: nat)
    requires RemoteChain(w, hs) && i < |hs| && j < |hs|
    ensures hs[i].hash == hs[j].hash <==> i == j
  {
    assert Known(w, hs[i]) && Known(w, hs[j]);
  }

  lemma {:induction false} StableWalkResult(w: World, hs: seq<Block>, c: nat, n: nat, maxDepth: nat)
    requires RemoteChain(w, hs) && c < |hs| && 0 < n < |hs|
    ensures Walk(StableWalk(hs, n - 1), hs[c].hash, n - 1, maxDepth, 0) == WalkResult(true, c, n - 1, maxDepth)
  {
    var walk := StableWalk(hs, n - 1);
    forall i | 0 <= i <= n - 1 && Answer(walk, i).value.hash == hs[c].hash ensures n - 1 - i == c {
      HashesDiffer(w, hs, n - 1 - i, c);
    }
    WalkClosedForm(walk, hs[c].hash, n - 1, maxDepth, c, true);
  }

  /** Any height but the cursor's child is answered by the walk alone. */
  lemma {:induction false} StableDetection(env: Env, remote: seq<Node>, c: nat, n: nat, g: Digest, maxDepth: nat)
    requires StableRemote(env, remote) && c < |remote| && 2 <= n && n != c + 1 && StableDigest(remote, n, g)
    ensures g.header.value.parentHash != remote[c].header.hash
    ensures Walk(g.walk, remote[c].header.hash, n - 1, maxDepth, 0) == WalkResult(true, c, n - 1, maxDepth)
  {
    var hs := Headers(remote);
    assert hs[n].parentHash == hs[n - 1].hash;
    HashesDiffer(env.world, hs, n - 1, c);
    StableWalkResult(env.world, hs, c, n, maxDepth);
  }

  lemma {:induction false} StableDetected(env: Env, remote: seq<Node>, c: nat, n: nat, g: Digest, maxDepth: nat)
    requires StableRemote(env, remote) && c < |remote| && 2 <= n && n != c + 1 && StableDigest(remote, n, g)
    ensures var r := WalkResult(true, c, n - 1, maxDepth);
      Detected(g.walk, At(c, remote[c].header.hash), n, g.header.value.parentHash, maxDepth)
        == if r.Found? then Found(Some(r.value)) else Failed(r.error)
  {
    StableDetection(env, remote, c, n, g, maxDepth);
  }

  lemma {:induction false} StableRefusal(
    env: Env, db: Tables, remote: seq<Node>, c: nat, n: nat, g: Digest, maxDepth: nat)
    requires StableRemote(env, remote) && c < |remote| && db.cursor == At(c, remote[c].header.hash)
    requires 2 <= n && n != c + 1 && StableDigest(remote, n, g)
    ensures var r := WalkResult(true, c, n - 1, maxDepth);
      Attempt(db, n, g, maxDepth) ==
        if r.Found? then (RolledBack(db, EventFor(r.value, n)), Rewound) else (db, Refused)
  {
    StableDetected(env, remote, c, n, g, maxDepth);
    var r := WalkResult(true, c, n - 1, maxDepth);
    if r.Found? {
      AttemptRewinds(db, n, g, maxDepth, r.value);
    }
  }

  /** A height skipped after a refusal: the walk finds the intact cursor, and the rollback only zeroes its hash. */
  lemma {:induction false} SkippedHeightZeroesCursor(
    env: Env, db: Tables, remote: seq<Node>, c: nat, n: nat, g: Digest, maxDepth: nat)
    requires StableRemote(env, remote) && IntactAt(env, db, remote, c)
    requires c + 1 < n <= c + 1 + maxDepth && StableDigest(remote, n, g)
    ensures var (db', v) := Attempt(db, n, g, maxDepth);
      && v == Rewound && db'.cursor == At(c, ZERO_HASH)
      && db'.blocks == db.blocks && db'.transactions == db.transactions
      && db'.logs == db.logs && db'.transfers == db.transfers
  {
    StableRefusal(env, db, remote, c, n, g, maxDepth);
    DeleteRestores(db, db, c);
  }

  /**
   * One refused height above the reorg depth stalls the indexer for good: the next height of the
   * batch, however canonical, is answered by a rollback that zeroes the cursor.
   */
  lemma {:induction false} OneRefusalStallsForever(
    env: Env, cfg: Config, run: seq<Sys>, i: nat, remote: seq<Node>, c: nat, g: Digest, j: nat)
    requires ValidEnv(env) && IsRun(env, cfg, run) && i < j < |run|
    requires StableRemote(env, remote) && IntactAt(env, run[i].db, remote, c) && c >= cfg.maxDepth + 2
    requires Attempted(env, cfg, run[i], run[i + 1], g) && StableDigest(remote, run[i].process.next, g)
    requires c + 1 < run[i].process.next <= c + 1 + cfg.maxDepth
    ensures run[j].db == run[i + 1].db && run[j].db.blocks == run[i].db.blocks && run[j].db.cursor == At(c, ZERO_HASH)
  {
    SkippedHeightZeroesCursor(env, run[i].db, remote, c, run[i].process.next, g, cfg.maxDepth);
    RollbackThenStall(env, cfg, run, i, g, j);
  }

  lemma {:induction false} ChildIsStored(env: Env, db: Tables, remote: seq<Node>, c: nat, g: Digest, maxDepth: nat)
    requires ValidEnv(env) && StableRemote(env, remote) && IntactAt(env, db, remote, c)
    requires 1 <= c && StableDigest(remote, c + 1, g)
    ensures Attempt(db, c + 1, g, maxDepth) == (Commit(db, remote[c + 1].decoded), Stored)
    ensures IntactAt(env, Commit(db, remote[c + 1].decoded), remote, c + 1)
  {
    var ib := remote[c + 1].decoded;
    assert Headers(remote)[c + 1].parentHash == Headers(remote)[c].hash;
    assert HashFree(db.blocks, ib.block.hash);
    StoreKeepsInvariant(env, db, ib, g.walk, maxDepth);
  }

  /** The decoded blocks at heights from, from + 1, ..., from + count - 1. */
  function DecodedRange(remote: seq<Node>, from: nat, count: nat): (ibs: seq<IndexedBlock>)
    requires from + count <= |remote|
    ensures |ibs| == count
  {
    if count == 0 then [] else DecodedRange(remote, from, count - 1) + [remote[from + count - 1].decoded]
  }

  lemma {:induction false} CommitNext(db: Tables, remote: seq<Node>, from: nat, count: nat)
    requires from + count < |remote|
    ensures CommitAll(db, DecodedRange(remote, from, count + 1))
         == Commit(CommitAll(db, DecodedRange(remote, from, count)), remote[from + count].decoded)
  {
    var ibs := DecodedRange(remote, from, count + 1);
    assert ibs[..|ibs| - 1] == DecodedRange(remote, from, count);
  }

  ghost predicate StableBatchDigests(remote: seq<Node>, first: nat, gs: seq<Digest>)
  {
    && first + |gs| <= |remote|
    && forall k :: 0 <= k < |gs| ==> StableDigest(remote, first + k, gs[k])
  }

  /** The tables after the first `count` heights above `c`. */
  function StoredUpTo(db: Tables, remote: seq<Node>, c: nat, count: nat): Tables
    requires c + 1 + count <= |remote|
  {
    CommitAll(db, DecodedRange(remote, c + 1, count))
  }

  lemma {:induction false} ChildStep(
    env: Env, cfg: Config, db: Tables, remote: seq<Node>, c: nat, gs: seq<Digest>, i: nat)
    requires ValidEnv(env) && StableRemote(env, remote) && c >= 1 && StableBatchDigests(remote, c, gs)
    requires 1 <= i < |gs| && IntactAt(env, StoredUpTo(db, remote, c, i - 1), remote, c + i - 1)
    ensures IntactAt(env, StoredUpTo(db, remote, c, i), remote, c + i)
    ensures Drain(Drained(StoredUpTo(db, remote, c, i - 1), c + i - 1, i - 1, Running), c, gs, i, cfg)
         == Drain(Drained(StoredUpTo(db, remote, c, i), c + i, i, Running), c, gs, i + 1, cfg)
  {
    var u := StoredUpTo(db, remote, c, i - 1);
    ChildIsStored(env, u, remote, c + i - 1, gs[i], cfg.maxDepth);
    CommitNext(db, remote, c + 1, i - 1);
    DrainOne(Drained(u, c + i - 1, i - 1, Running), c, gs, i, cfg, (Commit(u, remote[c + i].decoded), Stored));
  }

  lemma {:induction false} ChildrenAreStored(
    env: Env, cfg: Config, db: Tables, remote: seq<Node>, c: nat, gs: seq<Digest>, i: nat)
    requires ValidEnv(env) && StableRemote(env, remote) && c >= 1 && StableBatchDigests(remote, c, gs)
    requires 1 <= i <= |gs| && IntactAt(env, StoredUpTo(db, remote, c, i - 1), remote, c + i - 1)
    ensures Drain(Drained(StoredUpTo(db, remote, c, i - 1), c + i - 1, i - 1, Running), c, gs, i, cfg)
         == Drained(StoredUpTo(db, remote, c, |gs| - 1), c + |gs| - 1, |gs| - 1, Running)
    decreases |gs| - i
  {
    if i < |gs| {
      ChildStep(env, cfg, db, remote, c, gs, i);
      ChildrenAreStored(env, cfg, db, remote, c, gs, i + 1);
    }
  }

  /**
   * A batch c..e against a stable remote and a healthy database, from an intact cursor above the
   * reorg depth: height c is refused, and exactly c+1..e are stored.
   */
  lemma {:induction false} StableBatchStoresTheRest(
    env: Env, cfg: Config, db: Tables, remote: seq<Node>, c: nat, gs: seq<Digest>)
    requires ValidEnv(env) && StableRemote(env, remote) && IntactAt(env, db, remote, c)
    requires c >= cfg.maxDepth + 2 && |gs| > 0 && StableBatchDigests(remote, c, gs)
    ensures Drain(Drained(db, c, 0, Running), c, gs, 0, cfg)
         == Drained(CommitAll(db, DecodedRange(remote, c + 1, |gs| - 1)), c + |gs| - 1, |gs| - 1, Running)
  {
    assert StableDigest(remote, c + 0, gs[0]);
    StableRefusal(env, db, remote, c, c, gs[0], cfg.maxDepth);
    DrainOne(Drained(db, c, 0, Running), c, gs, 0, cfg, (db, Refused));
    ChildrenAreStored(env, cfg, db, remote, c, gs, 1);
  }

  /** The same batch from an intact cursor 2 <= c <= maxDepth + 1: the first height rolls the store back to genesis. */
  lemma {:induction false} StableBatchResets(
    env: Env, cfg: Config, db: Tables, remote: seq<Node>, c: nat, gs: seq<Digest>)
    requires StableRemote(env, remote) && c < |remote| && db.cursor == At(c, remote[c].header.hash)
    requires 2 <= c <= cfg.maxDepth + 1 && |gs| > 0 && StableDigest(remote, c, gs[0])
    ensures Drain(Drained(db, c, 0, Running), c, gs, 0, cfg)
         == Drained(RolledBack(db, EventFor(0, c)), 0, 0, Rewinding)
  {
    StableRefusal(env, db, remote, c, c, gs[0], cfg.maxDepth);
    DrainOne(Drained(db, c, 0, Running), c, gs, 0, cfg, Attempt(db, c, gs[0], cfg.maxDepth));
  }

  // ----- the batch loop walks the state machine -----

  function ProcessOf(d: Drained, next: nat, last: nat): Process
  {
    match d.progress
    case Running => Draining(d.cursor, next, last)
    case Rewinding => Idle(d.cursor)
    case Crashed => Down
  }

  /** Draining a batch is a sequence of steps of the state machine. */
  lemma {:induction false} DrainIsRun(
    env: Env, cfg: Config, d: Drained, first: nat, gs: seq<Digest>, i: nat, last: nat) returns (run: seq<Sys>)
    requires i <= |gs| && first + |gs| <= last + 1 && d.progress == Running
    requires forall k :: 0 <= k < |gs| ==> Honest(env, first + k, gs[k])
    ensures |run| > 0 && Steps(env, cfg, run) && run[0] == Sys(d.db, Draining(d.cursor, first + i, last))
    ensures var r := Drain(d, first, gs, i, cfg);
      run[|run| - 1].db == r.db && exists next :: run[|run| - 1].process == ProcessOf(r, next, last)
    decreases |gs| - i
  {
    var s := Sys(d.db, Draining(d.cursor, first + i, last));
    run := [s];
    if i == |gs| {
      assert s.process == ProcessOf(d, first + i, last);
    } else {
      var outcome := Attempt(d.db, first + i, gs[i], cfg.maxDepth);
      var d' := Advance(d, first + i, outcome, cfg.backfillFrom);
      var s' := AfterAttempt(cfg, s, outcome);
      assert Attempted(env, cfg, s, s', gs[i]);
      if d'.progress == Running {
        var rest := DrainIsRun(env, cfg, d', first, gs, i + 1, last);
        run := [s] + rest;
        forall k: nat ensures StepAt(env, cfg, run, k) {
          if 0 < k { assert StepAt(env, cfg, rest, k - 1); }
        }
      } else {
        run := [s, s'];
        assert s'.process == ProcessOf(d', 0, last);
      }
    }
  }

  /** A batch drained from a state that satisfies the invariant leaves the tables satisfying it. */
  lemma {:induction false} DrainKeepsInvariant(env: Env, cfg: Config, d: Drained, first: nat, gs: seq<Digest>)
    requires ValidEnv(env) && d.progress == Running
    requires forall k :: 0 <= k < |gs| ==> Honest(env, first + k, gs[k])
    requires Inv(env, cfg, Sys(d.db, Draining(d.cursor, first, first + |gs|)))
    ensures DbInv(env, Drain(d, first, gs, 0, cfg).db)
  {
    var run := DrainIsRun(env, cfg, d, first, gs, 0, first + |gs|);
    StepsKeepInvariant(env, cfg, run, |run| - 1);
  }
}
