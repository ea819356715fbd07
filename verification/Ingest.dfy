/** Whole runs of the indexer: boots, batches, attempts, crashes, against a remote that forks and fails at will. */
module Ingest {
  import opened Domain
  import opened Chain
  import opened Store
  import opened Reorg
  import opened Committer
  import BlockDecoder

  // ----- the environment -----

  /** All blocks ever mined, and the two lowest heights, which never change. */
  datatype Env = Env(world: World, genesis: Block, first: Block)

  predicate ValidEnv(env: Env)
  {
    && Genuine(env.world, env.genesis) && env.genesis.number == 0
    && Genuine(env.world, env.first) && env.first.number == 1
    && env.first.parentHash == env.genesis.hash
  }

  /** A header the node may answer with for height `n`. */
  predicate Plausible(env: Env, b: Block, n: nat)
  {
    && b.number == n && Genuine(env.world, b)
    && (n == 0 ==> b == env.genesis) && (n == 1 ==> b == env.first)
  }

  /**
   * Each answer, if it comes, is a plausible block of the height asked for, and a decoded block is
   * made of that header and well-formed rows. The forks between calls are free.
   */
  ghost predicate Honest(env: Env, n: nat, g: Digest)
  {
    && (g.header.Some? ==> Plausible(env, g.header.value, n))
    && (forall i :: 0 <= i < n && Answer(g.walk, i).Some? ==> Plausible(env, Answer(g.walk, i).value, n - 1 - i))
    && (g.header.Some? && g.decoded.Some? && g.decoded.value.Ok? ==>
          g.decoded.value.value.block == g.header.value && BlockDecoder.WellFormed(g.decoded.value.value))
  }

  /** What decoding makes of plausible answers is honest. */
  lemma {:induction false} PlausibleAnswersAreHonest(env: Env, n: nat, a: Answers)
    requires a.block.Some? ==> Plausible(env, BlockDecoder.HeaderOf(a.block.value), n)
    requires forall i :: 0 <= i < n && Answer(a.walk, i).Some? ==> Plausible(env, Answer(a.walk, i).value, n - 1 - i)
    ensures Honest(env, n, Digested(a))
  {
    if a.block.Some? {
      var b := a.block.value;
      var rs := Receipts(a.receipts, |b.transactions|);
      if rs.Some? && BlockDecoder.BlockOf(b, rs.value).Ok? {
        BlockDecoder.DecodedContents(b, rs.value);
        BlockDecoder.DecodedWellFormed(b, rs.value);
      }
    }
  }

  // ----- the state machine -----

  datatype Process =
    | Down
    | Idle(cursor: nat)
    | Draining(cursor: nat, next: nat, last: nat)

  datatype Sys = Sys(db: Tables, process: Process)

  const INITIAL := Sys(EMPTY, Down)

  function Max(a: nat, b: nat): nat { if a >= b then a else b }

  ghost predicate Boot(cfg: Config, s: Sys, s': Sys)
  {
    s.process.Down? && s' == Sys(s.db, Idle(MemoryCursor(s.db, cfg.backfillFrom)))
  }

  /** A batch starts at the cursor itself, not above it, and holds at most two queue depths of heights. */
  ghost predicate BeginBatch(cfg: Config, s: Sys, s': Sys)
  {
    && s.process.Idle?
    && var start := Max(s.process.cursor, cfg.backfillFrom);
    exists last: nat :: start <= last < start + 2 * cfg.queueDepth
      && s' == Sys(s.db, Draining(s.process.cursor, start, last))
  }

  function AfterAttempt(cfg: Config, s: Sys, outcome: (Tables, Verdict)): Sys
    requires s.process.Draining?
  {
    match outcome.1
    case Stored => Sys(outcome.0, Draining(s.process.next, s.process.next + 1, s.process.last))
    case Refused => Sys(outcome.0, Draining(s.process.cursor, s.process.next + 1, s.process.last))
    case Rewound => Sys(outcome.0, Idle(MemoryCursor(outcome.0, cfg.backfillFrom)))
    case Panicked => Sys(outcome.0, Down)
  }

  ghost predicate Attempted(env: Env, cfg: Config, s: Sys, s': Sys, g: Digest)
  {
    && s.process.Draining? && s.process.next <= s.process.last
    && Honest(env, s.process.next, g)
    && s' == AfterAttempt(cfg, s, Attempt(s.db, s.process.next, g, cfg.maxDepth))
  }

  /** The sequencer may run dry early: a height no worker could fetch ends the batch. */
  ghost predicate EndBatch(s: Sys, s': Sys)
  {
    s.process.Draining? && s' == Sys(s.db, Idle(s.process.cursor))
  }

  ghost predicate Crash(s: Sys, s': Sys)
  {
    s' == Sys(s.db, Down)
  }

  ghost predicate Step(env: Env, cfg: Config, s: Sys, s': Sys)
  {
    || Boot(cfg, s, s')
    || BeginBatch(cfg, s, s')
    || (exists g :: Attempted(env, cfg, s, s', g))
    || EndBatch(s, s')
    || Crash(s, s')
  }

  ghost predicate StepAt(env: Env, cfg: Config, run: seq<Sys>, i: nat)
  {
    i + 1 < |run| ==> Step(env, cfg, run[i], run[i + 1])
  }

  ghost predicate Steps(env: Env, cfg: Config, run: seq<Sys>)
  {
    forall i: nat :: StepAt(env, cfg, run, i)
  }

  ghost predicate IsRun(env: Env, cfg: Config, run: seq<Sys>)
  {
    |run| > 0 && run[0] == INITIAL && Steps(env, cfg, run)
  }

  // ----- the invariant -----

  function Lowest(rows: map<nat, Block>): nat
  {
    if 0 in rows then 0 else 1
  }

  /** Log indices of a stored height leave no holes. */
  ghost predicate LogsDense(logs: map<(nat, nat), Log>)
  {
    forall k, i: nat :: k in logs && i < k.1 ==> (k.0, i) in logs
  }

  /**
   * The stored heights are exactly lo..cursor with lo 0 or 1, every row names the row below as its
   * parent, and the cursor carries its row's hash or zeros.
   */
  ghost predicate RowsMatchCursor(env: Env, rows: map<nat, Block>, cursor: Cursor)
  {
    match cursor
    case NoCursor => rows == map[]
    case At(c, h) =>
      && ChainRows(env.world, rows, Lowest(rows), c)
      && (h == ZERO_HASH || (c in rows && h == rows[c].hash))
      && (0 in rows ==> rows[0] == env.genesis)
      && (1 in rows ==> rows[1] == env.first)
  }

  ghost predicate DbInv(env: Env, db: Tables)
  {
    RowsMatchCursor(env, db.blocks, db.cursor) && Integrity(db) && LogsDense(db.logs)
  }

  /** No height below the durable cursor is attempted. */
  predicate NotBelow(db: Tables, n: nat)
  {
    db.cursor.At? ==> db.cursor.number <= n
  }

  ghost predicate Inv(env: Env, cfg: Config, s: Sys)
  {
    && DbInv(env, s.db)
    && (!s.process.Down? ==> s.process.cursor == MemoryCursor(s.db, cfg.backfillFrom))
    && (s.process.Draining? ==> NotBelow(s.db, s.process.next) && cfg.backfillFrom <= s.process.next)
  }

  // ----- one attempt keeps the invariant -----

  /** Above height 1 only the direct child of the cursor's block gets past detection. */
  lemma {:induction false} DetectionAdmitsOnlyTheChild(
    env: Env, db: Tables, n: nat, b: Block, walk: seq<Option<Block>>, maxDepth: nat)
    requires ValidEnv(env) && DbInv(env, db) && Plausible(env, b, n) && n >= 2
    requires Detected(walk, db.cursor, n, b.parentHash, maxDepth) == Found(None)
    ensures db.cursor.At? && db.cursor.number == n - 1 && n - 1 in db.blocks
    ensures db.blocks[n - 1].hash == b.parentHash && db.cursor.hash != ZERO_HASH
  {
  }

  lemma {:induction false} PutChild(w: World, rows: map<nat, Block>, lo: nat, b: Block)
    requires b.number > 0 && ChainRows(w, rows, lo, b.number - 1) && b.number - 1 in rows
    requires Genuine(w, b) && rows[b.number - 1].hash == b.parentHash
    ensures ChainRows(w, rows[b.number := b], lo, b.number)
  {
  }

  lemma {:induction false} PutLow(env: Env, rows: map<nat, Block>, cursor: Cursor, b: Block)
    requires ValidEnv(env) && RowsMatchCursor(env, rows, cursor) && Plausible(env, b, b.number)
    requires b.number <= 1 && (cursor.At? ==> cursor.number <= b.number)
    ensures RowsMatchCursor(env, Put(rows, b.number, b), At(b.number, b.hash))
  {
    var u := Put(rows, b.number, b);
    assert forall k :: k in rows ==> k <= b.number;
    assert b.number in u && u[b.number] == b;
    assert forall k :: k in u <==> Lowest(u) <= k <= b.number;
  }

  /** Adding the cursor's child, or one of the two fixed blocks, keeps the rows a chain up to the new cursor. */
  lemma {:induction false} PutKeepsRows(env: Env, rows: map<nat, Block>, cursor: Cursor, b: Block)
    requires ValidEnv(env) && RowsMatchCursor(env, rows, cursor) && Plausible(env, b, b.number)
    requires cursor.At? ==> cursor.number <= b.number
    requires b.number >= 2 ==>
               && cursor.At? && cursor.number == b.number - 1 && b.number - 1 in rows
               && rows[b.number - 1].hash == b.parentHash
    ensures RowsMatchCursor(env, Put(rows, b.number, b), At(b.number, b.hash))
  {
    if b.number >= 2 {
      PutChild(env.world, rows, Lowest(rows), b);
    } else {
      PutLow(env, rows, cursor, b);
    }
  }

  lemma {:induction false} CommitKeepsLogsDense(db: Tables, ib: IndexedBlock)
    requires LogsDense(db.logs) && BlockDecoder.WellFormed(ib)
    ensures LogsDense(Commit(db, ib).logs)
  {
    NewLogs(db.logs, ib);
    var logs := Commit(db, ib).logs;
    forall k, i: nat | k in logs && i < k.1 ensures (k.0, i) in logs {
      if k in db.logs {
        assert (k.0, i) in db.logs;
      }
    }
  }

  /** A rollback ends at genesis or at the cursor's own height; either way the cursor hash becomes zeros. */
  lemma {:induction false} RollbackTargets(env: Env, db: Tables, n: nat, g: Digest, maxDepth: nat)
    requires ValidEnv(env) && DbInv(env, db) && Honest(env, n, g) && g.header.Some?
    requires var r := Detected(g.walk, db.cursor, n, g.header.value.parentHash, maxDepth); r.Found? && r.value.Some?
    ensures n >= 2
    ensures var anc := Detected(g.walk, db.cursor, n, g.header.value.parentHash, maxDepth).value.value;
      || anc == 0
      || (db.cursor.At? && anc == db.cursor.number && anc in db.blocks && db.cursor.hash == db.blocks[anc].hash)
  {
    WalkOutcomes(g.walk, CursorHash(db.cursor), n - 1, maxDepth, 0);
    var anc := Detected(g.walk, db.cursor, n, g.header.value.parentHash, maxDepth).value.value;
    assert Plausible(env, Answer(g.walk, n - 1 - anc).value, anc);
  }

  lemma {:induction false} DeleteKeepsRows(env: Env, rows: map<nat, Block>, cursor: Cursor, a: nat)
    requires RowsMatchCursor(env, rows, cursor)
    requires a == 0 || (cursor.At? && a == cursor.number && a in rows)
    ensures RowsMatchCursor(env, BlocksKept(rows, a), At(a, ZERO_HASH))
  {
    var kept := BlocksKept(rows, a);
    assert Lowest(kept) == Lowest(rows);
    assert ChainRows(env.world, kept, Lowest(kept), a);
  }

  lemma {:induction false} DeleteKeepsIntegrity(db: Tables, a: nat)
    requires Integrity(db) && LogsDense(db.logs)
    ensures Integrity(DeleteAbove(db, a)) && LogsDense(LogsKept(db.blocks, db.logs, a))
  {
  }

  lemma {:induction false} RollbackKeepsInvariant(env: Env, db: Tables, ev: ReorgEvent)
    requires DbInv(env, db) && AncestorHash(ev) == ZERO_HASH
    requires ev.commonAncestor == 0
          || (db.cursor.At? && ev.commonAncestor == db.cursor.number && ev.commonAncestor in db.blocks)
    ensures DbInv(env, RolledBack(db, ev))
    ensures RolledBack(db, ev).cursor == At(ev.commonAncestor, ZERO_HASH)
  {
    DeleteKeepsRows(env, db.blocks, db.cursor, ev.commonAncestor);
    DeleteKeepsIntegrity(db, ev.commonAncestor);
  }

  lemma {:induction false} AttemptKeepsInvariant(env: Env, db: Tables, n: nat, g: Digest, maxDepth: nat)
    requires ValidEnv(env) && DbInv(env, db) && Honest(env, n, g) && (n <= 1 ==> NotBelow(db, n))
    ensures var (db', v) := Attempt(db, n, g, maxDepth);
      && DbInv(env, db')
      && (v == Stored ==> db'.cursor.At? && db'.cursor.number == n)
      && (v == Rewound ==> db'.cursor.At? && db'.cursor.hash == ZERO_HASH)
      && (v.Refused? || v.Panicked? ==> db' == db)
  {
    if g.header.Some? {
      var r := Detected(g.walk, db.cursor, n, g.header.value.parentHash, maxDepth);
      if r.Found? && r.value.Some? {
        AncestorBelow(g.walk, db.cursor, n, g.header.value.parentHash, maxDepth);
        RollbackTargets(env, db, n, g, maxDepth);
        RollbackKeepsInvariant(env, db, EventFor(r.value.value, n));
      } else if r.Found? && g.decoded.Some? && g.decoded.value.Ok? {
        StoreKeepsInvariant(env, db, g.decoded.value.value, g.walk, maxDepth);
      }
    }
  }

  lemma {:induction false} StoreKeepsInvariant(
    env: Env, db: Tables, ib: IndexedBlock, walk: seq<Option<Block>>, maxDepth: nat)
    requires ValidEnv(env) && DbInv(env, db) && (ib.block.number <= 1 ==> NotBelow(db, ib.block.number))
    requires Plausible(env, ib.block, ib.block.number) && BlockDecoder.WellFormed(ib)
    requires Detected(walk, db.cursor, ib.block.number, ib.block.parentHash, maxDepth) == Found(None)
    ensures DbInv(env, Commit(db, ib))
  {
    if ib.block.number >= 2 {
      DetectionAdmitsOnlyTheChild(env, db, ib.block.number, ib.block, walk, maxDepth);
    }
    PutKeepsRows(env, db.blocks, db.cursor, ib.block);
    CommitKeepsLogsDense(db, ib);
    CommitKeepsIntegrity(db, ib);
  }

  lemma {:induction false} StepKeepsInvariant(env: Env, cfg: Config, s: Sys, s': Sys)
    requires ValidEnv(env) && Inv(env, cfg, s) && Step(env, cfg, s, s')
    ensures Inv(env, cfg, s')
  {
    if g :| Attempted(env, cfg, s, s', g) {
      AttemptKeepsInvariant(env, s.db, s.process.next, g, cfg.maxDepth);
    }
  }

  lemma {:induction false} StepsKeepInvariant(env: Env, cfg: Config, run: seq<Sys>, i: nat)
    requires ValidEnv(env) && Steps(env, cfg, run) && i < |run| && Inv(env, cfg, run[0])
    ensures Inv(env, cfg, run[i])
  {
    if i > 0 {
      StepsKeepInvariant(env, cfg, run, i - 1);
      assert StepAt(env, cfg, run, i - 1);
      StepKeepsInvariant(env, cfg, run[i - 1], run[i]);
    }
  }

  /** In every state of every run the invariant holds. */
  lemma {:induction false} RunKeepsInvariant(env: Env, cfg: Config, run: seq<Sys>, i: nat)
    requires ValidEnv(env) && IsRun(env, cfg, run) && i < |run|
    ensures Inv(env, cfg, run[i])
  {
    StepsKeepInvariant(env, cfg, run, i);
  }
}
