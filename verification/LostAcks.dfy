/** Transactions that are applied although they report a failure: the acknowledgement of COMMIT is lost. */
module LostAcks {
  import opened Domain
  import opened Chain
  import opened Store
  import opened Reorg
  import opened Committer
  import opened Ingest
  import BlockDecoder

  /** The attempt takes effect, but the loop takes it for a failure and moves on with its old cursor. */
  ghost predicate LostAck(env: Env, cfg: Config, s: Sys, s': Sys, g: Digest)
  {
    && s.process.Draining? && s.process.next <= s.process.last && Honest(env, s.process.next, g)
    && var (db', v) := Attempt(s.db, s.process.next, g, cfg.maxDepth);
    && (v == Verdict.Stored || v == Rewound)
    && s' == Sys(db', Draining(s.process.cursor, s.process.next + 1, s.process.last))
  }

  ghost predicate LossyStep(env: Env, cfg: Config, s: Sys, s': Sys)
  {
    Step(env, cfg, s, s') || exists g :: LostAck(env, cfg, s, s', g)
  }

  ghost predicate LossyStepAt(env: Env, cfg: Config, run: seq<Sys>, i: nat)
  {
    i + 1 < |run| ==> LossyStep(env, cfg, run[i], run[i + 1])
  }

  ghost predicate IsLossyRun(env: Env, cfg: Config, run: seq<Sys>)
  {
    |run| > 0 && run[0] == INITIAL && forall i: nat :: LossyStepAt(env, cfg, run, i)
  }

  // ----- what survives any loss -----

  /** The stored heights are exactly lo..hi. */
  ghost predicate HeightsTo(rows: map<nat, Block>, hi: nat)
  {
    forall k :: k in rows <==> Lowest(rows) <= k <= hi
  }

  /** Every row is a genuine block of its own height, and the two lowest are the fixed ones. */
  ghost predicate RowsGenuine(env: Env, rows: map<nat, Block>)
  {
    && (forall k :: k in rows ==> rows[k].number == k && Genuine(env.world, rows[k]))
    && (0 in rows ==> rows[0] == env.genesis) && (1 in rows ==> rows[1] == env.first)
  }

  /** The cursor's height is stored, and its hash, if not zeros, is that of some block of this height. */
  ghost predicate CursorOnRow(env: Env, rows: map<nat, Block>, cursor: Cursor)
  {
    match cursor
    case NoCursor => rows == map[]
    case At(c, h) =>
      && (c in rows || c == 0)
      && (h == ZERO_HASH || (c in rows && |h| == 32 && h in env.world && env.world[h].number == c))
  }

  ghost predicate WeakRows(env: Env, rows: map<nat, Block>, cursor: Cursor)
  {
    && (exists hi: nat :: HeightsTo(rows, hi))
    && RowsGenuine(env, rows) && CursorOnRow(env, rows, cursor)
  }

  ghost predicate Weak(env: Env, db: Tables)
  {
    WeakRows(env, db.blocks, db.cursor) && Integrity(db) && LogsDense(db.logs)
  }

  /** From height 2 on, a block that passes detection sits right above the cursor. */
  lemma {:induction false} AdmittedAboveCursor(env: Env, db: Tables, b: Block, walk: seq<Option<Block>>, maxDepth: nat)
    requires Weak(env, db) && Plausible(env, b, b.number) && b.number >= 2
    requires Detected(walk, db.cursor, b.number, b.parentHash, maxDepth) == Found(None)
    ensures db.cursor.At? && db.cursor.number == b.number - 1 && b.number - 1 in db.blocks
  {
  }

  lemma {:induction false} PutKeepsHeights(rows: map<nat, Block>, hi: nat, b: Block)
    requires HeightsTo(rows, hi) && (b.number >= 2 ==> b.number - 1 in rows)
    ensures exists hi': nat :: HeightsTo(Put(rows, b.number, b), hi')
  {
    var rows' := Put(rows, b.number, b);
    if b.number in rows {
      assert HeightsTo(rows', hi);
    } else if b.number == 0 {
      assert HeightsTo(rows', hi);
    } else {
      assert HeightsTo(rows', b.number);
    }
  }

  lemma {:induction false} PutKeepsWeakRows(env: Env, rows: map<nat, Block>, cursor: Cursor, b: Block)
    requires ValidEnv(env) && WeakRows(env, rows, cursor) && Plausible(env, b, b.number)
    requires b.number >= 2 ==> b.number - 1 in rows
    ensures WeakRows(env, Put(rows, b.number, b), At(b.number, b.hash))
  {
    var hi: nat :| HeightsTo(rows, hi);
    PutKeepsHeights(rows, hi, b);
  }

  lemma {:induction false} StoreKeepsWeak(
    env: Env, db: Tables, ib: IndexedBlock, walk: seq<Option<Block>>, maxDepth: nat)
    requires ValidEnv(env) && Weak(env, db) && Plausible(env, ib.block, ib.block.number) && BlockDecoder.WellFormed(ib)
    requires Detected(walk, db.cursor, ib.block.number, ib.block.parentHash, maxDepth) == Found(None)
    ensures Weak(env, Commit(db, ib))
  {
    if ib.block.number >= 2 {
      AdmittedAboveCursor(env, db, ib.block, walk, maxDepth);
    }
    PutKeepsWeakRows(env, db.blocks, db.cursor, ib.block);
    CommitKeepsLogsDense(db, ib);
    CommitKeepsIntegrity(db, ib);
  }

  /** A rollback ends at genesis or at the cursor's own height. */
  lemma {:induction false} WeakTargets(env: Env, db: Tables, n: nat, g: Digest, maxDepth: nat)
    requires ValidEnv(env) && Weak(env, db) && Honest(env, n, g) && g.header.Some?
    requires var r := Detected(g.walk, db.cursor, n, g.header.value.parentHash, maxDepth); r.Found? && r.value.Some?
    ensures var anc := Detected(g.walk, db.cursor, n, g.header.value.parentHash, maxDepth).value.value;
      anc == 0 || (db.cursor.At? && anc == db.cursor.number && anc in db.blocks)
  {
    WalkOutcomes(g.walk, CursorHash(db.cursor), n - 1, maxDepth, 0);
    var anc := Detected(g.walk, db.cursor, n, g.header.value.parentHash, maxDepth).value.value;
    assert Plausible(env, Answer(g.walk, n - 1 - anc).value, anc);
  }

  lemma {:induction false} DeleteKeepsHeights(rows: map<nat, Block>, hi: nat, a: nat)
    requires HeightsTo(rows, hi) && (a == 0 || a in rows)
    ensures HeightsTo(BlocksKept(rows, a), a)
  {
    assert Lowest(BlocksKept(rows, a)) == Lowest(rows);
  }

  lemma {:induction false} DeleteKeepsWeakRows(env: Env, rows: map<nat, Block>, cursor: Cursor, a: nat)
    requires WeakRows(env, rows, cursor) && (a == 0 || a in rows)
    ensures WeakRows(env, BlocksKept(rows, a), At(a, ZERO_HASH))
  {
    var hi: nat :| HeightsTo(rows, hi);
    DeleteKeepsHeights(rows, hi, a);
  }

  lemma {:induction false} RollbackKeepsWeak(env: Env, db: Tables, ev: ReorgEvent)
    requires Weak(env, db) && AncestorHash(ev) == ZERO_HASH
    requires ev.commonAncestor == 0 || ev.commonAncestor in db.blocks
    ensures Weak(env, RolledBack(db, ev))
  {
    DeleteKeepsWeakRows(env, db.blocks, db.cursor, ev.commonAncestor);
    DeleteKeepsIntegrity(db, ev.commonAncestor);
  }

  lemma {:induction false} AttemptKeepsWeak(env: Env, db: Tables, n: nat, g: Digest, maxDepth: nat)
    requires ValidEnv(env) && Weak(env, db) && Honest(env, n, g)
    ensures Weak(env, Attempt(db, n, g, maxDepth).0)
  {
    if g.header.Some? {
      var r := Detected(g.walk, db.cursor, n, g.header.value.parentHash, maxDepth);
      if r.Found? && r.value.Some? {
        AncestorBelow(g.walk, db.cursor, n, g.header.value.parentHash, maxDepth);
        WeakTargets(env, db, n, g, maxDepth);
        RollbackKeepsWeak(env, db, EventFor(r.value.value, n));
      } else if r.Found? && g.decoded.Some? && g.decoded.value.Ok? {
        StoreKeepsWeak(env, db, g.decoded.value.value, g.walk, maxDepth);
      }
    }
  }

  /** Every step but an attempt, acknowledged or not, leaves the tables alone. */
  lemma {:induction false} OnlyAttemptsWrite(env: Env, cfg: Config, s: Sys, s': Sys)
    requires LossyStep(env, cfg, s, s')
    ensures s'.db == s.db || (s.process.Draining? && exists g ::
              Honest(env, s.process.next, g) && s'.db == Attempt(s.db, s.process.next, g, cfg.maxDepth).0)
  {
    if g :| Attempted(env, cfg, s, s', g) {
      assert s'.db == Attempt(s.db, s.process.next, g, cfg.maxDepth).0;
    }
  }

  /**
   * Whatever acknowledgements are lost: no gap in the stored heights, genuine rows only, a stored cursor
   * height, resolved foreign keys and dense log indices. The chain may overtop the cursor, and rows of
   * different forks may meet.
   */
  lemma {:induction false} LossyRunsStayWeak(env: Env, cfg: Config, run: seq<Sys>, i: nat)
    requires ValidEnv(env) && IsLossyRun(env, cfg, run) && i < |run|
    ensures Weak(env, run[i].db)
  {
    if i == 0 {
      assert HeightsTo(EMPTY.blocks, 0);
    } else {
      LossyRunsStayWeak(env, cfg, run, i - 1);
      assert LossyStepAt(env, cfg, run, i - 1);
      var s, s' := run[i - 1], run[i];
      OnlyAttemptsWrite(env, cfg, s, s');
      if s'.db != s.db {
        var g :| Honest(env, s.process.next, g) && s'.db == Attempt(s.db, s.process.next, g, cfg.maxDepth).0;
        AttemptKeepsWeak(env, s.db, s.process.next, g, cfg.maxDepth);
      }
    }
  }

  // ----- when nothing is lost with the acknowledgement -----

  /** Where the next batch would start. */
  function StartOf(cfg: Config, cursor: nat): nat
  {
    Max(cursor, cfg.backfillFrom)
  }

  /** The next batch starts above the unchecked heights 0 and 1, or not below the height just stored. */
  predicate HarmlessLoss(cfg: Config, process: Process)
    requires process.Draining?
  {
    StartOf(cfg, process.cursor) >= 2 || process.next <= StartOf(cfg, process.cursor)
  }

  /** A step in which a commit's acknowledgement is lost only where that is harmless. */
  ghost predicate CarefulStep(env: Env, cfg: Config, s: Sys, s': Sys)
  {
    Step(env, cfg, s, s') || exists g :: HarmlessLostAck(env, cfg, s, s', g)
  }

  ghost predicate HarmlessLostAck(env: Env, cfg: Config, s: Sys, s': Sys, g: Digest)
  {
    && LostAck(env, cfg, s, s', g)
    && (Attempt(s.db, s.process.next, g, cfg.maxDepth).1 == Verdict.Stored ==> HarmlessLoss(cfg, s.process))
  }

  ghost predicate CarefulStepAt(env: Env, cfg: Config, run: seq<Sys>, i: nat)
  {
    i + 1 < |run| ==> CarefulStep(env, cfg, run[i], run[i + 1])
  }

  ghost predicate IsCarefulRun(env: Env, cfg: Config, run: seq<Sys>)
  {
    |run| > 0 && run[0] == INITIAL && forall i: nat :: CarefulStepAt(env, cfg, run, i)
  }

  /** The unchecked heights 0 and 1 are not attempted below the durable cursor, now or in the next batch. */
  predicate CarefulProcess(cfg: Config, s: Sys)
  {
    && (!s.process.Down? && StartOf(cfg, s.process.cursor) <= 1 ==> NotBelow(s.db, StartOf(cfg, s.process.cursor)))
    && (s.process.Draining? && s.process.next <= 1 ==> NotBelow(s.db, s.process.next))
  }

  ghost predicate Careful(env: Env, cfg: Config, s: Sys)
  {
    DbInv(env, s.db) && CarefulProcess(cfg, s)
  }

  /** How an attempt at `n` moves the durable cursor. */
  predicate CursorMoves(db: Tables, n: nat, db': Tables, v: Verdict)
  {
    match v
    case Stored => db'.cursor.At? && db'.cursor.number == n
    case Rewound =>
      && db'.cursor.At?
      && (db'.cursor.number == 0 || (db.cursor.At? && db'.cursor.number == db.cursor.number))
    case Refused => db' == db
    case Panicked => db' == db
  }

  /** No verdict but a store raises the cursor. */
  lemma {:induction false} AttemptedCursor(env: Env, db: Tables, n: nat, g: Digest, maxDepth: nat)
    requires ValidEnv(env) && DbInv(env, db) && Honest(env, n, g) && (n <= 1 ==> NotBelow(db, n))
    ensures var (db', v) := Attempt(db, n, g, maxDepth); DbInv(env, db') && CursorMoves(db, n, db', v)
  {
    AttemptKeepsInvariant(env, db, n, g, maxDepth);
    if Attempt(db, n, g, maxDepth).1 == Rewound {
      RollbackTargets(env, db, n, g, maxDepth);
    }
  }

  lemma {:induction false} CarefulAfterAttempt(cfg: Config, s: Sys, db': Tables, v: Verdict)
    requires s.process.Draining? && CarefulProcess(cfg, s) && CursorMoves(s.db, s.process.next, db', v)
    ensures CarefulProcess(cfg, AfterAttempt(cfg, s, (db', v)))
  {
  }

  lemma {:induction false} AttemptedIsCareful(env: Env, cfg: Config, s: Sys, s': Sys, g: Digest)
    requires ValidEnv(env) && Careful(env, cfg, s) && Attempted(env, cfg, s, s', g)
    ensures Careful(env, cfg, s')
  {
    var (db', v) := Attempt(s.db, s.process.next, g, cfg.maxDepth);
    AttemptedCursor(env, s.db, s.process.next, g, cfg.maxDepth);
    CarefulAfterAttempt(cfg, s, db', v);
    assert s' == AfterAttempt(cfg, s, (db', v)) && s'.db == db';
  }

  lemma {:induction false} LostAckIsCareful(env: Env, cfg: Config, s: Sys, s': Sys, g: Digest)
    requires ValidEnv(env) && Careful(env, cfg, s) && HarmlessLostAck(env, cfg, s, s', g)
    ensures Careful(env, cfg, s')
  {
    AttemptedCursor(env, s.db, s.process.next, g, cfg.maxDepth);
  }

  lemma {:induction false} CarefulStepKeeps(env: Env, cfg: Config, s: Sys, s': Sys)
    requires ValidEnv(env) && Careful(env, cfg, s) && CarefulStep(env, cfg, s, s')
    ensures Careful(env, cfg, s')
  {
    if g :| Attempted(env, cfg, s, s', g) {
      AttemptedIsCareful(env, cfg, s, s', g);
    } else if g :| HarmlessLostAck(env, cfg, s, s', g) {
      LostAckIsCareful(env, cfg, s, s', g);
    }
  }

  /** The full durable invariant survives every run in which commits are lost only where that is harmless. */
  lemma {:induction false} CarefulRunsKeepInvariant(env: Env, cfg: Config, run: seq<Sys>, i: nat)
    requires ValidEnv(env) && IsCarefulRun(env, cfg, run) && i < |run|
    ensures Careful(env, cfg, run[i])
  {
    if i > 0 {
      CarefulRunsKeepInvariant(env, cfg, run, i - 1);
      assert CarefulStepAt(env, cfg, run, i - 1);
      CarefulStepKeeps(env, cfg, run[i - 1], run[i]);
    }
  }

  // ----- and where it is lost, the next batch may break the invariant -----

  /** One of the two fixed blocks, without transactions. */
  function FixedAnswer(env: Env, n: nat): Digest
  {
    var b := if n == 0 then env.genesis else env.first;
    var ib := IndexedBlock(b, [], [], []);
    Digest(Some(b), [], Some(Ok(ib)), |CommitScript(ib)| + 1)
  }

  lemma {:induction false} FixedIsStored(env: Env, db: Tables, n: nat, maxDepth: nat)
    requires ValidEnv(env) && DbInv(env, db) && n <= 1
    ensures var g := FixedAnswer(env, n);
      Honest(env, n, g) && Attempt(db, n, g, maxDepth) == (Commit(db, g.decoded.value.value), Verdict.Stored)
  {
    var b := if n == 0 then env.genesis else env.first;
    if n !in db.blocks {
      assert HashFree(db.blocks, b.hash);
    }
  }

  lemma {:induction false} LostAckKeepsInvariant(env: Env, cfg: Config, s: Sys, s': Sys, g: Digest)
    requires ValidEnv(env) && Careful(env, cfg, s) && LostAck(env, cfg, s, s', g)
    requires Attempt(s.db, s.process.next, g, cfg.maxDepth).1 == Verdict.Stored
    ensures DbInv(env, s'.db) && s.process.next in s'.db.blocks
    ensures s' == Sys(s'.db, Draining(s.process.cursor, s.process.next + 1, s.process.last))
  {
    AttemptedCursor(env, s.db, s.process.next, g, cfg.maxDepth);
    assert s'.db.cursor.At? && s'.db.cursor.number == s.process.next;
  }

  /**
   * The condition is exact: after any harmful loss, ending the batch and storing the next batch's first
   * height leaves rows above the cursor.
   */
  lemma {:induction false} HarmfulLossBreaks(env: Env, cfg: Config, s: Sys, s': Sys, g: Digest) returns (tail: seq<Sys>)
    requires ValidEnv(env) && Careful(env, cfg, s) && LostAck(env, cfg, s, s', g) && cfg.queueDepth >= 1
    requires Attempt(s.db, s.process.next, g, cfg.maxDepth).1 == Verdict.Stored && !HarmlessLoss(cfg, s.process)
    ensures |tail| == 4 && tail[0] == s' && Steps(env, cfg, tail)
    ensures tail[3].db.cursor.At? && s.process.next in tail[3].db.blocks
    ensures tail[3].db.cursor.number < s.process.next && !DbInv(env, tail[3].db)
  {
    LostAckKeepsInvariant(env, cfg, s, s', g);
    var m, low := s.process.cursor, StartOf(cfg, s.process.cursor);
    FixedIsStored(env, s'.db, low, cfg.maxDepth);
    var fixed := FixedAnswer(env, low);
    var idle, begun := Sys(s'.db, Idle(m)), Sys(s'.db, Draining(m, low, low));
    var done := AfterAttempt(cfg, begun, Attempt(s'.db, low, fixed, cfg.maxDepth));
    assert EndBatch(s', idle) && BeginBatch(cfg, idle, begun) && Attempted(env, cfg, begun, done, fixed);
    tail := [s', idle, begun, done];
    forall i: nat ensures StepAt(env, cfg, tail, i) {
      if i == 0 {
        assert Step(env, cfg, tail[0], tail[1]);
      } else if i == 1 {
        assert Step(env, cfg, tail[1], tail[2]);
      } else if i == 2 {
        assert Step(env, cfg, tail[2], tail[3]);
      }
    }
  }
}
