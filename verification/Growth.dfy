/** How far an indexer gets: what a stable remote allows, and what failed calls lead to. */
module Growth {
  import opened Domain
  import opened Chain
  import opened Store
  import opened Reorg
  import opened Committer
  import opened Ingest
  import opened Outcomes
  import BlockDecoder

  // ----- runs against one stable chain -----

  /** A step of the machine; when `answered`, every attempt gets all its answers from the stable remote. */
  ghost predicate StepOn(env: Env, cfg: Config, remote: seq<Node>, answered: bool, s: Sys, s': Sys)
  {
    || Boot(cfg, s, s')
    || BeginBatch(cfg, s, s')
    || (exists g :: Attempted(env, cfg, s, s', g) && (answered ==> StableDigest(remote, s.process.next, g)))
    || EndBatch(s, s')
    || Crash(s, s')
  }

  ghost predicate StepOnAt(env: Env, cfg: Config, remote: seq<Node>, answered: bool, run: seq<Sys>, i: nat)
  {
    i + 1 < |run| ==> StepOn(env, cfg, remote, answered, run[i], run[i + 1])
  }

  ghost predicate IsRunOn(env: Env, cfg: Config, remote: seq<Node>, answered: bool, run: seq<Sys>)
  {
    |run| > 0 && run[0] == INITIAL && forall i: nat :: StepOnAt(env, cfg, remote, answered, run, i)
  }

  /** Some run ends in `s`. */
  ghost predicate Reachable(env: Env, cfg: Config, remote: seq<Node>, answered: bool, s: Sys)
  {
    exists run :: IsRunOn(env, cfg, remote, answered, run) && run[|run| - 1] == s
  }

  /** A set of states that runs on the remote cannot leave. */
  ghost predicate Closes(env: Env, cfg: Config, remote: seq<Node>, answered: bool, reach: Sys -> bool)
  {
    && reach(INITIAL)
    && forall s, s' {:trigger StepOn(env, cfg, remote, answered, s, s')} ::
         reach(s) && StepOn(env, cfg, remote, answered, s, s') ==> reach(s')
  }

  lemma {:induction false} ReachNext(env: Env, cfg: Config, remote: seq<Node>, answered: bool, s: Sys, s': Sys)
    requires Reachable(env, cfg, remote, answered, s) && StepOn(env, cfg, remote, answered, s, s')
    ensures Reachable(env, cfg, remote, answered, s')
  {
    var run :| IsRunOn(env, cfg, remote, answered, run) && run[|run| - 1] == s;
    var longer := run + [s'];
    forall i: nat ensures StepOnAt(env, cfg, remote, answered, longer, i) {
      if i + 1 < |run| {
        assert StepOnAt(env, cfg, remote, answered, run, i);
        assert longer[i] == run[i] && longer[i + 1] == run[i + 1];
      } else if i + 1 == |run| {
        assert longer[i] == s && longer[i + 1] == s';
      }
    }
    assert IsRunOn(env, cfg, remote, answered, longer) && longer[|longer| - 1] == s';
  }

  /** Runs on a remote are runs of the machine. */
  lemma {:induction false} RunOnIsRun(env: Env, cfg: Config, remote: seq<Node>, answered: bool, run: seq<Sys>)
    requires IsRunOn(env, cfg, remote, answered, run)
    ensures IsRun(env, cfg, run)
  {
    forall i: nat ensures StepAt(env, cfg, run, i) {
      assert StepOnAt(env, cfg, remote, answered, run, i);
    }
  }

  // ----- a ceiling -----

  /** The cursor is intact, or reset to genesis, and no higher than a batch from height 1 reaches. */
  ghost predicate LowCursor(cfg: Config, remote: seq<Node>, cursor: Cursor)
  {
    cursor.At? ==>
      && cursor.number <= 2 * cfg.queueDepth && cursor.number < |remote|
      && (cursor.hash == remote[cursor.number].header.hash || (cursor.number == 0 && cursor.hash == ZERO_HASH))
  }

  /** The next height is the cursor's own, which will be reset; or one of a batch that started at height 0 or 1. */
  ghost predicate LowProcess(cfg: Config, remote: seq<Node>, cursor: Cursor, process: Process)
  {
    process.Draining? ==>
      || (cursor.At? && cursor.number == process.next && cursor.number >= 2)
      || (process.last <= 2 * cfg.queueDepth
          && (process.next <= 1 || (cursor.At? && cursor.number == process.next - 1 && cursor.number > 0)))
  }

  ghost predicate Low(env: Env, cfg: Config, remote: seq<Node>, s: Sys)
  {
    Inv(env, cfg, s) && LowCursor(cfg, remote, s.db.cursor) && LowProcess(cfg, remote, s.db.cursor, s.process)
  }

  /** Heights 0 and 1 are stored whatever the cursor says. */
  lemma {:induction false} LowIsStored(env: Env, db: Tables, remote: seq<Node>, n: nat, g: Digest, maxDepth: nat)
    requires ValidEnv(env) && StableRemote(env, remote) && DbInv(env, db) && NotBelow(db, n)
    requires n <= 1 && StableDigest(remote, n, g)
    ensures Attempt(db, n, g, maxDepth) == (Commit(db, remote[n].decoded), Stored)
  {
    assert Headers(remote)[n] == remote[n].header;
    if n !in db.blocks {
      assert HashFree(db.blocks, remote[n].header.hash);
    }
  }

  lemma {:induction false} LowAttempt(env: Env, cfg: Config, remote: seq<Node>, s: Sys, g: Digest)
    requires ValidEnv(env) && StableRemote(env, remote) && Low(env, cfg, remote, s) && s.process.Draining?
    requires 2 * cfg.queueDepth <= cfg.maxDepth + 1
    requires s.process.next <= s.process.last && StableDigest(remote, s.process.next, g)
    ensures var n := s.process.next;
      Attempt(s.db, n, g, cfg.maxDepth) ==
        if n >= 2 && s.db.cursor.At? && s.db.cursor.number == n then (RolledBack(s.db, EventFor(0, n)), Rewound)
        else (Commit(s.db, remote[n].decoded), Stored)
    ensures !(s.process.next >= 2 && s.db.cursor.At? && s.db.cursor.number == s.process.next) ==>
              s.process.next <= 2 * cfg.queueDepth
  {
    var n := s.process.next;
    if n <= 1 {
      LowIsStored(env, s.db, remote, n, g, cfg.maxDepth);
    } else if s.db.cursor.number == n {
      StableRefusal(env, s.db, remote, n, n, g, cfg.maxDepth);
    } else {
      ChildIsStored(env, s.db, remote, n - 1, g, cfg.maxDepth);
    }
  }

  lemma {:induction false} LowAttempted(env: Env, cfg: Config, remote: seq<Node>, s: Sys, s': Sys, g: Digest)
    requires ValidEnv(env) && StableRemote(env, remote) && Low(env, cfg, remote, s)
    requires 2 * cfg.queueDepth <= cfg.maxDepth + 1
    requires Attempted(env, cfg, s, s', g) && StableDigest(remote, s.process.next, g)
    ensures LowCursor(cfg, remote, s'.db.cursor) && LowProcess(cfg, remote, s'.db.cursor, s'.process)
  {
    LowAttempt(env, cfg, remote, s, g);
    assert s' == AfterAttempt(cfg, s, Attempt(s.db, s.process.next, g, cfg.maxDepth));
  }

  lemma {:induction false} LowStep(env: Env, cfg: Config, remote: seq<Node>, s: Sys, s': Sys)
    requires ValidEnv(env) && StableRemote(env, remote) && Low(env, cfg, remote, s)
    requires 2 * cfg.queueDepth <= cfg.maxDepth + 1 && cfg.backfillFrom <= 1
    requires StepOn(env, cfg, remote, true, s, s')
    ensures LowCursor(cfg, remote, s'.db.cursor) && LowProcess(cfg, remote, s'.db.cursor, s'.process)
  {
    if g :| Attempted(env, cfg, s, s', g) && StableDigest(remote, s.process.next, g) {
      LowAttempted(env, cfg, remote, s, s', g);
    } else {
      assert s'.db == s.db;
    }
  }

  lemma {:induction false} LowStepOfRun(env: Env, cfg: Config, remote: seq<Node>, run: seq<Sys>, i: nat)
    requires ValidEnv(env) && StableRemote(env, remote) && IsRunOn(env, cfg, remote, true, run) && i + 1 < |run|
    requires 2 * cfg.queueDepth <= cfg.maxDepth + 1 && cfg.backfillFrom <= 1 && Low(env, cfg, remote, run[i])
    ensures LowCursor(cfg, remote, run[i + 1].db.cursor)
    ensures LowProcess(cfg, remote, run[i + 1].db.cursor, run[i + 1].process)
  {
    assert StepOnAt(env, cfg, remote, true, run, i);
    LowStep(env, cfg, remote, run[i], run[i + 1]);
  }

  lemma {:induction false} InvOfRun(env: Env, cfg: Config, remote: seq<Node>, run: seq<Sys>, i: nat)
    requires ValidEnv(env) && IsRunOn(env, cfg, remote, true, run) && i < |run|
    ensures Inv(env, cfg, run[i])
  {
    RunOnIsRun(env, cfg, remote, true, run);
    RunKeepsInvariant(env, cfg, run, i);
  }

  lemma {:induction false} StableRunIsLow(env: Env, cfg: Config, remote: seq<Node>, run: seq<Sys>, i: nat)
    requires ValidEnv(env) && StableRemote(env, remote) && IsRunOn(env, cfg, remote, true, run) && i < |run|
    requires 2 * cfg.queueDepth <= cfg.maxDepth + 1 && cfg.backfillFrom <= 1
    ensures Low(env, cfg, remote, run[i])
  {
    InvOfRun(env, cfg, remote, run, i);
    if i > 0 {
      StableRunIsLow(env, cfg, remote, run, i - 1);
      LowStepOfRun(env, cfg, remote, run, i - 1);
    }
  }

  /**
   * With batches of at most maxDepth + 1 heights, an indexer whose every call is answered by one stable
   * chain never gets above the height its first batch can reach: each batch restarts at the cursor,
   * takes the missing match for a reorg, and resets the store to genesis.
   */
  lemma {:induction false} StableIndexerHasCeiling(env: Env, cfg: Config, remote: seq<Node>, run: seq<Sys>, i: nat)
    requires ValidEnv(env) && StableRemote(env, remote) && IsRunOn(env, cfg, remote, true, run) && i < |run|
    requires 2 * cfg.queueDepth <= cfg.maxDepth + 1 && cfg.backfillFrom <= 1
    ensures forall h :: h in run[i].db.blocks ==> h <= 2 * cfg.queueDepth
    ensures run[i].db.cursor.At? ==> run[i].db.cursor.number <= 2 * cfg.queueDepth
  {
    StableRunIsLow(env, cfg, remote, run, i);
  }

  // ----- building runs -----

  /** A remote to run on, a set of states that runs on it cannot leave, and what an intact cursor is. */
  datatype Play = Play(
    env: Env, cfg: Config, remote: seq<Node>, answered: bool, reach: Sys -> bool, intact: (Tables, nat) -> bool)

  ghost predicate Fair(p: Play)
  {
    && ValidEnv(p.env) && StableRemote(p.env, p.remote) && p.cfg.queueDepth >= 1 && p.cfg.backfillFrom <= 1
    && Closes(p.env, p.cfg, p.remote, p.answered, p.reach)
    && forall db, c {:trigger IntactAt(p.env, db, p.remote, c)} :: p.intact(db, c) <==> IntactAt(p.env, db, p.remote, c)
  }

  /** The states that runs on the remote do reach. */
  ghost function Runs(env: Env, cfg: Config, remote: seq<Node>, answered: bool): Play
  {
    Play(env, cfg, remote, answered, (s: Sys) => Reachable(env, cfg, remote, answered, s),
         (db: Tables, c: nat) => IntactAt(env, db, remote, c))
  }

  lemma {:induction false} RunsAreFair(env: Env, cfg: Config, remote: seq<Node>, answered: bool)
    requires ValidEnv(env) && StableRemote(env, remote) && cfg.queueDepth >= 1 && cfg.backfillFrom <= 1
    ensures Fair(Runs(env, cfg, remote, answered))
  {
    assert IsRunOn(env, cfg, remote, answered, [INITIAL]);
    assert Reachable(env, cfg, remote, answered, INITIAL);
    forall s, s' | Reachable(env, cfg, remote, answered, s) && StepOn(env, cfg, remote, answered, s, s')
      ensures Reachable(env, cfg, remote, answered, s')
    {
      ReachNext(env, cfg, remote, answered, s, s');
    }
  }

  /** Everything the stable remote and a healthy database answer for height `n`. */
  function StableAnswer(remote: seq<Node>, n: nat): Digest
    requires n < |remote|
  {
    Digest(Some(remote[n].header), if n == 0 then [] else StableWalk(Headers(remote), n - 1),
           Some(Ok(remote[n].decoded)), |CommitScript(remote[n].decoded)| + 4)
  }

  const NO_ANSWER := Digest(None, [], None, 0)

  lemma {:induction false} StableAnswerHonest(env: Env, remote: seq<Node>, n: nat)
    requires StableRemote(env, remote) && n < |remote|
    ensures StableDigest(remote, n, StableAnswer(remote, n)) && Honest(env, n, StableAnswer(remote, n))
  {
    var hs := Headers(remote);
    assert forall k :: 0 <= k < |hs| ==> Plausible(env, hs[k], k);
    assert Plausible(env, remote[n].header, n) by { assert hs[n] == remote[n].header; }
  }

  lemma {:induction false} ReachBatch(p: Play, db: Tables, c: nat, last: nat)
    requires Fair(p) && p.reach(Sys(db, Idle(c)))
    requires Max(c, p.cfg.backfillFrom) <= last < Max(c, p.cfg.backfillFrom) + 2 * p.cfg.queueDepth
    ensures p.reach(Sys(db, Draining(c, Max(c, p.cfg.backfillFrom), last)))
  {
    var s, s' := Sys(db, Idle(c)), Sys(db, Draining(c, Max(c, p.cfg.backfillFrom), last));
    assert BeginBatch(p.cfg, s, s');
    assert StepOn(p.env, p.cfg, p.remote, p.answered, s, s');
  }

  lemma {:induction false} ReachEnd(p: Play, db: Tables, c: nat, n: nat, last: nat)
    requires Fair(p) && p.reach(Sys(db, Draining(c, n, last)))
    ensures p.reach(Sys(db, Idle(c)))
  {
    var s, s' := Sys(db, Draining(c, n, last)), Sys(db, Idle(c));
    assert EndBatch(s, s');
    assert StepOn(p.env, p.cfg, p.remote, p.answered, s, s');
  }

  lemma {:induction false} ReachAttempt(p: Play, s: Sys, g: Digest, outcome: (Tables, Verdict))
    requires Fair(p) && p.reach(s) && s.process.Draining? && s.process.next <= s.process.last
    requires Honest(p.env, s.process.next, g) && (p.answered ==> StableDigest(p.remote, s.process.next, g))
    requires Attempt(s.db, s.process.next, g, p.cfg.maxDepth) == outcome
    ensures p.reach(AfterAttempt(p.cfg, s, outcome))
  {
    var s' := AfterAttempt(p.cfg, s, outcome);
    assert Attempted(p.env, p.cfg, s, s', g);
    assert StepOn(p.env, p.cfg, p.remote, p.answered, s, s');
  }

  /** The stable answer for the next height, and what the attempt makes of it. */
  lemma {:induction false} ReachStored(p: Play, db: Tables, m: nat, n: nat, last: nat, db': Tables)
    requires Fair(p) && p.reach(Sys(db, Draining(m, n, last))) && n <= last && n < |p.remote|
    requires Attempt(db, n, StableAnswer(p.remote, n), p.cfg.maxDepth) == (db', Verdict.Stored)
    ensures p.reach(Sys(db', Draining(n, n + 1, last)))
  {
    StableAnswerHonest(p.env, p.remote, n);
    ReachAttempt(p, Sys(db, Draining(m, n, last)), StableAnswer(p.remote, n), (db', Verdict.Stored));
  }

  lemma {:induction false} LowIsIntact(env: Env, db: Tables, remote: seq<Node>, n: nat, maxDepth: nat)
    requires ValidEnv(env) && StableRemote(env, remote) && DbInv(env, db) && NotBelow(db, n) && n <= 1
    ensures Attempt(db, n, StableAnswer(remote, n), maxDepth) == (Commit(db, remote[n].decoded), Verdict.Stored)
    ensures IntactAt(env, Commit(db, remote[n].decoded), remote, n)
  {
    StableAnswerHonest(env, remote, n);
    LowIsStored(env, db, remote, n, StableAnswer(remote, n), maxDepth);
    AttemptKeepsInvariant(env, db, n, StableAnswer(remote, n), maxDepth);
  }

  /** Heights 0 and 1 are stored on the way. */
  lemma {:induction false} ReachLow(p: Play, db: Tables, m: nat, n: nat, last: nat) returns (db': Tables)
    requires Fair(p) && DbInv(p.env, db) && NotBelow(db, n) && n <= 1 && n <= last
    requires p.reach(Sys(db, Draining(m, n, last)))
    ensures p.reach(Sys(db', Draining(n, n + 1, last))) && p.intact(db', n)
  {
    LowIsIntact(p.env, db, p.remote, n, p.cfg.maxDepth);
    db' := Commit(db, p.remote[n].decoded);
    ReachStored(p, db, m, n, last, db');
  }

  /** The child of an intact cursor is stored on the way. */
  lemma {:induction false} ReachChild(p: Play, db: Tables, m: nat, c: nat, last: nat) returns (db': Tables)
    requires Fair(p) && p.intact(db, c) && 1 <= c < |p.remote| - 1 && c < last
    requires p.reach(Sys(db, Draining(m, c + 1, last)))
    ensures p.reach(Sys(db', Draining(c + 1, c + 2, last))) && p.intact(db', c + 1)
  {
    StableAnswerHonest(p.env, p.remote, c + 1);
    ChildIsStored(p.env, db, p.remote, c, StableAnswer(p.remote, c + 1), p.cfg.maxDepth);
    db' := Commit(db, p.remote[c + 1].decoded);
    ReachStored(p, db, m, c + 1, last, db');
  }

  lemma {:induction false} DepthRefuses(env: Env, db: Tables, remote: seq<Node>, c: nat, maxDepth: nat)
    requires StableRemote(env, remote) && maxDepth + 2 <= c < |remote| && db.cursor == At(c, remote[c].header.hash)
    ensures Attempt(db, c, StableAnswer(remote, c), maxDepth) == (db, Refused)
  {
    StableAnswerHonest(env, remote, c);
    StableRefusal(env, db, remote, c, c, StableAnswer(remote, c), maxDepth);
  }

  /** A height is passed over: by a missing answer, or by the depth limit although all is answered. */
  lemma {:induction false} ReachRefused(p: Play, db: Tables, c: nat, n: nat, last: nat)
    requires Fair(p) && n <= last && p.reach(Sys(db, Draining(c, n, last)))
    requires p.answered ==> p.cfg.maxDepth + 2 <= n == c < |p.remote| && db.cursor == At(c, p.remote[c].header.hash)
    ensures p.reach(Sys(db, Draining(c, n + 1, last)))
  {
    var s := Sys(db, Draining(c, n, last));
    if p.answered {
      StableAnswerHonest(p.env, p.remote, c);
      DepthRefuses(p.env, db, p.remote, c, p.cfg.maxDepth);
      ReachAttempt(p, s, StableAnswer(p.remote, c), (db, Refused));
    } else {
      ReachAttempt(p, s, NO_ANSWER, (db, Refused));
    }
  }

  /** A run ends idle with an intact cursor at `c`. */
  ghost predicate Gets(p: Play, c: nat)
  {
    exists db :: p.reach(Sys(db, Idle(c))) && p.intact(db, c)
  }

  lemma {:induction false} ReachBoot(p: Play)
    requires Fair(p)
    ensures p.reach(Sys(EMPTY, Idle(0)))
  {
    assert Boot(p.cfg, INITIAL, Sys(EMPTY, Idle(0)));
    assert StepOn(p.env, p.cfg, p.remote, p.answered, INITIAL, Sys(EMPTY, Idle(0)));
  }

  /** Height 1 is reached in one batch. */
  lemma {:induction false} ReachOne(p: Play) returns (db: Tables)
    requires Fair(p)
    ensures p.reach(Sys(db, Idle(1))) && p.intact(db, 1)
  {
    ReachBoot(p);
    ReachBatch(p, EMPTY, 0, 1);
    db := EMPTY;
    if p.cfg.backfillFrom == 0 {
      db := ReachLow(p, EMPTY, 0, 0, 1);
      assert IntactAt(p.env, db, p.remote, 0);
    }
    db := ReachLow(p, db, 0, 1, 1);
    ReachEnd(p, db, 1, 2, 1);
  }

  /** A batch begins by passing the cursor's own height over. */
  lemma {:induction false} ReachPast(p: Play, db: Tables, c: nat, last: nat)
    requires Fair(p) && 1 <= c < |p.remote| && db.cursor == At(c, p.remote[c].header.hash)
    requires c <= last < c + 2 * p.cfg.queueDepth && (p.answered ==> c >= p.cfg.maxDepth + 2)
    requires p.reach(Sys(db, Idle(c)))
    ensures p.reach(Sys(db, Draining(c, c + 1, last)))
  {
    ReachBatch(p, db, c, last);
    ReachRefused(p, db, c, c, last);
  }

  /** One batch from an intact cursor stores its child, once the cursor's own height has been passed over. */
  lemma {:induction false} ReachNextHeight(p: Play, c: nat)
    requires Fair(p) && 1 <= c < |p.remote| - 1 && (p.answered ==> c >= p.cfg.maxDepth + 2) && Gets(p, c)
    ensures Gets(p, c + 1)
  {
    var db :| p.reach(Sys(db, Idle(c))) && p.intact(db, c);
    assert IntactAt(p.env, db, p.remote, c);
    ReachPast(p, db, c, c + 1);
    var db' := ReachChild(p, db, c, c, c + 1);
    ReachEnd(p, db', c + 1, c + 2, c + 1);
  }

  lemma {:induction false} ReachHeight(p: Play, low: nat, c: nat)
    requires Fair(p) && 1 <= low <= c < |p.remote| && (p.answered ==> low >= p.cfg.maxDepth + 2) && Gets(p, low)
    ensures Gets(p, c)
    decreases c
  {
    if low < c {
      ReachHeight(p, low, c - 1);
      ReachNextHeight(p, c - 1);
    }
  }

  // ----- when the ceiling gives way -----

  /** From an intact cursor a batch stores height after height. */
  lemma {:induction false} ReachThrough(p: Play, db: Tables, c: nat, last: nat) returns (db': Tables)
    requires Fair(p) && 1 <= c <= last < |p.remote|
    requires p.reach(Sys(db, Draining(c, c + 1, last))) && p.intact(db, c)
    ensures p.reach(Sys(db', Draining(last, last + 1, last))) && p.intact(db', last)
    decreases last - c
  {
    db' := db;
    if c < last {
      db' := ReachChild(p, db, c, c, last);
      db' := ReachThrough(p, db', c + 1, last);
    }
  }

  /** A batch that starts at height 1 ends two queue depths up. */
  lemma {:induction false} ReachFullBatch(p: Play, top: nat)
    requires Fair(p) && top == 2 * p.cfg.queueDepth < |p.remote|
    ensures Gets(p, top)
  {
    var db := ReachOne(p);
    assert IntactAt(p.env, db, p.remote, 1);
    ReachBatch(p, db, 1, top);
    db := ReachLow(p, db, 1, 1, top);
    db := ReachThrough(p, db, 1, top);
    ReachEnd(p, db, top, top + 1, top);
  }

  /** With larger batches every height of the stable chain is reached. */
  lemma {:induction false} StableIndexerReaches(p: Play, c: nat)
    requires Fair(p) && p.cfg.maxDepth + 2 <= 2 * p.cfg.queueDepth <= c < |p.remote|
    ensures Gets(p, c)
  {
    ReachFullBatch(p, 2 * p.cfg.queueDepth);
    ReachHeight(p, 2 * p.cfg.queueDepth, c);
  }

  ghost predicate Above(s: Sys, h: nat)
  {
    s.db.cursor.At? && s.db.cursor.number > h
  }

  /** Some state within reach lies above two queue depths. */
  lemma {:induction false} ReachAbove(p: Play) returns (s: Sys)
    requires Fair(p) && p.cfg.maxDepth + 2 <= 2 * p.cfg.queueDepth < |p.remote| - 1
    ensures p.reach(s) && Above(s, 2 * p.cfg.queueDepth)
  {
    StableIndexerReaches(p, 2 * p.cfg.queueDepth + 1);
    var db := CursorOf(p, 2 * p.cfg.queueDepth + 1);
    s := Sys(db, Idle(2 * p.cfg.queueDepth + 1));
  }

  lemma {:induction false} CeilingGivesWay(env: Env, cfg: Config, remote: seq<Node>) returns (s: Sys)
    requires ValidEnv(env) && StableRemote(env, remote) && cfg.backfillFrom <= 1
    requires cfg.maxDepth + 2 <= 2 * cfg.queueDepth < |remote| - 1
    ensures Reachable(env, cfg, remote, true, s) && Above(s, 2 * cfg.queueDepth)
  {
    var p := Runs(env, cfg, remote, true);
    RunsAreFair(env, cfg, remote, true);
    s := ReachAbove(p);
  }

  /**
   * An indexer whose every call is answered by one stable chain can get above two queue depths if and
   * only if its batches hold at least maxDepth + 2 heights.
   */
  lemma {:induction false} CeilingIff(env: Env, cfg: Config, remote: seq<Node>)
    requires ValidEnv(env) && StableRemote(env, remote) && cfg.backfillFrom <= 1
    requires 2 * cfg.queueDepth + 1 < |remote|
    ensures (exists s :: Reachable(env, cfg, remote, true, s) && Above(s, 2 * cfg.queueDepth))
       <==> 2 * cfg.queueDepth >= cfg.maxDepth + 2
  {
    if 2 * cfg.queueDepth >= cfg.maxDepth + 2 {
      var s := CeilingGivesWay(env, cfg, remote);
    } else if s :| Reachable(env, cfg, remote, true, s) && Above(s, 2 * cfg.queueDepth) {
      var run :| IsRunOn(env, cfg, remote, true, run) && run[|run| - 1] == s;
      StableIndexerHasCeiling(env, cfg, remote, run, |run| - 1);
    }
  }

  /** The default configuration: queues of 32, a depth of 128, starting at genesis. */
  const DEFAULTS := Config(0, 128, 32)

  /** A default indexer with a healthy node and database never stores a height above 64. */
  lemma {:induction false} DefaultsStayBelow(env: Env, remote: seq<Node>, run: seq<Sys>, i: nat)
    requires ValidEnv(env) && StableRemote(env, remote) && IsRunOn(env, DEFAULTS, remote, true, run) && i < |run|
    ensures forall h :: h in run[i].db.blocks ==> h <= 64
  {
    StableIndexerHasCeiling(env, DEFAULTS, remote, run, i);
  }

  // ----- a stall within reach -----

  lemma {:induction false} ZeroCursorOf(env: Env, db: Tables, remote: seq<Node>, c: nat, maxDepth: nat)
    requires StableRemote(env, remote) && c < |remote| - 2 && db.cursor == At(c, remote[c].header.hash)
    requires maxDepth >= 1
    ensures Attempt(db, c + 2, StableAnswer(remote, c + 2), maxDepth) == (RolledBack(db, EventFor(c, c + 2)), Rewound)
  {
    StableAnswerHonest(env, remote, c + 2);
    StableRefusal(env, db, remote, c, c + 2, StableAnswer(remote, c + 2), maxDepth);
  }

  /** After a batch passes the cursor and its child over, the next height zeroes the cursor. */
  lemma {:induction false} ReachZeroCursor(p: Play, db: Tables, c: nat) returns (s: Sys)
    requires Fair(p) && c < |p.remote| - 2 && db.cursor == At(c, p.remote[c].header.hash)
    requires p.cfg.maxDepth >= 1 && p.reach(Sys(db, Draining(c, c + 2, c + 2)))
    ensures p.reach(s) && s.db.cursor == At(c, ZERO_HASH)
  {
    var before, outcome := Sys(db, Draining(c, c + 2, c + 2)), (RolledBack(db, EventFor(c, c + 2)), Rewound);
    StableAnswerHonest(p.env, p.remote, c + 2);
    ZeroCursorOf(p.env, db, p.remote, c, p.cfg.maxDepth);
    ReachAttempt(p, before, StableAnswer(p.remote, c + 2), outcome);
    s := AfterAttempt(p.cfg, before, outcome);
  }

  lemma {:induction false} CursorOf(p: Play, c: nat) returns (db: Tables)
    requires Fair(p) && Gets(p, c)
    ensures c < |p.remote| && p.reach(Sys(db, Idle(c))) && db.cursor == At(c, p.remote[c].header.hash)
  {
    db :| p.reach(Sys(db, Idle(c))) && p.intact(db, c);
    assert IntactAt(p.env, db, p.remote, c);
  }

  lemma {:induction false} ReachStall(p: Play, c: nat) returns (s: Sys)
    requires Fair(p) && !p.answered && p.cfg.queueDepth >= 2 && p.cfg.maxDepth >= 1
    requires 1 <= c < |p.remote| - 2 && Gets(p, c)
    ensures p.reach(s) && s.db.cursor == At(c, ZERO_HASH)
  {
    var db := CursorOf(p, c);
    ReachPast(p, db, c, c + 2);
    ReachRefused(p, db, c, c + 1, c + 2);
    s := ReachZeroCursor(p, db, c);
  }

  /** Once height 1 is within reach, so is every height, and then the stall. */
  lemma {:induction false} ReachStallFromOne(p: Play) returns (s: Sys)
    requires Fair(p) && !p.answered && p.cfg.queueDepth >= 2 && p.cfg.maxDepth >= 1 && |p.remote| > p.cfg.maxDepth + 4
    ensures p.reach(s) && StalledAt(s.db, p.cfg.maxDepth)
  {
    var db := ReachOne(p);
    ReachHeight(p, 1, p.cfg.maxDepth + 2);
    s := ReachStall(p, p.cfg.maxDepth + 2);
  }

  /**
   * Two missing answers in one batch freeze the tables: some run passes the cursor and its child over,
   * and the height after them zeroes the cursor out of the walk's reach.
   */
  lemma {:induction false} StallWithinReach(env: Env, cfg: Config, remote: seq<Node>) returns (run: seq<Sys>)
    requires ValidEnv(env) && StableRemote(env, remote) && cfg.backfillFrom <= 1
    requires cfg.queueDepth >= 2 && cfg.maxDepth >= 1 && |remote| > cfg.maxDepth + 4
    ensures IsRun(env, cfg, run) && StalledAt(run[|run| - 1].db, cfg.maxDepth)
  {
    var p := Runs(env, cfg, remote, false);
    RunsAreFair(env, cfg, remote, false);
    var s := ReachStallFromOne(p);
    assert Reachable(env, cfg, remote, false, s);
    run :| IsRunOn(env, cfg, remote, false, run) && run[|run| - 1] == s;
    RunOnIsRun(env, cfg, remote, false, run);
  }
}
