/** The audit trail of rollbacks in the `reorgs` table. */
module Audit {
  import opened Domain
  import opened Store
  import opened Reorg
  import opened Committer
  import opened Ingest

  /** The row of a rollback to `ancestor` on account of height `n`. */
  ghost predicate Records(row: ReorgRow, ancestor: nat, n: nat)
  {
    && ancestor < n
    && row.ancestor == ancestor && row.depth == Min(n - ancestor, I32_MAX)
    && row.orphanedFrom == ancestor + 1 && row.orphanedTo == n
    && |row.orphanedHashes| == n - ancestor + 1
    && forall i :: 0 <= i < |row.orphanedHashes| ==> row.orphanedHashes[i] == ZERO_HASH
  }

  /** `after` is `before` with the rows above `ancestor` gone, all at most `n`, and one audit row that says so. */
  ghost predicate Rewinding(before: Tables, after: Tables, ancestor: nat, n: nat)
  {
    && after.cursor == At(ancestor, ZERO_HASH)
    && |after.reorgs| == |before.reorgs| + 1 && before.reorgs <= after.reorgs
    && Records(after.reorgs[|before.reorgs|], ancestor, n)
    && (forall h :: h in before.blocks && h !in after.blocks ==> ancestor + 1 <= h <= n)
    && (forall h :: h in after.blocks ==> h <= ancestor && h in before.blocks && after.blocks[h] == before.blocks[h])
  }

  lemma {:induction false} RollbackIsRecorded(db: Tables, ancestor: nat, n: nat)
    requires ancestor < n && forall h :: h in db.blocks ==> h <= n
    ensures Rewinding(db, RolledBack(db, EventFor(ancestor, n)), ancestor, n)
  {
  }

  lemma {:induction false} RowsBelow(env: Env, db: Tables, n: nat)
    requires DbInv(env, db) && NotBelow(db, n)
    ensures forall h :: h in db.blocks ==> h <= n
  {
  }

  lemma {:induction false} AttemptIsRecorded(env: Env, db: Tables, n: nat, g: Digest, maxDepth: nat)
    requires DbInv(env, db) && NotBelow(db, n)
    ensures var (db', v) := Attempt(db, n, g, maxDepth);
      if v == Rewound then db'.cursor.At? && Rewinding(db, db', db'.cursor.number, n) else db'.reorgs == db.reorgs
  {
    if g.header.Some? {
      var r := Detected(g.walk, db.cursor, n, g.header.value.parentHash, maxDepth);
      if r.Found? && r.value.Some? {
        AncestorBelow(g.walk, db.cursor, n, g.header.value.parentHash, maxDepth);
        RowsBelow(env, db, n);
        RollbackIsRecorded(db, r.value.value, n);
      }
    }
  }

  /** A rollback step of the machine. */
  ghost predicate RewindStep(s: Sys, s': Sys)
  {
    && s.process.Draining? && s'.db.cursor.At?
    && Rewinding(s.db, s'.db, s'.db.cursor.number, s.process.next)
  }

  /**
   * A step of a run changes the audit table only by rolling back, and then by exactly one row: its
   * ancestor is the new cursor, its range ends at the height that was attempted, and every block the
   * step deleted lies in that range.
   */
  lemma {:induction false} StepIsRecorded(env: Env, cfg: Config, s: Sys, s': Sys)
    requires Inv(env, cfg, s) && Step(env, cfg, s, s')
    ensures s'.db.reorgs == s.db.reorgs || RewindStep(s, s')
    ensures s'.db.reorgs == s.db.reorgs ==> forall h :: h in s.db.blocks ==> h in s'.db.blocks
  {
    if g :| Attempted(env, cfg, s, s', g) {
      AttemptIsRecorded(env, s.db, s.process.next, g, cfg.maxDepth);
      assert s'.db == Attempt(s.db, s.process.next, g, cfg.maxDepth).0;
    }
  }

  /** Row `k` of the table was written by the step from state `j`. */
  ghost predicate WrittenAt(run: seq<Sys>, j: nat, k: nat)
  {
    j + 1 < |run| && |run[j].db.reorgs| == k && RewindStep(run[j], run[j + 1])
  }

  /** The table only grows, and every row of it was written by one rollback step of the run. */
  lemma {:induction false} RunIsRecorded(env: Env, cfg: Config, run: seq<Sys>, i: nat, k: nat) returns (j: nat)
    requires ValidEnv(env) && IsRun(env, cfg, run) && i < |run| && k < |run[i].db.reorgs|
    ensures j < i && WrittenAt(run, j, k) && run[j + 1].db.reorgs[k] == run[i].db.reorgs[k]
  {
    if i > 0 {
      RunKeepsInvariant(env, cfg, run, i - 1);
      assert StepAt(env, cfg, run, i - 1);
      StepIsRecorded(env, cfg, run[i - 1], run[i]);
      if k < |run[i - 1].db.reorgs| {
        j := RunIsRecorded(env, cfg, run, i - 1, k);
      } else {
        j := i - 1;
      }
    }
  }
}
