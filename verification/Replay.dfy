/** In every run the tables are what committing the stored blocks in ascending order would make of an empty store. */
module Replay {
  import opened Domain
  import opened Chain
  import opened Store
  import opened Committer
  import opened Ingest
  import opened Durability
  import Projections
  import BlockDecoder
  import Reorg

  /** The rows each block decodes to, by hash: a hash determines the transactions and receipts too. */
  type Archive = map<B256, IndexedBlock>

  ghost predicate ValidArchive(ar: Archive)
  {
    forall h :: h in ar ==> ar[h].block.hash == h && BlockDecoder.Faithful(ar[h])
  }

  /** A decoded answer is the archive's. */
  ghost predicate Archived(ar: Archive, g: Digest)
  {
    g.header.Some? && g.decoded.Some? && g.decoded.value.Ok? ==>
      g.header.value.hash in ar && g.decoded.value.value == ar[g.header.value.hash]
  }

  // ----- the stored blocks as a list -----

  ghost predicate RowsArchived(ar: Archive, rows: map<nat, Block>)
  {
    forall k :: k in rows ==> rows[k].hash in ar && ar[rows[k].hash].block == rows[k] && rows[k].number == k
  }

  ghost predicate InRows(rows: map<nat, Block>, lo: nat, count: nat)
  {
    forall k :: lo <= k < lo + count ==> k in rows
  }

  /** The archived blocks at heights lo .. lo + count - 1. */
  ghost function Bodies(ar: Archive, rows: map<nat, Block>, lo: nat, count: nat): (ibs: seq<IndexedBlock>)
    requires RowsArchived(ar, rows) && InRows(rows, lo, count)
    ensures |ibs| == count
    ensures forall i :: 0 <= i < count ==> ibs[i] == ar[rows[lo + i].hash]
  {
    seq(count, i requires 0 <= i < count => assert lo + i in rows; ar[rows[lo + i].hash])
  }

  /** How many heights are stored. */
  function Stored(db: Tables): nat
  {
    if db.cursor.At? && db.cursor.number + 1 >= Lowest(db.blocks) then db.cursor.number + 1 - Lowest(db.blocks) else 0
  }

  ghost predicate SameRows(t: Tables, u: Tables)
  {
    t.blocks == u.blocks && t.transactions == u.transactions && t.logs == u.logs && t.transfers == u.transfers
  }

  /** The tables are those of committing the stored blocks, lowest first, to an empty store. */
  ghost predicate Replays(ar: Archive, db: Tables)
  {
    && RowsArchived(ar, db.blocks) && InRows(db.blocks, Lowest(db.blocks), Stored(db))
    && SameRows(db, CommitAll(EMPTY, Bodies(ar, db.blocks, Lowest(db.blocks), Stored(db))))
  }

  // ----- commits and rollbacks act on rows alone -----

  lemma {:induction false} CommitSameRows(t: Tables, u: Tables, ib: IndexedBlock)
    requires SameRows(t, u)
    ensures SameRows(Commit(t, ib), Commit(u, ib))
  {
  }

  lemma {:induction false} RollbackSameRows(t: Tables, u: Tables, ev: ReorgEvent)
    requires SameRows(t, u)
    ensures SameRows(RolledBack(t, ev), RolledBack(u, ev))
  {
  }

  lemma {:induction false} CommitAllAppend(t: Tables, ibs: seq<IndexedBlock>, ib: IndexedBlock)
    ensures CommitAll(t, ibs + [ib]) == Commit(CommitAll(t, ibs), ib)
  {
    assert (ibs + [ib])[..|ibs|] == ibs;
  }

  lemma {:induction false} CommitAllConcat(t: Tables, a: seq<IndexedBlock>, b: seq<IndexedBlock>)
    ensures CommitAll(t, a + b) == CommitAll(CommitAll(t, a), b)
  {
    if b == [] {
      assert a + b == a;
    } else {
      assert (a + b)[..|a + b| - 1] == a + b[..|b| - 1];
      CommitAllConcat(t, a, b[..|b| - 1]);
    }
  }

  ghost predicate AllFaithful(ibs: seq<IndexedBlock>)
  {
    forall i :: 0 <= i < |ibs| ==> BlockDecoder.Faithful(ibs[i])
  }

  /** Tables made by commits alone have their foreign keys resolved and no heights but the committed ones. */
  lemma {:induction false} CommittedTables(ibs: seq<IndexedBlock>, a: nat)
    requires AllFaithful(ibs) && forall i :: 0 <= i < |ibs| ==> ibs[i].block.number <= a
    ensures Integrity(CommitAll(EMPTY, ibs)) && forall k :: k in CommitAll(EMPTY, ibs).blocks ==> k <= a
  {
    if ibs != [] {
      var n := |ibs| - 1;
      CommittedTables(ibs[..n], a);
      CommitKeepsIntegrity(CommitAll(EMPTY, ibs[..n]), ibs[n]);
    }
  }

  // ----- storing keeps the replay -----

  lemma {:induction false} BodiesFaithful(ar: Archive, rows: map<nat, Block>, lo: nat, count: nat)
    requires ValidArchive(ar) && RowsArchived(ar, rows) && InRows(rows, lo, count)
    ensures AllFaithful(Bodies(ar, rows, lo, count))
    ensures forall i :: 0 <= i < count ==> Bodies(ar, rows, lo, count)[i].block.number == lo + i
  {
    forall i | 0 <= i < count ensures Bodies(ar, rows, lo, count)[i].block.number == lo + i {
      assert lo + i in rows;
    }
  }

  /** Storing the last block of the list once more changes no row. */
  lemma {:induction false} ReplayRepeats(db: Tables, ibs: seq<IndexedBlock>, ib: IndexedBlock)
    requires SameRows(db, CommitAll(EMPTY, ibs)) && ibs != [] && ibs[|ibs| - 1] == ib
    ensures SameRows(Commit(db, ib), CommitAll(EMPTY, ibs))
  {
    CommitSameRows(db, CommitAll(EMPTY, ibs), ib);
    CommitTwice(CommitAll(EMPTY, ibs[..|ibs| - 1]), ib);
  }

  lemma {:induction false} ReplayGrows(db: Tables, ibs: seq<IndexedBlock>, ib: IndexedBlock)
    requires SameRows(db, CommitAll(EMPTY, ibs))
    ensures SameRows(Commit(db, ib), CommitAll(EMPTY, ibs + [ib]))
  {
    CommitSameRows(db, CommitAll(EMPTY, ibs), ib);
    CommitAllAppend(EMPTY, ibs, ib);
  }

  /** A block that passed detection repeats the cursor's row, or is the next height of the stored range. */
  lemma {:induction false} StoredAtTop(env: Env, db: Tables, b: Block, walk: seq<Option<Block>>, maxDepth: nat)
    requires ValidEnv(env) && DbInv(env, db) && NotBelow(db, b.number) && Plausible(env, b, b.number)
    requires Reorg.Detected(walk, db.cursor, b.number, b.parentHash, maxDepth) == Reorg.Found(None)
    ensures b.number in db.blocks ==>
              db.blocks[b.number] == b && Stored(db) > 0 && Lowest(db.blocks) + Stored(db) == b.number + 1
    ensures b.number !in db.blocks ==>
              var lo := Lowest(db.blocks[b.number := b]);
              lo + Stored(db) == b.number && (Stored(db) > 0 ==> lo == Lowest(db.blocks))
  {
    if b.number >= 2 {
      DetectionAdmitsOnlyTheChild(env, db, b.number, b, walk, maxDepth);
    }
  }

  lemma {:induction false} BodiesGrow(
    ar: Archive, rows: map<nat, Block>, lo: nat, count: nat, lo': nat, ib: IndexedBlock)
    requires RowsArchived(ar, rows) && InRows(rows, lo, count)
    requires ib.block.number !in rows && lo' + count == ib.block.number
    requires count > 0 ==> lo' == lo
    requires ib.block.hash in ar && ar[ib.block.hash] == ib
    ensures var rows' := rows[ib.block.number := ib.block];
      && RowsArchived(ar, rows') && InRows(rows', lo', count + 1)
      && Bodies(ar, rows', lo', count + 1) == Bodies(ar, rows, lo, count) + [ib]
  {
    var n := ib.block.number;
    var rows' := rows[n := ib.block];
    var old', new' := Bodies(ar, rows, lo, count) + [ib], Bodies(ar, rows', lo', count + 1);
    forall i | 0 <= i <= count ensures new'[i] == old'[i] {
      if i < count {
        assert lo + i in rows && lo' == lo;
      }
    }
  }

  lemma {:induction false} RepeatKeepsReplay(ar: Archive, db: Tables, ib: IndexedBlock)
    requires Replays(ar, db) && ib.block.hash in ar && ar[ib.block.hash] == ib
    requires ib.block.number in db.blocks && db.blocks[ib.block.number] == ib.block
    requires Stored(db) > 0 && Lowest(db.blocks) + Stored(db) == ib.block.number + 1
    ensures Replays(ar, Commit(db, ib))
  {
    var ibs := Bodies(ar, db.blocks, Lowest(db.blocks), Stored(db));
    assert ibs[Stored(db) - 1] == ib;
    ReplayRepeats(db, ibs, ib);
  }

  lemma {:induction false} ReplaysAs(ar: Archive, u: Tables, lo: nat, count: nat, ibs: seq<IndexedBlock>)
    requires RowsArchived(ar, u.blocks) && InRows(u.blocks, lo, count) && Lowest(u.blocks) == lo && Stored(u) == count
    requires Bodies(ar, u.blocks, lo, count) == ibs && SameRows(u, CommitAll(EMPTY, ibs))
    ensures Replays(ar, u)
  {
  }

  lemma {:induction false} StoredNext(db: Tables, ib: IndexedBlock)
    requires ib.block.number !in db.blocks
    requires Lowest(db.blocks[ib.block.number := ib.block]) + Stored(db) == ib.block.number
    ensures Commit(db, ib).blocks == db.blocks[ib.block.number := ib.block] && Stored(Commit(db, ib)) == Stored(db) + 1
  {
  }

  lemma {:induction false} NextKeepsReplay(ar: Archive, db: Tables, ib: IndexedBlock, lo: nat)
    requires Replays(ar, db) && ib.block.hash in ar && ar[ib.block.hash] == ib && ib.block.number !in db.blocks
    requires lo == Lowest(db.blocks[ib.block.number := ib.block])
    requires lo + Stored(db) == ib.block.number && (Stored(db) > 0 ==> lo == Lowest(db.blocks))
    ensures Replays(ar, Commit(db, ib))
  {
    var ibs := Bodies(ar, db.blocks, Lowest(db.blocks), Stored(db));
    BodiesGrow(ar, db.blocks, Lowest(db.blocks), Stored(db), lo, ib);
    ReplayGrows(db, ibs, ib);
    StoredNext(db, ib);
    ReplaysAs(ar, Commit(db, ib), lo, Stored(db) + 1, ibs + [ib]);
  }

  lemma {:induction false} StoreKeepsReplay(
    env: Env, ar: Archive, db: Tables, ib: IndexedBlock, walk: seq<Option<Block>>, maxDepth: nat)
    requires ValidEnv(env) && DbInv(env, db) && NotBelow(db, ib.block.number) && Replays(ar, db)
    requires Plausible(env, ib.block, ib.block.number) && ib.block.hash in ar && ar[ib.block.hash] == ib
    requires Reorg.Detected(walk, db.cursor, ib.block.number, ib.block.parentHash, maxDepth) == Reorg.Found(None)
    ensures Replays(ar, Commit(db, ib))
  {
    StoredAtTop(env, db, ib.block, walk, maxDepth);
    if ib.block.number in db.blocks {
      RepeatKeepsReplay(ar, db, ib);
    } else {
      NextKeepsReplay(ar, db, ib, Lowest(db.blocks[ib.block.number := ib.block]));
    }
  }

  // ----- rolling back keeps the replay -----

  lemma {:induction false} BodiesCut(ar: Archive, rows: map<nat, Block>, lo: nat, count: nat, a: nat, left: nat)
    requires RowsArchived(ar, rows) && InRows(rows, lo, count)
    requires left <= count && lo + left == if a < lo then lo else a + 1
    ensures var kept := BlocksKept(rows, a);
      && RowsArchived(ar, kept) && InRows(kept, lo, left)
      && Bodies(ar, kept, lo, left) == Bodies(ar, rows, lo, count)[..left]
  {
  }

  lemma {:induction false} RollbackCutsCommits(ibs: seq<IndexedBlock>, left: nat, ev: ReorgEvent)
    requires AllFaithful(ibs) && left <= |ibs|
    requires forall i :: 0 <= i < left ==> ibs[i].block.number <= ev.commonAncestor
    requires forall i :: left <= i < |ibs| ==> ibs[i].block.number > ev.commonAncestor
    ensures SameRows(RolledBack(CommitAll(EMPTY, ibs), ev), CommitAll(EMPTY, ibs[..left]))
  {
    var low, high := ibs[..left], ibs[left..];
    assert ibs == low + high;
    CommitAllConcat(EMPTY, low, high);
    CommittedTables(low, ev.commonAncestor);
    var t := CommitAll(EMPTY, low);
    assert CommitAll(EMPTY, ibs) == CommitAll(t, high);
    RollbackUndoesCommits(t, high, ev);
  }

  /** Which heights a rollback leaves: those up to the ancestor. */
  lemma {:induction false} RolledBackRange(env: Env, db: Tables, ev: ReorgEvent) returns (left: nat)
    requires DbInv(env, db)
    requires ev.commonAncestor == 0
          || (db.cursor.At? && ev.commonAncestor == db.cursor.number && ev.commonAncestor in db.blocks)
    ensures var lo := Lowest(db.blocks);
      && Lowest(BlocksKept(db.blocks, ev.commonAncestor)) == lo
      && left == Stored(RolledBack(db, ev)) <= Stored(db)
      && lo + left == if ev.commonAncestor < lo then lo else ev.commonAncestor + 1
  {
    left := Stored(RolledBack(db, ev));
  }

  /** Rolling replayed tables back leaves the replay of the blocks up to the ancestor. */
  lemma {:induction false} CutKeepsReplay(ar: Archive, db: Tables, ev: ReorgEvent, lo: nat, left: nat)
    requires ValidArchive(ar) && Replays(ar, db)
    requires lo == Lowest(db.blocks) == Lowest(BlocksKept(db.blocks, ev.commonAncestor))
    requires left == Stored(RolledBack(db, ev)) <= Stored(db)
    requires lo + left == if ev.commonAncestor < lo then lo else ev.commonAncestor + 1
    ensures Replays(ar, RolledBack(db, ev))
  {
    var ibs := Bodies(ar, db.blocks, lo, Stored(db));
    BodiesFaithful(ar, db.blocks, lo, Stored(db));
    BodiesCut(ar, db.blocks, lo, Stored(db), ev.commonAncestor, left);
    RollbackCutsCommits(ibs, left, ev);
    RollbackSameRows(db, CommitAll(EMPTY, ibs), ev);
  }

  lemma {:induction false} RollbackKeepsReplay(env: Env, ar: Archive, db: Tables, ev: ReorgEvent)
    requires DbInv(env, db) && ValidArchive(ar) && Replays(ar, db)
    requires ev.commonAncestor == 0
          || (db.cursor.At? && ev.commonAncestor == db.cursor.number && ev.commonAncestor in db.blocks)
    ensures Replays(ar, RolledBack(db, ev))
  {
    var left := RolledBackRange(env, db, ev);
    CutKeepsReplay(ar, db, ev, Lowest(db.blocks), left);
  }

  // ----- whole runs -----

  lemma {:induction false} AttemptKeepsReplay(env: Env, ar: Archive, db: Tables, n: nat, g: Digest, maxDepth: nat)
    requires ValidEnv(env) && DbInv(env, db) && Honest(env, n, g) && NotBelow(db, n)
    requires ValidArchive(ar) && Archived(ar, g) && Replays(ar, db)
    ensures Replays(ar, Attempt(db, n, g, maxDepth).0)
  {
    if g.header.Some? {
      var r := Reorg.Detected(g.walk, db.cursor, n, g.header.value.parentHash, maxDepth);
      if r.Found? && r.value.Some? {
        AncestorBelow(g.walk, db.cursor, n, g.header.value.parentHash, maxDepth);
        RollbackTargets(env, db, n, g, maxDepth);
        RollbackKeepsReplay(env, ar, db, EventFor(r.value.value, n));
      } else if r.Found? && g.decoded.Some? && g.decoded.value.Ok? {
        StoreKeepsReplay(env, ar, db, g.decoded.value.value, g.walk, maxDepth);
      }
    }
  }

  /** A step whose decoded answers, if any, are the archive's. */
  ghost predicate ArchivedStep(env: Env, cfg: Config, ar: Archive, s: Sys, s': Sys)
  {
    || Boot(cfg, s, s')
    || BeginBatch(cfg, s, s')
    || (exists g :: Attempted(env, cfg, s, s', g) && Archived(ar, g))
    || EndBatch(s, s')
    || Crash(s, s')
  }

  ghost predicate ArchivedStepAt(env: Env, cfg: Config, ar: Archive, run: seq<Sys>, i: nat)
  {
    i + 1 < |run| ==> ArchivedStep(env, cfg, ar, run[i], run[i + 1])
  }

  ghost predicate IsArchivedRun(env: Env, cfg: Config, ar: Archive, run: seq<Sys>)
  {
    |run| > 0 && run[0] == INITIAL && forall i: nat :: ArchivedStepAt(env, cfg, ar, run, i)
  }

  lemma {:induction false} AttemptedKeepsReplay(env: Env, cfg: Config, ar: Archive, s: Sys, s': Sys, g: Digest)
    requires ValidEnv(env) && ValidArchive(ar) && DbInv(env, s.db) && Replays(ar, s.db)
    requires Attempted(env, cfg, s, s', g) && Archived(ar, g) && NotBelow(s.db, s.process.next)
    ensures Replays(ar, s'.db)
  {
    AttemptKeepsReplay(env, ar, s.db, s.process.next, g, cfg.maxDepth);
    assert s'.db == Attempt(s.db, s.process.next, g, cfg.maxDepth).0;
  }

  lemma {:induction false} StepKeepsReplay(env: Env, cfg: Config, ar: Archive, s: Sys, s': Sys)
    requires ValidEnv(env) && ValidArchive(ar) && Inv(env, cfg, s) && Replays(ar, s.db)
    requires ArchivedStep(env, cfg, ar, s, s')
    ensures Replays(ar, s'.db)
  {
    if g :| Attempted(env, cfg, s, s', g) && Archived(ar, g) {
      AttemptedKeepsReplay(env, cfg, ar, s, s', g);
    } else {
      assert s'.db == s.db;
    }
  }

  lemma {:induction false} ArchivedStepIsStep(env: Env, cfg: Config, ar: Archive, s: Sys, s': Sys)
    requires ArchivedStep(env, cfg, ar, s, s')
    ensures Step(env, cfg, s, s')
  {
  }

  /**
   * In every state of every run, blocks, transactions, logs and transfers are exactly what committing
   * the stored blocks, lowest first, makes of an empty store: forks, rollbacks, repeated heights and
   * repeated transaction hashes leave no trace in them.
   */
  lemma {:induction false} RunReplays(env: Env, cfg: Config, ar: Archive, run: seq<Sys>, i: nat)
    requires ValidEnv(env) && ValidArchive(ar) && IsArchivedRun(env, cfg, ar, run) && i < |run|
    ensures Inv(env, cfg, run[i]) && Replays(ar, run[i].db)
  {
    if i > 0 {
      RunReplays(env, cfg, ar, run, i - 1);
      assert ArchivedStepAt(env, cfg, ar, run, i - 1);
      StepKeepsReplay(env, cfg, ar, run[i - 1], run[i]);
      ArchivedStepIsStep(env, cfg, ar, run[i - 1], run[i]);
      StepKeepsInvariant(env, cfg, run[i - 1], run[i]);
    }
  }

  // ----- nothing is missing, nothing is foreign -----

  ghost predicate Ascending(ibs: seq<IndexedBlock>)
  {
    forall i, j :: 0 <= i < j < |ibs| ==> ibs[i].block.number < ibs[j].block.number
  }

  /** Committing faithful blocks in ascending order holds each of them whole. */
  lemma {:induction false} CommitAllHolds(ibs: seq<IndexedBlock>, j: nat)
    requires AllFaithful(ibs) && Ascending(ibs) && j < |ibs|
    ensures Holds(CommitAll(EMPTY, ibs), ibs[j])
  {
    var n := |ibs| - 1;
    var front, last := ibs[..n], ibs[n];
    var t := CommitAll(EMPTY, front);
    if j == n {
      CommittedTables(front, if n == 0 then 0 else ibs[n - 1].block.number);
      assert n == 0 ==> t == EMPTY;
      StoredBlockIsComplete(t, last);
    } else {
      CommitAllHolds(front, j);
      CommitKeepsHeld(t, ibs[j], last);
    }
  }

  /** Every transaction row is a transaction of the stored block at its height. */
  ghost predicate RowsBelong(ar: Archive, db: Tables)
  {
    forall x :: x in db.transactions ==>
      var t := db.transactions[x];
      && t.hash == x && t.blockNumber in db.blocks
      && db.blocks[t.blockNumber].hash in ar && t in ar[db.blocks[t.blockNumber].hash].transactions
  }

  lemma {:induction false} CommittedBelong(ibs: seq<IndexedBlock>, x: B256) returns (i: nat)
    requires AllFaithful(ibs) && x in CommitAll(EMPTY, ibs).transactions
    ensures var t := CommitAll(EMPTY, ibs).transactions[x];
      t.hash == x && i < |ibs| && t in ibs[i].transactions && t.blockNumber == ibs[i].block.number
  {
    Projections.CommitsAsRows(EMPTY, ibs);
    var ts := Projections.AllTransactions(ibs);
    FirstWinsRows(map[], TxRows(ts));
    var j :| 0 <= j < |ts| && TxRows(ts)[j] == (x, CommitAll(EMPTY, ibs).transactions[x]);
    var k;
    i, k := Projections.SourceOf(ibs, ts[j]);
    assert BlockDecoder.Faithful(ibs[i]);
  }

  /**
   * In every state of every run, each stored block is held whole: every transaction hash has a row,
   * its own or that of a lower stored block with the same hash, its logs are exactly its own, and its
   * transfers are the first of each log. And no transaction row is foreign to the stored blocks.
   */
  lemma {:induction false} RunHoldsEveryBlock(env: Env, cfg: Config, ar: Archive, run: seq<Sys>, i: nat)
    requires ValidEnv(env) && ValidArchive(ar) && IsArchivedRun(env, cfg, ar, run) && i < |run|
    ensures var db := run[i].db;
      && (forall h :: h in db.blocks ==> db.blocks[h].hash in ar && Holds(db, ar[db.blocks[h].hash]))
      && RowsBelong(ar, db)
  {
    RunReplays(env, cfg, ar, run, i);
    ReplayedHoldsEveryBlock(env, ar, run[i].db);
  }

  lemma {:induction false} HoldsSameRows(t: Tables, u: Tables, ib: IndexedBlock)
    requires BlockDecoder.Faithful(ib) && SameRows(t, u) && Holds(u, ib)
    ensures Holds(t, ib)
  {
  }

  lemma {:induction false} StoredRange(env: Env, db: Tables, h: nat)
    requires DbInv(env, db)
    ensures h in db.blocks <==> Lowest(db.blocks) <= h < Lowest(db.blocks) + Stored(db)
  {
  }

  lemma {:induction false} ReplayedHolds(ar: Archive, db: Tables, h: nat)
    requires ValidArchive(ar) && Replays(ar, db) && Lowest(db.blocks) <= h < Lowest(db.blocks) + Stored(db)
    ensures h in db.blocks && db.blocks[h].hash in ar && Holds(db, ar[db.blocks[h].hash])
  {
    var lo, count := Lowest(db.blocks), Stored(db);
    var ibs := Bodies(ar, db.blocks, lo, count);
    BodiesFaithful(ar, db.blocks, lo, count);
    CommitAllHolds(ibs, h - lo);
    HoldsSameRows(db, CommitAll(EMPTY, ibs), ibs[h - lo]);
  }

  lemma {:induction false} ReplayedBelong(ar: Archive, db: Tables)
    requires ValidArchive(ar) && Replays(ar, db)
    ensures RowsBelong(ar, db)
  {
    var lo, count := Lowest(db.blocks), Stored(db);
    var ibs := Bodies(ar, db.blocks, lo, count);
    BodiesFaithful(ar, db.blocks, lo, count);
    forall x | x in db.transactions
      ensures var t := db.transactions[x];
        && t.hash == x && t.blockNumber in db.blocks
        && db.blocks[t.blockNumber].hash in ar && t in ar[db.blocks[t.blockNumber].hash].transactions
    {
      var i := CommittedBelong(ibs, x);
      assert lo + i in db.blocks;
    }
  }

  lemma {:induction false} ReplayedHoldsEveryBlock(env: Env, ar: Archive, db: Tables)
    requires ValidArchive(ar) && DbInv(env, db) && Replays(ar, db)
    ensures forall h :: h in db.blocks ==> db.blocks[h].hash in ar && Holds(db, ar[db.blocks[h].hash])
    ensures RowsBelong(ar, db)
  {
    forall h | h in db.blocks ensures db.blocks[h].hash in ar && Holds(db, ar[db.blocks[h].hash]) {
      StoredRange(env, db, h);
      ReplayedHolds(ar, db, h);
    }
    ReplayedBelong(ar, db);
  }
}
