/** Rows arrive with their block and leave with their block. */
module Durability {
  import opened Domain
  import opened Store
  import opened Committer
  import opened Ingest
  import opened Projections
  import BlockDecoder
  import Transfers
  import Reorg

  // ----- arrival -----

  ghost predicate DistinctKeys<K, V>(rows: seq<(K, V)>)
  {
    forall i, j :: 0 <= i < j < |rows| ==> rows[i].0 != rows[j].0
  }

  lemma {:induction false} FirstWinsDistinct<K, V>(m: map<K, V>, rows: seq<(K, V)>, i: nat)
    requires DistinctKeys(rows) && i < |rows| && rows[i].0 !in m
    ensures rows[i].0 in FirstWins(m, rows) && FirstWins(m, rows)[rows[i].0] == rows[i].1
  {
    var front := rows[..|rows| - 1];
    if i < |rows| - 1 {
      FirstWinsDistinct(m, front, i);
    } else {
      FirstWinsRows(m, front);
      assert forall k :: 0 <= k < |front| ==> front[k] == rows[k];
    }
  }

  lemma {:induction false} StoredLogs(logs: map<(nat, nat), Log>, ib: IndexedBlock)
    requires BlockDecoder.WellFormed(ib) && forall k :: k in logs ==> k.0 != ib.block.number
    ensures LogsExact(FirstWins(logs, LogRows(ib.logs)), ib)
  {
    NewLogs(logs, ib);
    var rows := LogRows(ib.logs);
    assert forall i :: 0 <= i < |rows| ==> rows[i] == ((ib.block.number, i), ib.logs[i]);
    forall i: nat | i < |ib.logs|
      ensures (ib.block.number, i) in FirstWins(logs, rows) && FirstWins(logs, rows)[(ib.block.number, i)] == ib.logs[i]
    {
      assert rows[i] == ((ib.block.number, i), ib.logs[i]);
      FirstWinsDistinct(logs, rows, i);
    }
  }

  lemma {:induction false} StoredHashes(t: Tables, ib: IndexedBlock)
    requires Integrity(t) && BlockDecoder.WellFormed(ib) && forall k :: k in t.blocks ==> k <= ib.block.number
    ensures TransactionsKnown(FirstWins(t.transactions, TxRows(ib.transactions)), ib)
  {
    NewTransactions(t.transactions, ib);
    FirstWinsRows(t.transactions, TxRows(ib.transactions));
    forall i | 0 <= i < |ib.transactions|
      ensures ib.transactions[i].hash in FirstWins(t.transactions, TxRows(ib.transactions))
    {
      assert TxRows(ib.transactions)[i].0 == ib.transactions[i].hash;
    }
  }

  /** Every transaction hash of the block has a row, the block's own or one of a block below. */
  ghost predicate TransactionsKnown(txs: map<B256, Transaction>, ib: IndexedBlock)
  {
    forall i :: 0 <= i < |ib.transactions| ==>
      ib.transactions[i].hash in txs && txs[ib.transactions[i].hash].blockNumber <= ib.block.number
  }

  /** The stored logs of the block's height are exactly the block's. */
  ghost predicate LogsExact(logs: map<(nat, nat), Log>, ib: IndexedBlock)
  {
    && (forall i: nat :: i < |ib.logs| ==>
          (ib.block.number, i) in logs && logs[(ib.block.number, i)] == ib.logs[i])
    && (forall k :: k in logs && k.0 == ib.block.number ==> k.1 < |ib.logs|)
  }

  /** The stored transfers of the block's height are exactly the first of each log. */
  ghost predicate TransfersFirst(transfers: map<(nat, nat), TokenTransfer>, ib: IndexedBlock)
    requires BlockDecoder.Faithful(ib)
  {
    BlockDecoder.TransfersDecode(ib.logs);
    var groups := Decodings(ib.logs);
    && (forall k :: k in transfers && k.0 == ib.block.number ==>
          k.1 < |groups| && groups[k.1] != [] && transfers[k] == groups[k.1][0])
    && (forall i: nat :: i < |groups| && groups[i] != [] ==> (ib.block.number, i) in transfers)
  }

  /** The tables hold all of the block: its header, its transactions, its logs, and each log's first transfer. */
  ghost predicate Holds(t: Tables, ib: IndexedBlock)
    requires BlockDecoder.Faithful(ib)
  {
    && ib.block.number in t.blocks && t.blocks[ib.block.number] == ib.block
    && TransactionsKnown(t.transactions, ib) && LogsExact(t.logs, ib) && TransfersFirst(t.transfers, ib)
  }

  lemma {:induction false} StoredFirstTransfers(t: Tables, ib: IndexedBlock)
    requires BlockDecoder.Faithful(ib) && forall k :: k in t.transfers ==> k.0 != ib.block.number
    ensures TransfersFirst(Commit(t, ib).transfers, ib)
  {
    StoredTransfers(t, ib);
  }

  /** A block stored above all others is held whole. */
  lemma {:induction false} StoredBlockIsComplete(t: Tables, ib: IndexedBlock)
    requires Integrity(t) && BlockDecoder.Faithful(ib) && forall k :: k in t.blocks ==> k < ib.block.number
    ensures Holds(Commit(t, ib), ib)
  {
    StoredLogs(t.logs, ib);
    StoredHashes(t, ib);
    StoredFirstTransfers(t, ib);
  }

  /** A block held whole stays so when a higher one is stored. */
  lemma {:induction false} CommitKeepsHeld(t: Tables, ib: IndexedBlock, next: IndexedBlock)
    requires BlockDecoder.Faithful(ib) && Holds(t, ib)
    requires BlockDecoder.WellFormed(next) && ib.block.number < next.block.number
    ensures Holds(Commit(t, next), ib)
  {
    NewTransactions(t.transactions, next);
    NewLogs(t.logs, next);
    NewTransfers(t.transfers, next);
  }

  // ----- departure -----

  /** Whatever `after` lacks of `before` belonged to a block that `after` lacks too. */
  ghost predicate LeavesOnlyWithBlock(before: Tables, after: Tables)
  {
    && (forall h :: h in before.transactions && before.transactions[h].blockNumber in after.blocks ==>
          h in after.transactions && after.transactions[h] == before.transactions[h])
    && (forall k :: k in before.logs && k.0 in after.blocks ==> k in after.logs && after.logs[k] == before.logs[k])
    && (forall k :: k in before.transfers && k.0 in after.blocks ==>
          k in after.transfers && after.transfers[k] == before.transfers[k])
    && (forall k :: k in before.blocks && k in after.blocks ==> after.blocks[k] == before.blocks[k])
  }

  lemma {:induction false} CommitLosesNothing(t: Tables, ib: IndexedBlock)
    requires BlockDecoder.WellFormed(ib)
    ensures LeavesOnlyWithBlock(t, Commit(t, ib))
  {
    NewTransactions(t.transactions, ib);
    NewLogs(t.logs, ib);
    NewTransfers(t.transfers, ib);
  }

  lemma {:induction false} RollbackLosesWholeBlocks(t: Tables, ev: ReorgEvent)
    ensures LeavesOnlyWithBlock(t, RolledBack(t, ev))
  {
  }

  lemma {:induction false} AttemptLosesWholeBlocks(env: Env, db: Tables, n: nat, g: Digest, maxDepth: nat)
    requires Honest(env, n, g)
    ensures LeavesOnlyWithBlock(db, Attempt(db, n, g, maxDepth).0)
  {
    var (db', v) := Attempt(db, n, g, maxDepth);
    if v == Stored {
      CommitLosesNothing(db, g.decoded.value.value);
    } else if v == Rewound {
      var r := Reorg.Detected(g.walk, db.cursor, n, g.header.value.parentHash, maxDepth);
      AncestorBelow(g.walk, db.cursor, n, g.header.value.parentHash, maxDepth);
      RollbackLosesWholeBlocks(db, EventFor(r.value.value, n));
    }
  }

  lemma {:induction false} StepLosesWholeBlocks(env: Env, cfg: Config, s: Sys, s': Sys)
    requires Step(env, cfg, s, s')
    ensures LeavesOnlyWithBlock(s.db, s'.db)
  {
    if g :| Attempted(env, cfg, s, s', g) {
      AttemptLosesWholeBlocks(env, s.db, s.process.next, g, cfg.maxDepth);
    }
  }

  /** The rows of height `h` are the same in both tables. */
  ghost predicate HeightKept(before: Tables, after: Tables, h: nat)
  {
    && h in before.blocks && h in after.blocks && after.blocks[h] == before.blocks[h]
    && (forall x :: x in before.transactions && before.transactions[x].blockNumber == h ==>
          x in after.transactions && after.transactions[x] == before.transactions[x])
    && (forall k :: k in before.logs && k.0 == h ==> k in after.logs && after.logs[k] == before.logs[k])
    && (forall k :: k in before.transfers && k.0 == h ==>
          k in after.transfers && after.transfers[k] == before.transfers[k])
  }

  /** As long as a block stays stored, no later step of a run removes or changes a row of it. */
  lemma {:induction false} HeightKeptWhileStored(env: Env, cfg: Config, run: seq<Sys>, i: nat, j: nat, h: nat)
    requires Steps(env, cfg, run) && i <= j < |run|
    requires forall k :: i <= k <= j ==> h in run[k].db.blocks
    ensures HeightKept(run[i].db, run[j].db, h)
    decreases j
  {
    if i < j {
      HeightKeptWhileStored(env, cfg, run, i, j - 1, h);
      assert StepAt(env, cfg, run, j - 1);
      StepLosesWholeBlocks(env, cfg, run[j - 1], run[j]);
    }
  }
}
