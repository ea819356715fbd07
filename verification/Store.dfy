/** The PostgreSQL tables as keyed maps, the statements of the two write transactions, and the transaction object. */
module Store {
  import opened Domain
  import BlockDecoder

  datatype Direction = Outgoing | Incoming
  datatype AddressKey = AddressKey(address: Address, blockNumber: nat, txIndex: nat, direction: Direction)

  /** The single row of `indexer_state`; both columns are NULL until the first commit. */
  datatype Cursor = NoCursor | At(number: nat, hash: Bytes)

  datatype ReorgRow = ReorgRow(
    ancestor: nat, depth: nat, orphanedFrom: nat, orphanedTo: nat, orphanedHashes: seq<Bytes>)

  datatype Tables = Tables(
    blocks: map<nat, Block>,
    transactions: map<B256, Transaction>,
    logs: map<(nat, nat), Log>,
    transfers: map<(nat, nat), TokenTransfer>,
    addressIndex: map<AddressKey, B256>,
    cursor: Cursor,
    reorgs: seq<ReorgRow>)

  const EMPTY := Tables(map[], map[], map[], map[], map[], NoCursor, [])

  // ----- INSERT ... ON CONFLICT DO NOTHING -----

  function Put<K, V>(m: map<K, V>, k: K, v: V): map<K, V>
  {
    if k in m then m else m[k := v]
  }

  function FirstWins<K, V>(m: map<K, V>, rows: seq<(K, V)>): map<K, V>
  {
    if rows == [] then m
    else Put(FirstWins(m, rows[..|rows| - 1]), rows[|rows| - 1].0, rows[|rows| - 1].1)
  }

  /** Old rows stay; every new row comes from the list. */
  lemma {:induction false} FirstWinsRows<K, V>(m: map<K, V>, rows: seq<(K, V)>)
    ensures forall k :: k in m ==> k in FirstWins(m, rows) && FirstWins(m, rows)[k] == m[k]
    ensures forall i :: 0 <= i < |rows| ==> rows[i].0 in FirstWins(m, rows)
    ensures forall k :: k in FirstWins(m, rows) && k !in m ==>
              exists i :: 0 <= i < |rows| && rows[i] == (k, FirstWins(m, rows)[k])
  {
    if rows != [] {
      var front := rows[..|rows| - 1];
      FirstWinsRows(m, front);
      forall k | k in FirstWins(m, rows) && k !in m
        ensures exists i :: 0 <= i < |rows| && rows[i] == (k, FirstWins(m, rows)[k])
      {
        if k in FirstWins(m, front) {
          var i :| 0 <= i < |front| && front[i] == (k, FirstWins(m, front)[k]);
          assert rows[i] == (k, FirstWins(m, rows)[k]);
        } else {
          assert rows[|rows| - 1] == (k, FirstWins(m, rows)[k]);
        }
      }
    }
  }

  lemma {:induction false} FirstWinsConcat<K, V>(m: map<K, V>, a: seq<(K, V)>, b: seq<(K, V)>)
    ensures FirstWins(m, a + b) == FirstWins(FirstWins(m, a), b)
  {
    if b == [] {
      assert a + b == a;
    } else {
      assert (a + b)[..|a + b| - 1] == a + b[..|b| - 1];
      FirstWinsConcat(m, a, b[..|b| - 1]);
    }
  }

  lemma {:induction false} FirstWinsKnown<K, V>(m: map<K, V>, rows: seq<(K, V)>)
    requires forall i :: 0 <= i < |rows| ==> rows[i].0 in m
    ensures FirstWins(m, rows) == m
  {
    if rows != [] {
      var front := rows[..|rows| - 1];
      assert forall i :: 0 <= i < |front| ==> front[i] == rows[i];
      FirstWinsKnown(m, front);
    }
  }

  lemma {:induction false} FirstWinsTwice<K, V>(m: map<K, V>, rows: seq<(K, V)>)
    ensures FirstWins(FirstWins(m, rows), rows) == FirstWins(m, rows)
  {
    FirstWinsRows(m, rows);
    FirstWinsKnown(FirstWins(m, rows), rows);
  }

  // ----- rows of an indexed block -----

  function TxRows(ts: seq<Transaction>): seq<(B256, Transaction)>
  {
    seq(|ts|, i requires 0 <= i < |ts| => (ts[i].hash, ts[i]))
  }

  function LogRows(ls: seq<Log>): seq<((nat, nat), Log)>
  {
    seq(|ls|, i requires 0 <= i < |ls| => ((ls[i].blockNumber, ls[i].logIndex), ls[i]))
  }

  function TransferRows(ts: seq<TokenTransfer>): seq<((nat, nat), TokenTransfer)>
  {
    seq(|ts|, i requires 0 <= i < |ts| => ((ts[i].blockNumber, ts[i].logIndex), ts[i]))
  }

  /** The one or two index entries of a transaction: its sender, and its recipient unless it creates a contract. */
  function AddressRowsOf(t: Transaction): seq<(AddressKey, B256)>
  {
    [(AddressKey(t.from, t.blockNumber, t.txIndex, Outgoing), t.hash)] +
    if t.to.Some? then [(AddressKey(t.to.value, t.blockNumber, t.txIndex, Incoming), t.hash)] else []
  }

  function AddressRows(ts: seq<Transaction>): seq<(AddressKey, B256)>
  {
    if ts == [] then [] else AddressRows(ts[..|ts| - 1]) + AddressRowsOf(ts[|ts| - 1])
  }

  // ----- statements -----

  datatype Statement =
    | InsertBlock(block: Block)
    | InsertTransaction(tx: Transaction)
    | InsertLog(log: Log)
    | InsertTransfer(transfer: TokenTransfer)
    | InsertAddress(key: AddressKey, hash: B256)
    | SetCursor(number: nat, cursorHash: Bytes)
    | InsertReorg(row: ReorgRow)
    | DeleteBlocksAbove(ancestor: nat)

  predicate HashFree(blocks: map<nat, Block>, hash: B256)
  {
    forall k :: k in blocks ==> blocks[k].hash != hash
  }

  /** One statement inside a transaction; None is a violated UNIQUE or FOREIGN KEY constraint. */
  function Exec(t: Tables, s: Statement): Option<Tables>
  {
    match s
    case InsertBlock(b) =>
      if b.number in t.blocks then Some(t)
      else if !HashFree(t.blocks, b.hash) then None
      else Some(t.(blocks := t.blocks[b.number := b]))
    case InsertTransaction(x) =>
      if x.hash in t.transactions then Some(t)
      else if x.blockNumber !in t.blocks then None
      else Some(t.(transactions := t.transactions[x.hash := x]))
    case InsertLog(l) =>
      if (l.blockNumber, l.logIndex) in t.logs then Some(t)
      else if l.blockNumber !in t.blocks then None
      else Some(t.(logs := t.logs[(l.blockNumber, l.logIndex) := l]))
    case InsertTransfer(x) =>
      if (x.blockNumber, x.logIndex) in t.transfers then Some(t)
      else if (x.blockNumber, x.logIndex) !in t.logs then None
      else Some(t.(transfers := t.transfers[(x.blockNumber, x.logIndex) := x]))
    case InsertAddress(k, h) => Some(t.(addressIndex := Put(t.addressIndex, k, h)))
    case SetCursor(n, h) => Some(t.(cursor := At(n, h)))
    case InsertReorg(row) => Some(t.(reorgs := t.reorgs + [row]))
    case DeleteBlocksAbove(a) => Some(DeleteAbove(t, a))
  }

  // ----- DELETE FROM blocks WHERE number > a, with its cascades -----

  predicate Deleted(blocks: map<nat, Block>, a: nat, n: nat)
  {
    n in blocks && n > a
  }

  function BlocksKept(blocks: map<nat, Block>, a: nat): map<nat, Block>
  {
    map k | k in blocks && k <= a :: blocks[k]
  }

  function TransactionsKept(blocks: map<nat, Block>, txs: map<B256, Transaction>, a: nat): map<B256, Transaction>
  {
    map h | h in txs && !Deleted(blocks, a, txs[h].blockNumber) :: txs[h]
  }

  function LogsKept(blocks: map<nat, Block>, logs: map<(nat, nat), Log>, a: nat): map<(nat, nat), Log>
  {
    map k | k in logs && !Deleted(blocks, a, k.0) :: logs[k]
  }

  /** The cascade reaches a transfer through its log. */
  function TransfersKept(
    blocks: map<nat, Block>, logs: map<(nat, nat), Log>, transfers: map<(nat, nat), TokenTransfer>, a: nat)
    : map<(nat, nat), TokenTransfer>
  {
    map k | k in transfers && !(k in logs && Deleted(blocks, a, k.0)) :: transfers[k]
  }

  /** The address index has no foreign key, so the delete does not reach it. */
  function DeleteAbove(t: Tables, a: nat): Tables
  {
    Tables(BlocksKept(t.blocks, a), TransactionsKept(t.blocks, t.transactions, a), LogsKept(t.blocks, t.logs, a),
           TransfersKept(t.blocks, t.logs, t.transfers, a), t.addressIndex, t.cursor, t.reorgs)
  }

  function Run(t: Tables, ss: seq<Statement>): Option<Tables>
  {
    if ss == [] then Some(t) else
    var before := Run(t, ss[..|ss| - 1]);
    if before.None? then None else Exec(before.value, ss[|ss| - 1])
  }

  lemma {:induction false} RunConcat(t: Tables, a: seq<Statement>, b: seq<Statement>)
    ensures Run(t, a + b) == if Run(t, a).Some? then Run(Run(t, a).value, b) else None
  {
    if b == [] {
      assert a + b == a;
    } else {
      assert (a + b)[..|a + b| - 1] == a + b[..|b| - 1];
      RunConcat(t, a, b[..|b| - 1]);
    }
  }

  lemma {:induction false} RunPrefix(t: Tables, ss: seq<Statement>, k: nat)
    requires k <= |ss| && Run(t, ss).Some?
    ensures Run(t, ss[..k]).Some?
  {
    assert ss == ss[..k] + ss[k..];
    RunConcat(t, ss[..k], ss[k..]);
  }

  // ----- the commit transaction -----

  function TxStatements(ts: seq<Transaction>): seq<Statement>
  {
    seq(|ts|, i requires 0 <= i < |ts| => InsertTransaction(ts[i]))
  }

  function LogStatements(ls: seq<Log>): seq<Statement>
  {
    seq(|ls|, i requires 0 <= i < |ls| => InsertLog(ls[i]))
  }

  function TransferStatements(ts: seq<TokenTransfer>): seq<Statement>
  {
    seq(|ts|, i requires 0 <= i < |ts| => InsertTransfer(ts[i]))
  }

  function AddressStatements(rows: seq<(AddressKey, B256)>): seq<Statement>
  {
    seq(|rows|, i requires 0 <= i < |rows| => InsertAddress(rows[i].0, rows[i].1))
  }

  function CommitScript(ib: IndexedBlock): seq<Statement>
  {
    [InsertBlock(ib.block)] + TxStatements(ib.transactions) + LogStatements(ib.logs) +
    TransferStatements(ib.tokenTransfers) + AddressStatements(AddressRows(ib.transactions)) +
    [SetCursor(ib.block.number, ib.block.hash)]
  }

  /** What a commit does, table by table. */
  function Commit(t: Tables, ib: IndexedBlock): Tables
  {
    Tables(
      Put(t.blocks, ib.block.number, ib.block),
      FirstWins(t.transactions, TxRows(ib.transactions)),
      FirstWins(t.logs, LogRows(ib.logs)),
      FirstWins(t.transfers, TransferRows(ib.tokenTransfers)),
      FirstWins(t.addressIndex, AddressRows(ib.transactions)),
      At(ib.block.number, ib.block.hash),
      t.reorgs)
  }

  /** The block's height is taken already, or its hash is not yet stored at another height. */
  predicate Acceptable(t: Tables, ib: IndexedBlock)
  {
    ib.block.number in t.blocks || HashFree(t.blocks, ib.block.hash)
  }

  lemma {:induction false} RunTransactions(t: Tables, ts: seq<Transaction>)
    requires forall i :: 0 <= i < |ts| ==> ts[i].blockNumber in t.blocks
    ensures Run(t, TxStatements(ts)) == Some(t.(transactions := FirstWins(t.transactions, TxRows(ts))))
  {
    if ts != [] {
      var front := ts[..|ts| - 1];
      RunTransactions(t, front);
      assert TxStatements(ts)[..|ts| - 1] == TxStatements(front);
      assert TxRows(ts)[..|ts| - 1] == TxRows(front);
    }
  }

  lemma {:induction false} RunLogs(t: Tables, ls: seq<Log>)
    requires forall i :: 0 <= i < |ls| ==> ls[i].blockNumber in t.blocks
    ensures Run(t, LogStatements(ls)) == Some(t.(logs := FirstWins(t.logs, LogRows(ls))))
  {
    if ls != [] {
      var front := ls[..|ls| - 1];
      RunLogs(t, front);
      assert LogStatements(ls)[..|ls| - 1] == LogStatements(front);
      assert LogRows(ls)[..|ls| - 1] == LogRows(front);
    }
  }

  lemma {:induction false} RunTransfers(t: Tables, ts: seq<TokenTransfer>)
    requires forall i :: 0 <= i < |ts| ==> (ts[i].blockNumber, ts[i].logIndex) in t.logs
    ensures Run(t, TransferStatements(ts)) == Some(t.(transfers := FirstWins(t.transfers, TransferRows(ts))))
  {
    if ts != [] {
      var front := ts[..|ts| - 1];
      RunTransfers(t, front);
      assert TransferStatements(ts)[..|ts| - 1] == TransferStatements(front);
      assert TransferRows(ts)[..|ts| - 1] == TransferRows(front);
    }
  }

  lemma {:induction false} RunAddresses(t: Tables, rows: seq<(AddressKey, B256)>)
    ensures Run(t, AddressStatements(rows)) == Some(t.(addressIndex := FirstWins(t.addressIndex, rows)))
  {
    if rows != [] {
      RunAddresses(t, rows[..|rows| - 1]);
      assert AddressStatements(rows)[..|rows| - 1] == AddressStatements(rows[..|rows| - 1]);
    }
  }

  /** No constraint fails while the script of a decoded block runs, and the result is `Commit`. */
  lemma {:induction false} CommitScriptSucceeds(t: Tables, ib: IndexedBlock)
    requires BlockDecoder.WellFormed(ib) && Acceptable(t, ib)
    ensures Run(t, CommitScript(ib)) == Some(Commit(t, ib))
  {
    var t1 := t.(blocks := Put(t.blocks, ib.block.number, ib.block));
    var t2 := t1.(transactions := FirstWins(t.transactions, TxRows(ib.transactions)));
    var t3 := t2.(logs := FirstWins(t.logs, LogRows(ib.logs)));
    var t4 := t3.(transfers := FirstWins(t.transfers, TransferRows(ib.tokenTransfers)));
    var t5 := t4.(addressIndex := FirstWins(t.addressIndex, AddressRows(ib.transactions)));
    var s1, s2 := [InsertBlock(ib.block)], TxStatements(ib.transactions);
    var s3, s4 := LogStatements(ib.logs), TransferStatements(ib.tokenTransfers);
    var s5, s6 := AddressStatements(AddressRows(ib.transactions)), [SetCursor(ib.block.number, ib.block.hash)];
    assert Run(t, s1) == Some(t1) by { assert s1[..0] == []; }
    RunTransactions(t1, ib.transactions);
    RunConcat(t, s1, s2);
    RunLogs(t2, ib.logs);
    RunConcat(t, s1 + s2, s3);
    FirstWinsRows(t.logs, LogRows(ib.logs));
    forall i | 0 <= i < |ib.tokenTransfers|
      ensures (ib.tokenTransfers[i].blockNumber, ib.tokenTransfers[i].logIndex) in t3.logs
    {
      var x := ib.tokenTransfers[i];
      assert LogRows(ib.logs)[x.logIndex].0 == (x.blockNumber, x.logIndex);
    }
    RunTransfers(t3, ib.tokenTransfers);
    RunConcat(t, s1 + s2 + s3, s4);
    RunAddresses(t4, AddressRows(ib.transactions));
    RunConcat(t, s1 + s2 + s3 + s4, s5);
    RunConcat(t, s1 + s2 + s3 + s4 + s5, s6);
    assert s6[..0] == [];
  }

  // ----- referential integrity -----

  ghost predicate Integrity(t: Tables)
  {
    && (forall k :: k in t.blocks ==> t.blocks[k].number == k)
    && (forall h :: h in t.transactions ==> t.transactions[h].blockNumber in t.blocks)
    && (forall k :: k in t.logs ==> k.0 in t.blocks)
    && (forall k :: k in t.transfers ==> k in t.logs)
  }

  lemma {:induction false} ExecKeepsIntegrity(t: Tables, s: Statement)
    requires Integrity(t) && Exec(t, s).Some?
    ensures Integrity(Exec(t, s).value)
  {
  }

  /** No hash is stored at two heights: the UNIQUE constraint. */
  ghost predicate UniqueHashes(blocks: map<nat, Block>)
  {
    forall j, k :: j in blocks && k in blocks && blocks[j].hash == blocks[k].hash ==> j == k
  }

  lemma {:induction false} ExecKeepsUnique(t: Tables, s: Statement)
    requires UniqueHashes(t.blocks) && Exec(t, s).Some?
    ensures UniqueHashes(Exec(t, s).value.blocks)
  {
  }

  lemma {:induction false} RunKeepsUnique(t: Tables, ss: seq<Statement>)
    requires UniqueHashes(t.blocks) && Run(t, ss).Some?
    ensures UniqueHashes(Run(t, ss).value.blocks)
  {
    if ss != [] {
      RunKeepsUnique(t, ss[..|ss| - 1]);
      ExecKeepsUnique(Run(t, ss[..|ss| - 1]).value, ss[|ss| - 1]);
    }
  }

  /** A block whose hash is stored at another height is refused, with everything that belongs to it. */
  lemma {:induction false} DuplicateHashIsRefused(t: Tables, ib: IndexedBlock, k: nat)
    requires BlockDecoder.WellFormed(ib) && k in t.blocks && t.blocks[k].hash == ib.block.hash
    requires ib.block.number !in t.blocks
    ensures Run(t, CommitScript(ib)) == None
  {
    CommitOutcome(t, ib);
  }

  lemma {:induction false} RunKeepsIntegrity(t: Tables, ss: seq<Statement>)
    requires Integrity(t) && Run(t, ss).Some?
    ensures Integrity(Run(t, ss).value)
  {
    if ss != [] {
      RunKeepsIntegrity(t, ss[..|ss| - 1]);
      ExecKeepsIntegrity(Run(t, ss[..|ss| - 1]).value, ss[|ss| - 1]);
    }
  }

  /** Wherever the script of a decoded block is cut, every foreign key still resolves. */
  lemma {:induction false} IntegrityAtEveryStatement(t: Tables, ib: IndexedBlock, k: nat)
    requires Integrity(t) && BlockDecoder.WellFormed(ib) && Acceptable(t, ib)
    requires k <= |CommitScript(ib)|
    ensures var r := Run(t, CommitScript(ib)[..k]); r.Some? && Integrity(r.value)
  {
    CommitScriptSucceeds(t, ib);
    RunPrefix(t, CommitScript(ib), k);
    RunKeepsIntegrity(t, CommitScript(ib)[..k]);
  }

  lemma {:induction false} NewTransactions(txs: map<B256, Transaction>, ib: IndexedBlock)
    requires BlockDecoder.WellFormed(ib)
    ensures var r := FirstWins(txs, TxRows(ib.transactions));
      Kept(txs, r) && forall h :: h in r && h !in txs ==> r[h].blockNumber == ib.block.number
  {
    FirstWinsRows(txs, TxRows(ib.transactions));
  }

  lemma {:induction false} NewLogs(logs: map<(nat, nat), Log>, ib: IndexedBlock)
    requires BlockDecoder.WellFormed(ib)
    ensures var r := FirstWins(logs, LogRows(ib.logs));
      && Kept(logs, r)
      && (forall k :: k in r && k !in logs ==> k.0 == ib.block.number && k.1 < |ib.logs|)
      && forall i :: 0 <= i < |ib.logs| ==> (ib.block.number, i) in r
  {
    FirstWinsRows(logs, LogRows(ib.logs));
    forall i | 0 <= i < |ib.logs| ensures (ib.block.number, i) in FirstWins(logs, LogRows(ib.logs)) {
      assert LogRows(ib.logs)[i].0 == (ib.block.number, i);
    }
  }

  lemma {:induction false} NewTransfers(transfers: map<(nat, nat), TokenTransfer>, ib: IndexedBlock)
    requires BlockDecoder.WellFormed(ib)
    ensures var r := FirstWins(transfers, TransferRows(ib.tokenTransfers));
      && Kept(transfers, r)
      && forall k :: k in r && k !in transfers ==> k.0 == ib.block.number && k.1 < |ib.logs|
  {
    FirstWinsRows(transfers, TransferRows(ib.tokenTransfers));
  }

  lemma {:induction false} CommitKeepsIntegrity(t: Tables, ib: IndexedBlock)
    requires Integrity(t) && BlockDecoder.WellFormed(ib)
    ensures Integrity(Commit(t, ib))
  {
    NewTransactions(t.transactions, ib);
    NewLogs(t.logs, ib);
    NewTransfers(t.transfers, ib);
    var u := Commit(t, ib);
    forall k | k in u.transfers ensures k in u.logs {
      if k !in t.transfers {
        assert k == (ib.block.number, k.1);
      }
    }
  }

  /** Committing the same block again changes nothing. */
  lemma {:induction false} CommitTwice(t: Tables, ib: IndexedBlock)
    ensures Commit(Commit(t, ib), ib) == Commit(t, ib)
  {
    FirstWinsTwice(t.transactions, TxRows(ib.transactions));
    FirstWinsTwice(t.logs, LogRows(ib.logs));
    FirstWinsTwice(t.transfers, TransferRows(ib.tokenTransfers));
    FirstWinsTwice(t.addressIndex, AddressRows(ib.transactions));
  }

  // ----- the rollback transaction -----

  datatype ReorgEvent = ReorgEvent(
    commonAncestor: nat, depth: nat, orphanedFrom: nat, orphanedTo: nat, orphanedHashes: seq<Bytes>)

  const I32_MAX: nat := 0x7FFF_FFFF

  /** The hash written to the cursor: the first orphaned hash, not the ancestor's. */
  function AncestorHash(ev: ReorgEvent): Bytes
  {
    if ev.commonAncestor == 0 then ZERO_HASH
    else if ev.orphanedHashes == [] then []
    else ev.orphanedHashes[0]
  }

  function AuditRow(ev: ReorgEvent): ReorgRow
  {
    ReorgRow(ev.commonAncestor, if ev.depth <= I32_MAX then ev.depth else I32_MAX,
             ev.orphanedFrom, ev.orphanedTo, ev.orphanedHashes)
  }

  function RollbackScript(ev: ReorgEvent): seq<Statement>
  {
    [InsertReorg(AuditRow(ev)), DeleteBlocksAbove(ev.commonAncestor), SetCursor(ev.commonAncestor, AncestorHash(ev))]
  }

  /** What a rollback does, table by table. */
  function RolledBack(t: Tables, ev: ReorgEvent): Tables
  {
    DeleteAbove(
      Tables(t.blocks, t.transactions, t.logs, t.transfers, t.addressIndex,
             At(ev.commonAncestor, AncestorHash(ev)), t.reorgs + [AuditRow(ev)]),
      ev.commonAncestor)
  }

  lemma {:induction false} RollbackScriptSucceeds(t: Tables, ev: ReorgEvent)
    ensures Run(t, RollbackScript(ev)) == Some(RolledBack(t, ev))
  {
    var ss := RollbackScript(ev);
    assert ss[..2][..1][..0] == [] && ss[..2][..1] == [ss[0]] && ss[..2] == [ss[0], ss[1]];
    assert Run(t, [ss[0]]) == Exec(t, ss[0]);
    assert Run(t, ss[..2]) == Exec(Exec(t, ss[0]).value, ss[1]);
  }

  /** The hash a rollback leaves in the cursor: zeros at genesis, else the first orphaned hash, else nothing. */
  lemma {:induction false} RollbackCursor(t: Tables, ev: ReorgEvent)
    ensures var c := RolledBack(t, ev).cursor;
      && c.At? && c.number == ev.commonAncestor
      && (ev.commonAncestor == 0 ==> c.hash == ZERO_HASH)
      && (ev.commonAncestor > 0 && |ev.orphanedHashes| > 0 ==> c.hash == ev.orphanedHashes[0])
      && (ev.commonAncestor > 0 && |ev.orphanedHashes| == 0 ==> c.hash == [])
  {
  }

  // ----- rollback undoes commits -----

  function CommitAll(t: Tables, ibs: seq<IndexedBlock>): Tables
  {
    if ibs == [] then t else Commit(CommitAll(t, ibs[..|ibs| - 1]), ibs[|ibs| - 1])
  }

  /** `u` is `t` plus rows at heights above `a`. */
  ghost predicate GrownAbove(t: Tables, u: Tables, a: nat)
  {
    && Kept(t.blocks, u.blocks) && Kept(t.transactions, u.transactions)
    && Kept(t.logs, u.logs) && Kept(t.transfers, u.transfers)
    && (forall k :: k in u.blocks && k !in t.blocks ==> k > a)
    && (forall h :: h in u.transactions && h !in t.transactions ==> u.transactions[h].blockNumber > a)
    && (forall k :: k in u.logs && k !in t.logs ==> k.0 > a)
    && (forall k :: k in u.transfers && k !in t.transfers ==> k.0 > a)
  }

  lemma {:induction false} CommitGrows(t: Tables, u: Tables, a: nat, ib: IndexedBlock)
    requires GrownAbove(t, u, a) && BlockDecoder.WellFormed(ib) && ib.block.number > a
    ensures GrownAbove(t, Commit(u, ib), a)
  {
    NewTransactions(u.transactions, ib);
    NewLogs(u.logs, ib);
    NewTransfers(u.transfers, ib);
  }

  lemma {:induction false} CommitsGrow(t: Tables, ibs: seq<IndexedBlock>, a: nat)
    requires Integrity(t)
    requires forall i :: 0 <= i < |ibs| ==> BlockDecoder.WellFormed(ibs[i]) && ibs[i].block.number > a
    ensures GrownAbove(t, CommitAll(t, ibs), a) && Integrity(CommitAll(t, ibs))
  {
    if ibs != [] {
      var u := CommitAll(t, ibs[..|ibs| - 1]);
      CommitsGrow(t, ibs[..|ibs| - 1], a);
      CommitGrows(t, u, a, ibs[|ibs| - 1]);
      CommitKeepsIntegrity(u, ibs[|ibs| - 1]);
    }
  }

  lemma {:induction false} DeleteRestores(t: Tables, u: Tables, a: nat)
    requires GrownAbove(t, u, a) && Integrity(t) && Integrity(u)
    requires forall k :: k in t.blocks ==> k <= a
    ensures BlocksKept(u.blocks, a) == t.blocks
    ensures TransactionsKept(u.blocks, u.transactions, a) == t.transactions
    ensures LogsKept(u.blocks, u.logs, a) == t.logs
    ensures TransfersKept(u.blocks, u.logs, u.transfers, a) == t.transfers
  {
  }

  /** Rolling back to `a` undoes any commits above `a`, even when they repeat transaction hashes. */
  lemma {:induction false} RollbackUndoesCommits(t: Tables, ibs: seq<IndexedBlock>, ev: ReorgEvent)
    requires Integrity(t) && forall k :: k in t.blocks ==> k <= ev.commonAncestor
    requires forall i :: 0 <= i < |ibs| ==>
               BlockDecoder.WellFormed(ibs[i]) && ibs[i].block.number > ev.commonAncestor
    ensures var r := RolledBack(CommitAll(t, ibs), ev);
      r.blocks == t.blocks && r.transactions == t.transactions && r.logs == t.logs && r.transfers == t.transfers
  {
    CommitsGrow(t, ibs, ev.commonAncestor);
    DeleteRestores(t, CommitAll(t, ibs), ev.commonAncestor);
  }

  // ----- the transaction object and the two writers -----

  /**
   * An open database transaction. `view` is what its own statements see; `budget` is how many
   * further round trips reach the server before the connection or the process is lost.
   */
  class WriteTransaction {
    ghost const base: Tables
    ghost var done: seq<Statement>
    var view: Tables
    var budget: nat

    ghost predicate Valid()
      reads this
    {
      Run(base, done) == Some(view)
    }

    constructor (durable: Tables, budget: nat)
      ensures Valid() && base == durable && done == [] && this.budget == budget
    {
      base := durable;
      done := [];
      view := durable;
      this.budget := budget;
    }

    method Execute(ss: seq<Statement>) returns (ok: bool)
      requires Valid()
      modifies this
      ensures ok <==> old(budget) >= |ss| && Run(base, old(done) + ss).Some?
      ensures ok ==> Valid() && done == old(done) + ss && budget == old(budget) - |ss|
    {
      assert done + ss[..0] == done;
      for i := 0 to |ss|
        invariant Valid() && done == old(done) + ss[..i]
        invariant budget == old(budget) - i
      {
        var next := Exec(view, ss[i]);
        ghost var upTo := old(done) + ss[..i + 1];
        assert upTo[..|upTo| - 1] == done && upTo == done + [ss[i]];
        if budget == 0 || next.None? {
          if next.None? {
            assert Run(base, upTo).None?;
            assert old(done) + ss == upTo + ss[i + 1..];
            RunConcat(base, upTo, ss[i + 1..]);
          }
          return false;
        }
        view, budget, done := next.value, budget - 1, done + [ss[i]];
      }
      assert ss[..|ss|] == ss;
      ok := true;
    }
  }

  class PostgresStore {
    var db: Tables

    constructor ()
      ensures db == EMPTY
    {
      db := EMPTY;
    }

    /** All statements, then COMMIT: the durable tables are the old ones or the whole new ones. */
    method CommitBlock(ib: IndexedBlock, budget: nat) returns (ok: bool)
      requires BlockDecoder.WellFormed(ib)
      modifies this
      ensures ok <==> budget > |CommitScript(ib)| && Acceptable(old(db), ib)
      ensures db == if ok then Commit(old(db), ib) else old(db)
    {
      var tx := new WriteTransaction(db, budget);
      CommitOutcome(db, ib);
      assert [] + CommitScript(ib) == CommitScript(ib);
      var done := tx.Execute(CommitScript(ib));
      if !done || tx.budget == 0 { return false; }
      db := tx.view;
      ok := true;
    }

    method Rollback(ev: ReorgEvent, budget: nat) returns (ok: bool)
      modifies this
      ensures ok <==> budget > |RollbackScript(ev)|
      ensures db == if ok then RolledBack(old(db), ev) else old(db)
    {
      var tx := new WriteTransaction(db, budget);
      RollbackScriptSucceeds(db, ev);
      assert [] + RollbackScript(ev) == RollbackScript(ev);
      var done := tx.Execute(RollbackScript(ev));
      if !done || tx.budget == 0 { return false; }
      db := tx.view;
      ok := true;
    }
  }

  /** The script runs to its end exactly when the block is acceptable. */
  lemma {:induction false} CommitOutcome(t: Tables, ib: IndexedBlock)
    requires BlockDecoder.WellFormed(ib)
    ensures Run(t, CommitScript(ib)) == if Acceptable(t, ib) then Some(Commit(t, ib)) else None
  {
    if Acceptable(t, ib) {
      CommitScriptSucceeds(t, ib);
    } else {
      var first := [InsertBlock(ib.block)];
      assert first[..0] == [];
      assert CommitScript(ib) == first + CommitScript(ib)[1..];
      RunConcat(t, first, CommitScript(ib)[1..]);
    }
  }
}
