/** The two derived tables: the address index beside the transactions, and the transfers beside the logs. */
module Projections {
  import opened Domain
  import opened Store
  import Transfers
  import BlockDecoder

  // ----- a run of commits as one list of rows -----

  function AllTransactions(ibs: seq<IndexedBlock>): seq<Transaction>
  {
    if ibs == [] then [] else AllTransactions(ibs[..|ibs| - 1]) + ibs[|ibs| - 1].transactions
  }

  lemma {:induction false} AddressRowsConcat(a: seq<Transaction>, b: seq<Transaction>)
    ensures AddressRows(a + b) == AddressRows(a) + AddressRows(b)
  {
    if b == [] {
      assert a + b == a;
    } else {
      assert (a + b)[..|a + b| - 1] == a + b[..|b| - 1];
      AddressRowsConcat(a, b[..|b| - 1]);
    }
  }

  lemma {:induction false} CommitsAsRows(t: Tables, ibs: seq<IndexedBlock>)
    ensures var u := CommitAll(t, ibs);
      && u.transactions == FirstWins(t.transactions, TxRows(AllTransactions(ibs)))
      && u.addressIndex == FirstWins(t.addressIndex, AddressRows(AllTransactions(ibs)))
  {
    if ibs != [] {
      var front, last := ibs[..|ibs| - 1], ibs[|ibs| - 1].transactions;
      var before := AllTransactions(front);
      CommitsAsRows(t, front);
      assert TxRows(before + last) == TxRows(before) + TxRows(last);
      FirstWinsConcat(t.transactions, TxRows(before), TxRows(last));
      AddressRowsConcat(before, last);
      FirstWinsConcat(t.addressIndex, AddressRows(before), AddressRows(last));
    }
  }

  // ----- the address index -----

  /** `k` is the sender's or the recipient's entry of `t`. */
  predicate EntryOf(t: Transaction, k: AddressKey)
  {
    || k == AddressKey(t.from, t.blockNumber, t.txIndex, Outgoing)
    || (t.to.Some? && k == AddressKey(t.to.value, t.blockNumber, t.txIndex, Incoming))
  }

  /** The index holds exactly the entries of the given transactions, in both directions. */
  ghost predicate IsProjection(index: map<AddressKey, B256>, txs: map<B256, Transaction>)
  {
    && (forall k :: k in index ==> index[k] in txs && EntryOf(txs[index[k]], k))
    && (forall h, k :: h in txs && EntryOf(txs[h], k) ==> k in index && index[k] == h)
  }

  ghost predicate DistinctHashes(ts: seq<Transaction>)
  {
    forall i, j :: 0 <= i < j < |ts| ==> ts[i].hash != ts[j].hash
  }

  ghost predicate DistinctPositions(ts: seq<Transaction>)
  {
    forall i, j :: 0 <= i < j < |ts| ==> ts[i].blockNumber != ts[j].blockNumber || ts[i].txIndex != ts[j].txIndex
  }

  /** No transaction hash and no (block, index) position occurs twice. */
  ghost predicate NoRepeats(ts: seq<Transaction>)
  {
    DistinctHashes(ts) && DistinctPositions(ts)
  }

  /** Each block's transactions carry their position, and no two blocks with transactions share a height. */
  ghost predicate OnePerHeight(ibs: seq<IndexedBlock>)
  {
    && (forall i :: 0 <= i < |ibs| ==> BlockDecoder.Positioned(ibs[i]))
    && (forall i, j :: 0 <= i < j < |ibs| && ibs[i].transactions != [] && ibs[j].transactions != [] ==>
          ibs[i].block.number != ibs[j].block.number)
  }

  lemma {:induction false} SourceOf(ibs: seq<IndexedBlock>, x: Transaction) returns (i: nat, k: nat)
    requires x in AllTransactions(ibs)
    ensures i < |ibs| && k < |ibs[i].transactions| && ibs[i].transactions[k] == x
  {
    var n := |ibs| - 1;
    if x in ibs[n].transactions {
      i := n;
      k :| 0 <= k < |ibs[n].transactions| && ibs[n].transactions[k] == x;
    } else {
      i, k := SourceOf(ibs[..n], x);
    }
  }

  /** The position half of `NoRepeats` holds of every run of decoded blocks. */
  lemma {:induction false} PositionsDistinct(ibs: seq<IndexedBlock>)
    requires OnePerHeight(ibs)
    ensures DistinctPositions(AllTransactions(ibs))
  {
    if ibs != [] {
      var n := |ibs| - 1;
      var front, last := ibs[..n], ibs[n];
      assert forall i :: 0 <= i < n ==> front[i] == ibs[i];
      PositionsDistinct(front);
      forall x, y | x in AllTransactions(front) && y in last.transactions ensures x.blockNumber != y.blockNumber {
        var i, k := SourceOf(front, x);
        assert ibs[i].transactions[k] == x;
      }
      AppendPositions(AllTransactions(front), last.transactions);
    }
  }

  lemma {:induction false} AppendPositions(a: seq<Transaction>, b: seq<Transaction>)
    requires DistinctPositions(a) && DistinctPositions(b)
    requires forall x, y :: x in a && y in b ==> x.blockNumber != y.blockNumber
    ensures DistinctPositions(a + b)
  {
    forall i, j | 0 <= i < j < |a + b|
      ensures (a + b)[i].blockNumber != (a + b)[j].blockNumber || (a + b)[i].txIndex != (a + b)[j].txIndex
    {
      if i < |a| <= j {
        assert a[i] in a && b[j - |a|] in b;
      }
    }
  }

  lemma {:induction false} PutAddressRows(index: map<AddressKey, B256>, t: Transaction)
    requires forall k :: EntryOf(t, k) ==> k !in index
    ensures var r := FirstWins(index, AddressRowsOf(t));
      && Kept(index, r)
      && (forall k :: EntryOf(t, k) ==> k in r && r[k] == t.hash)
      && (forall k :: k in r && k !in index ==> EntryOf(t, k))
  {
    var rows := AddressRowsOf(t);
    var one := index[rows[0].0 := t.hash];
    assert EntryOf(t, rows[0].0);
    assert FirstWins(index, [rows[0]]) == one;
    if t.to.Some? {
      assert EntryOf(t, rows[1].0);
      assert rows[..1] == [rows[0]];
      assert FirstWins(index, rows) == one[rows[1].0 := t.hash];
    } else {
      assert rows == [rows[0]];
    }
  }

  lemma {:induction false} ProjectionGrows(index: map<AddressKey, B256>, txs: map<B256, Transaction>, t: Transaction)
    requires IsProjection(index, txs) && t.hash !in txs
    requires forall h :: h in txs ==> txs[h].blockNumber != t.blockNumber || txs[h].txIndex != t.txIndex
    ensures IsProjection(FirstWins(index, AddressRowsOf(t)), txs[t.hash := t])
  {
    assert forall k :: EntryOf(t, k) ==> k !in index;
    PutAddressRows(index, t);
  }

  /** A transaction stored from a list without repeats differs from the next one in hash and position. */
  lemma {:induction false} StoredDiffer(ts: seq<Transaction>, t: Transaction, h: B256)
    requires NoRepeats(ts + [t]) && h in FirstWins(map[], TxRows(ts))
    ensures var x := FirstWins(map[], TxRows(ts))[h];
      h != t.hash && (x.blockNumber != t.blockNumber || x.txIndex != t.txIndex)
  {
    FirstWinsRows(map[], TxRows(ts));
    var i :| 0 <= i < |ts| && TxRows(ts)[i] == (h, FirstWins(map[], TxRows(ts))[h]);
    assert (ts + [t])[i] == ts[i] && (ts + [t])[|ts|] == t;
  }

  lemma {:induction false} ProjectionAppends(front: seq<Transaction>, t: Transaction)
    requires NoRepeats(front + [t])
    requires IsProjection(FirstWins(map[], AddressRows(front)), FirstWins(map[], TxRows(front)))
    ensures IsProjection(FirstWins(map[], AddressRows(front) + AddressRowsOf(t)),
                         FirstWins(map[], TxRows(front))[t.hash := t])
  {
    var index, txs := FirstWins(map[], AddressRows(front)), FirstWins(map[], TxRows(front));
    forall h | h in txs
      ensures h != t.hash && (txs[h].blockNumber != t.blockNumber || txs[h].txIndex != t.txIndex)
    {
      StoredDiffer(front, t, h);
    }
    ProjectionGrows(index, txs, t);
    FirstWinsConcat(map[], AddressRows(front), AddressRowsOf(t));
  }

  lemma {:induction false} NewHash(front: seq<Transaction>, t: Transaction)
    requires NoRepeats(front + [t])
    ensures FirstWins(map[], TxRows(front + [t])) == FirstWins(map[], TxRows(front))[t.hash := t]
  {
    assert TxRows(front + [t])[..|front|] == TxRows(front);
    if t.hash in FirstWins(map[], TxRows(front)) {
      StoredDiffer(front, t, t.hash);
    }
  }

  lemma {:induction false} ProjectionOf(ts: seq<Transaction>)
    requires NoRepeats(ts)
    ensures IsProjection(FirstWins(map[], AddressRows(ts)), FirstWins(map[], TxRows(ts)))
  {
    if ts != [] {
      var front, t := ts[..|ts| - 1], ts[|ts| - 1];
      assert ts == front + [t];
      ProjectionOf(front);
      ProjectionAppends(front, t);
      NewHash(front, t);
    }
  }

  /** After commits alone, without repeated transaction hashes, the index projects the transactions table. */
  lemma {:induction false} IndexProjectsTransactions(ibs: seq<IndexedBlock>)
    requires DistinctHashes(AllTransactions(ibs)) && OnePerHeight(ibs)
    ensures IsProjection(CommitAll(EMPTY, ibs).addressIndex, CommitAll(EMPTY, ibs).transactions)
  {
    PositionsDistinct(ibs);
    CommitsAsRows(EMPTY, ibs);
    ProjectionOf(AllTransactions(ibs));
  }

  /** The entries whose transaction is among `txs`. */
  function EntriesOf(index: map<AddressKey, B256>, txs: map<B256, Transaction>): map<AddressKey, B256>
  {
    map k | k in index && index[k] in txs :: index[k]
  }

  lemma {:induction false} ProjectionOfPart(
    index: map<AddressKey, B256>, all: map<B256, Transaction>, part: map<B256, Transaction>)
    requires IsProjection(index, all) && Kept(part, all)
    ensures IsProjection(EntriesOf(index, part), part)
  {
    forall h, k | h in part && EntryOf(part[h], k) ensures k in EntriesOf(index, part) && index[k] == h {
      assert EntryOf(all[h], k);
    }
  }

  function DeletedTransactions(before: map<B256, Transaction>, after: map<B256, Transaction>): map<B256, Transaction>
  {
    map h | h in before && h !in after :: before[h]
  }

  /** A following rollback splits the index: a projection of what is left, and a surplus that projects the deleted. */
  lemma {:induction false} RollbackLeavesSurplus(ibs: seq<IndexedBlock>, ev: ReorgEvent)
    requires DistinctHashes(AllTransactions(ibs)) && OnePerHeight(ibs)
    ensures var u := CommitAll(EMPTY, ibs);
      var r := RolledBack(u, ev);
      var deleted := DeletedTransactions(u.transactions, r.transactions);
      && r.addressIndex == u.addressIndex
      && IsProjection(EntriesOf(r.addressIndex, r.transactions), r.transactions)
      && IsProjection(EntriesOf(r.addressIndex, deleted), deleted)
      && forall k :: k in r.addressIndex ==>
           (k in EntriesOf(r.addressIndex, deleted) <==> k !in EntriesOf(r.addressIndex, r.transactions))
  {
    IndexProjectsTransactions(ibs);
    var u := CommitAll(EMPTY, ibs);
    var left := TransactionsKept(u.blocks, u.transactions, ev.commonAncestor);
    ProjectionOfPart(u.addressIndex, u.transactions, left);
    ProjectionOfPart(u.addressIndex, u.transactions, DeletedTransactions(u.transactions, left));
  }

  /** The surplus is real exactly when the rollback deletes a transaction. */
  lemma {:induction false} SurplusIff(ibs: seq<IndexedBlock>, ev: ReorgEvent)
    requires DistinctHashes(AllTransactions(ibs)) && OnePerHeight(ibs)
    ensures var u := CommitAll(EMPTY, ibs);
      var r := RolledBack(u, ev);
      (exists k :: k in r.addressIndex && r.addressIndex[k] !in r.transactions)
        <==> exists h :: h in u.transactions && h !in r.transactions
  {
    IndexProjectsTransactions(ibs);
    var u := CommitAll(EMPTY, ibs);
    var left := TransactionsKept(u.blocks, u.transactions, ev.commonAncestor);
    if h :| h in u.transactions && h !in left {
      var t := u.transactions[h];
      var k := AddressKey(t.from, t.blockNumber, t.txIndex, Outgoing);
      assert EntryOf(t, k);
      assert k in u.addressIndex && u.addressIndex[k] == h;
    }
  }

  // ----- stored transfers -----

  function Flatten(groups: seq<seq<TokenTransfer>>): seq<TokenTransfer>
  {
    if groups == [] then [] else Flatten(groups[..|groups| - 1]) + groups[|groups| - 1]
  }

  /** Group `i` holds transfers of log `i` at height `number`. */
  ghost predicate Keyed(number: nat, groups: seq<seq<TokenTransfer>>)
  {
    forall i, j :: 0 <= i < |groups| && 0 <= j < |groups[i]| ==>
      groups[i][j].blockNumber == number && groups[i][j].logIndex == i
  }

  /** Beyond the old rows, the table holds the first transfer of each non-empty group and nothing else. */
  ghost predicate FirstOfEach(
    before: map<(nat, nat), TokenTransfer>, after: map<(nat, nat), TokenTransfer>, number: nat,
    groups: seq<seq<TokenTransfer>>)
  {
    && Kept(before, after)
    && (forall k :: k in after && k !in before ==>
          k.0 == number && k.1 < |groups| && groups[k.1] != [] && after[k] == groups[k.1][0])
    && (forall i: nat :: i < |groups| && groups[i] != [] ==> (number, i) in after)
  }

  ghost predicate AtMostOneEach(groups: seq<seq<TokenTransfer>>)
  {
    forall i :: 0 <= i < |groups| ==> |groups[i]| <= 1
  }

  /** Rows of a single log share one key, so the first wins and the rest are dropped. */
  lemma {:induction false} PutLogTransfers(m: map<(nat, nat), TokenTransfer>, key: (nat, nat), ts: seq<TokenTransfer>)
    requires key !in m && forall i :: 0 <= i < |ts| ==> (ts[i].blockNumber, ts[i].logIndex) == key
    ensures FirstWins(m, TransferRows(ts)) == if ts == [] then m else m[key := ts[0]]
  {
    if ts != [] {
      var front := ts[..|ts| - 1];
      assert TransferRows(ts)[..|ts| - 1] == TransferRows(front);
      PutLogTransfers(m, key, front);
    }
  }

  lemma {:induction false} GroupPut(
    before: map<(nat, nat), TokenTransfer>, middle: map<(nat, nat), TokenTransfer>, number: nat,
    front: seq<seq<TokenTransfer>>, last: seq<TokenTransfer>)
    requires forall k :: k in before ==> k.0 != number
    requires FirstOfEach(before, middle, number, front)
    ensures (number, |front|) !in middle
    ensures var after := if last == [] then middle else middle[(number, |front|) := last[0]];
      FirstOfEach(before, after, number, front + [last]) && |after| == |middle| + if last == [] then 0 else 1
  {
    var groups := front + [last];
    assert forall i :: 0 <= i < |front| ==> groups[i] == front[i];
  }

  lemma {:induction false} GroupAppended(
    before: map<(nat, nat), TokenTransfer>, front: seq<seq<TokenTransfer>>, last: seq<TokenTransfer>, key: (nat, nat))
    requires key !in FirstWins(before, TransferRows(Flatten(front)))
    requires forall i :: 0 <= i < |last| ==> (last[i].blockNumber, last[i].logIndex) == key
    ensures Flatten(front + [last]) == Flatten(front) + last
    ensures FirstWins(before, TransferRows(Flatten(front) + last)) ==
      var middle := FirstWins(before, TransferRows(Flatten(front)));
      if last == [] then middle else middle[key := last[0]]
  {
    var ts := Flatten(front);
    assert (front + [last])[..|front|] == front;
    assert TransferRows(ts + last) == TransferRows(ts) + TransferRows(last);
    FirstWinsConcat(before, TransferRows(ts), TransferRows(last));
    PutLogTransfers(FirstWins(before, TransferRows(ts)), key, last);
  }

  lemma {:induction false} GroupsStored(
    before: map<(nat, nat), TokenTransfer>, number: nat, groups: seq<seq<TokenTransfer>>)
    requires (forall k :: k in before ==> k.0 != number) && Keyed(number, groups)
    ensures var after := FirstWins(before, TransferRows(Flatten(groups)));
      && FirstOfEach(before, after, number, groups)
      && |after| <= |before| + |Flatten(groups)|
      && (|after| == |before| + |Flatten(groups)| <==> AtMostOneEach(groups))
  {
    if groups != [] {
      var n := |groups| - 1;
      var front, last := groups[..n], groups[n];
      assert groups == front + [last];
      GroupsStored(before, number, front);
      GroupPut(before, FirstWins(before, TransferRows(Flatten(front))), number, front, last);
      GroupAppended(before, front, last, (number, n));
      assert AtMostOneEach(groups) <==> AtMostOneEach(front) && |last| <= 1;
    }
  }

  /** The transfers each log decodes to. */
  ghost function Decodings(logs: seq<Log>): (groups: seq<seq<TokenTransfer>>)
    requires forall i :: 0 <= i < |logs| ==> Transfers.DecodeLog(logs[i]).Ok?
    ensures |groups| == |logs|
    ensures forall i :: 0 <= i < |logs| ==> groups[i] == Transfers.DecodeLog(logs[i]).value
  {
    seq(|logs|, i requires 0 <= i < |logs| => Transfers.DecodeLog(logs[i]).value)
  }

  lemma {:induction false} DecodingsFlatten(logs: seq<Log>)
    requires forall i :: 0 <= i < |logs| ==> Transfers.DecodeLog(logs[i]).Ok?
    ensures Transfers.TransfersOf(logs) == Ok(Flatten(Decodings(logs)))
  {
    if logs != [] {
      var front := logs[..|logs| - 1];
      assert forall i :: 0 <= i < |front| ==> front[i] == logs[i];
      DecodingsFlatten(front);
      assert Decodings(logs)[..|logs| - 1] == Decodings(front);
    }
  }

  lemma {:induction false} DecodingsKeyed(number: nat, logs: seq<Log>)
    requires forall i :: 0 <= i < |logs| ==> Transfers.DecodeLog(logs[i]).Ok?
    requires forall i :: 0 <= i < |logs| ==> logs[i].blockNumber == number && logs[i].logIndex == i
    ensures Keyed(number, Decodings(logs))
  {
    var groups: seq<seq<TokenTransfer>> := Decodings(logs);
    forall i, j | 0 <= i < |groups| && 0 <= j < |groups[i]|
      ensures groups[i][j].blockNumber == number && groups[i][j].logIndex == i
    {
      BlockDecoder.LogTransfers(logs[i]);
      assert groups[i][j] in groups[i];
    }
  }

  /**
   * A decoded block committed at a height without transfers stores the first transfer of each log;
   * it loses none exactly when no log decodes to two or more.
   */
  lemma {:induction false} StoredTransfers(t: Tables, ib: IndexedBlock)
    requires BlockDecoder.Faithful(ib)
    requires forall k :: k in t.transfers ==> k.0 != ib.block.number
    ensures var after := Commit(t, ib).transfers;
      && (forall i :: 0 <= i < |ib.logs| ==> Transfers.DecodeLog(ib.logs[i]).Ok?)
      && FirstOfEach(t.transfers, after, ib.block.number, Decodings(ib.logs))
      && (|after| == |t.transfers| + |ib.tokenTransfers| <==> AtMostOneEach(Decodings(ib.logs)))
  {
    BlockDecoder.TransfersDecode(ib.logs);
    DecodingsFlatten(ib.logs);
    DecodingsKeyed(ib.block.number, ib.logs);
    GroupsStored(t.transfers, ib.block.number, Decodings(ib.logs));
  }
}
