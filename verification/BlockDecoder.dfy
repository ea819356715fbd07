/** From RPC answers to an indexed block: receipt matching, log contiguity, token transfers. */
module BlockDecoder {
  import opened Domain
  import opened Transfers

  function HeaderOf(b: BlockResponse): Block
  {
    Block(b.number, b.hash, b.parentHash, b.timestamp, b.miner, b.gasUsed, b.gasLimit, b.baseFeePerGas,
          SaturateU32(|b.transactions|))
  }

  function TransactionOf(number: nat, index: nat, tx: TransactionResponse, r: ReceiptResponse): Transaction
  {
    Transaction(
      tx.hash, number, SaturateU32(index), tx.from, tx.to, tx.value, tx.nonce,
      if tx.transactionType.Some? then U8OrZero(tx.transactionType.value) else 0,
      tx.gas, tx.gasPrice, tx.maxFeePerGas, tx.maxPriorityFeePerGas, tx.input,
      if r.status.Some? then Some(U8OrZero(r.status.value)) else None,
      r.gasUsed, r.effectiveGasPrice, r.contractAddress)
  }

  function Topic(raw: LogResponse, i: nat): Option<B256>
  {
    if i < |raw.topics| then Some(raw.topics[i]) else None
  }

  function LogOf(number: nat, raw: LogResponse): Log
  {
    Log(number, SaturateU32(raw.logIndex), raw.transactionHash, raw.address,
        Topic(raw, 0), Topic(raw, 1), Topic(raw, 2), Topic(raw, 3), raw.data)
  }

  // ----- specifications: the result over the first k elements -----

  function TransactionsUpTo(b: BlockResponse, rs: seq<ReceiptResponse>, k: nat): Decoded<seq<Transaction>>
    requires k <= |b.transactions| == |rs|
  {
    if k == 0 then Ok([]) else
    var before := TransactionsUpTo(b, rs, k - 1);
    if !before.Ok? then before else
    var tx, r := b.transactions[k - 1], rs[k - 1];
    if tx.hash != r.transactionHash then Err(ReceiptHashMismatch(b.number, k - 1, r.transactionHash, tx.hash)) else
    Ok(before.value + [TransactionOf(b.number, k - 1, tx, r)])
  }

  function TransactionsOf(b: BlockResponse, rs: seq<ReceiptResponse>): Decoded<seq<Transaction>>
  {
    if |b.transactions| != |rs| then Err(ReceiptCountMismatch(b.number, |b.transactions|, |rs|))
    else TransactionsUpTo(b, rs, |rs|)
  }

  function LogsUpTo(number: nat, raws: seq<LogResponse>, k: nat): Decoded<seq<Log>>
    requires k <= |raws|
  {
    if k == 0 then Ok([]) else
    var before := LogsUpTo(number, raws, k - 1);
    if !before.Ok? then before else
    var actual := SaturateU32(raws[k - 1].logIndex);
    if actual != k - 1 then Err(LogIndexGap(number, k - 1, actual, k - 1)) else
    Ok(before.value + [LogOf(number, raws[k - 1])])
  }

  function FlatLogs(rs: seq<ReceiptResponse>): seq<LogResponse>
  {
    if rs == [] then [] else FlatLogs(rs[..|rs| - 1]) + rs[|rs| - 1].logs
  }

  function BlockOf(b: BlockResponse, rs: seq<ReceiptResponse>): Decoded<IndexedBlock>
  {
    var txs := TransactionsOf(b, rs);
    if !txs.Ok? then (if txs.Err? then Err(txs.error) else Panic) else
    var logs := LogsUpTo(b.number, FlatLogs(rs), |FlatLogs(rs)|);
    if !logs.Ok? then (if logs.Err? then Err(logs.error) else Panic) else
    var transfers := TransfersOf(logs.value);
    if !transfers.Ok? then (if transfers.Err? then Err(transfers.error) else Panic) else
    Ok(IndexedBlock(HeaderOf(b), txs.value, logs.value, transfers.value))
  }

  // ----- the loops -----

  lemma {:induction false} TransactionsStop(b: BlockResponse, rs: seq<ReceiptResponse>, k: nat, n: nat)
    requires k <= n <= |b.transactions| == |rs|
    requires !TransactionsUpTo(b, rs, k).Ok?
    ensures TransactionsUpTo(b, rs, n) == TransactionsUpTo(b, rs, k)
    decreases n
  {
    if k < n {
      TransactionsStop(b, rs, k, n - 1);
    }
  }

  method DecodeTransactions(b: BlockResponse, rs: seq<ReceiptResponse>) returns (r: Decoded<seq<Transaction>>)
    ensures r == TransactionsOf(b, rs)
  {
    if |b.transactions| != |rs| {
      return Err(ReceiptCountMismatch(b.number, |b.transactions|, |rs|));
    }
    var transactions := [];
    for index := 0 to |rs|
      invariant TransactionsUpTo(b, rs, index) == Ok(transactions)
    {
      var tx, receipt := b.transactions[index], rs[index];
      if tx.hash != receipt.transactionHash {
        TransactionsStop(b, rs, index + 1, |rs|);
        return Err(ReceiptHashMismatch(b.number, index, receipt.transactionHash, tx.hash));
      }
      transactions := transactions + [TransactionOf(b.number, index, tx, receipt)];
    }
    r := Ok(transactions);
  }

  lemma {:induction false} LogsStop(number: nat, raws: seq<LogResponse>, k: nat, n: nat)
    requires k <= n <= |raws|
    requires !LogsUpTo(number, raws, k).Ok?
    ensures LogsUpTo(number, raws, n) == LogsUpTo(number, raws, k)
    decreases n
  {
    if k < n {
      LogsStop(number, raws, k, n - 1);
    }
  }

  method DecodeLogs(number: nat, raws: seq<LogResponse>) returns (r: Decoded<seq<Log>>)
    ensures r == LogsUpTo(number, raws, |raws|)
  {
    var logs := [];
    for position := 0 to |raws|
      invariant LogsUpTo(number, raws, position) == Ok(logs)
    {
      var logIndex := SaturateU32(raws[position].logIndex);
      if logIndex != position {
        LogsStop(number, raws, position + 1, |raws|);
        return Err(LogIndexGap(number, position, logIndex, position));
      }
      logs := logs + [LogOf(number, raws[position])];
    }
    r := Ok(logs);
  }

  method DecodeBlock(b: BlockResponse, rs: seq<ReceiptResponse>) returns (r: Decoded<IndexedBlock>)
    ensures r == BlockOf(b, rs)
  {
    var txs := DecodeTransactions(b, rs);
    if !txs.Ok? { return if txs.Err? then Err(txs.error) else Panic; }
    var logs := DecodeLogs(b.number, FlatLogs(rs));
    if !logs.Ok? { return if logs.Err? then Err(logs.error) else Panic; }
    var transfers := DecodeTokenTransfers(logs.value);
    if !transfers.Ok? { return if transfers.Err? then Err(transfers.error) else Panic; }
    r := Ok(IndexedBlock(HeaderOf(b), txs.value, logs.value, transfers.value));
  }

  // ----- when decoding succeeds, and with what -----

  ghost predicate ReceiptsMatch(b: BlockResponse, rs: seq<ReceiptResponse>)
  {
    && |b.transactions| == |rs|
    && forall i :: 0 <= i < |rs| ==> b.transactions[i].hash == rs[i].transactionHash
  }

  ghost predicate IndicesContiguous(raws: seq<LogResponse>)
  {
    forall i :: 0 <= i < |raws| ==> raws[i].logIndex == i
  }

  /** A log the transfer decoder accepts, as a condition on the RPC answer. */
  predicate WellFormedTransferLog(raw: LogResponse)
  {
    if |raw.topics| == 0 then true
    else if raw.topics[0] == TRANSFER_TOPIC then |raw.topics| == 3 ==> |raw.data| == 32
    else if raw.topics[0] == ERC1155_TRANSFER_SINGLE_TOPIC then |raw.topics| >= 4 && |raw.data| >= 64
    else if raw.topics[0] == ERC1155_TRANSFER_BATCH_TOPIC then |raw.topics| >= 4 && WellFormedBatchData(raw.data)
    else true
  }

  predicate WellFormedBatchData(data: Bytes)
  {
    && |data| >= 128
    && var ids, values := WordAt(data, 0), WordAt(data, 32);
    && !EndWraps(ids) && !EndWraps(values)
    && HeaderInRange(data, ids) && HeaderInRange(data, values)
    && WordAt(data, ids) == WordAt(data, values) <= MAX_TRANSFERS
  }

  lemma {:induction false} TransactionsDecode(b: BlockResponse, rs: seq<ReceiptResponse>, k: nat)
    requires k <= |b.transactions| == |rs|
    ensures var r := TransactionsUpTo(b, rs, k);
      && !r.Panic?
      && (r.Ok? <==> forall i :: 0 <= i < k ==> b.transactions[i].hash == rs[i].transactionHash)
      && (r.Ok? ==> && |r.value| == k
                    && forall i :: 0 <= i < k ==> r.value[i] == TransactionOf(b.number, i, b.transactions[i], rs[i]))
  {
    if k > 0 {
      TransactionsDecode(b, rs, k - 1);
    }
  }

  lemma {:induction false} LogsDecode(number: nat, raws: seq<LogResponse>, k: nat)
    requires k <= |raws|
    ensures var r := LogsUpTo(number, raws, k);
      && !r.Panic?
      && (r.Ok? <==> forall i :: 0 <= i < k ==> SaturateU32(raws[i].logIndex) == i)
      && (r.Ok? ==> && |r.value| == k
                    && forall i :: 0 <= i < k ==> r.value[i] == LogOf(number, raws[i]))
  {
    if k > 0 {
      LogsDecode(number, raws, k - 1);
    }
  }

  lemma {:induction false} BatchDecodes(log: Log)
    ensures BatchTransfers(log).Ok? <==> log.topic2.Some? && log.topic3.Some? && WellFormedBatchData(log.data)
  {
  }

  lemma {:induction false} LogDecodes(number: nat, raw: LogResponse)
    ensures DecodeLog(LogOf(number, raw)).Ok? <==> WellFormedTransferLog(raw)
  {
    BatchDecodes(LogOf(number, raw));
  }

  /** A `Transfer` log that came out of an RPC answer never fails for want of an address topic. */
  lemma {:induction false} TransferTopicNeverLacksAddress(number: nat, raw: LogResponse)
    requires |raw.topics| > 0 && raw.topics[0] == TRANSFER_TOPIC
    ensures var r := DecodeLog(LogOf(number, raw)); r.Err? ==> r.error.InvalidErc20DataLength?
  {
  }

  lemma {:induction false} TransfersDecode(logs: seq<Log>)
    ensures TransfersOf(logs).Ok? <==> forall i :: 0 <= i < |logs| ==> DecodeLog(logs[i]).Ok?
  {
    if logs != [] {
      var front := logs[..|logs| - 1];
      TransfersDecode(front);
      assert forall i :: 0 <= i < |front| ==> front[i] == logs[i];
    }
  }

  /** Decoding succeeds exactly on matching receipts, contiguous log indices and well-formed transfer logs. */
  lemma {:induction false} DecodeBlockSucceedsIff(b: BlockResponse, rs: seq<ReceiptResponse>)
    requires |FlatLogs(rs)| <= U32_MAX
    ensures BlockOf(b, rs).Ok? <==>
      && ReceiptsMatch(b, rs)
      && IndicesContiguous(FlatLogs(rs))
      && forall i :: 0 <= i < |FlatLogs(rs)| ==> WellFormedTransferLog(FlatLogs(rs)[i])
  {
    var raws := FlatLogs(rs);
    if |b.transactions| == |rs| {
      TransactionsDecode(b, rs, |rs|);
    }
    LogsDecode(b.number, raws, |raws|);
    var logs := LogsUpTo(b.number, raws, |raws|);
    if logs.Ok? {
      TransfersDecode(logs.value);
      forall i | 0 <= i < |raws|
        ensures DecodeLog(logs.value[i]).Ok? <==> WellFormedTransferLog(raws[i])
      {
        LogDecodes(b.number, raws[i]);
      }
    }
  }

  /** A stored transaction is the node's transaction plus its own receipt's outcome. */
  ghost predicate Carries(t: Transaction, number: nat, index: nat, tx: TransactionResponse, r: ReceiptResponse)
  {
    && t.hash == tx.hash && t.blockNumber == number && t.txIndex == Min(index, U32_MAX)
    && t.from == tx.from && t.to == tx.to && t.value == tx.value && t.nonce == tx.nonce && t.input == tx.input
    && t.gasLimit == tx.gas && t.gasPrice == tx.gasPrice
    && t.maxFeePerGas == tx.maxFeePerGas && t.maxPriorityFeePerGas == tx.maxPriorityFeePerGas
    && (tx.transactionType.Some? && tx.transactionType.value < 256 ==> t.txType == tx.transactionType.value)
    && (tx.transactionType.None? || tx.transactionType.value >= 256 ==> t.txType == 0)
    && t.gasUsed == r.gasUsed && t.effectiveGasPrice == r.effectiveGasPrice && t.contractAddress == r.contractAddress
    && (t.status.None? <==> r.status.None?)
    && (r.status.Some? && r.status.value < 256 ==> t.status == r.status)
    && (r.status.Some? && r.status.value >= 256 ==> t.status == Some(0))
  }

  ghost predicate CarriesHeader(h: Block, b: BlockResponse)
  {
    && h.number == b.number && h.hash == b.hash && h.parentHash == b.parentHash && h.timestamp == b.timestamp
    && h.miner == b.miner && h.gasUsed == b.gasUsed && h.gasLimit == b.gasLimit && h.baseFeePerGas == b.baseFeePerGas
    && h.txCount == Min(|b.transactions|, U32_MAX)
  }

  /** A stored log is the node's log at its position, its topics cut to four. */
  ghost predicate CarriesLog(l: Log, number: nat, index: nat, raw: LogResponse)
  {
    && l.blockNumber == number && l.logIndex == index && l.txHash == raw.transactionHash
    && l.address == raw.address && l.data == raw.data
    && Topics(l) == raw.topics[..Min(4, |raw.topics|)]
  }

  /** What a decoded block holds: every transaction with its own receipt, every log in receipt order. */
  lemma {:induction false} DecodedContents(b: BlockResponse, rs: seq<ReceiptResponse>)
    requires BlockOf(b, rs).Ok?
    ensures var ib := BlockOf(b, rs).value;
      && ib.block == HeaderOf(b) && CarriesHeader(ib.block, b)
      && |ib.transactions| == |rs| && |b.transactions| == |rs|
      && (forall i :: 0 <= i < |rs| ==> Carries(ib.transactions[i], b.number, i, b.transactions[i], rs[i]))
      && |ib.logs| == |FlatLogs(rs)|
      && (forall i :: 0 <= i < |ib.logs| ==> CarriesLog(ib.logs[i], b.number, i, FlatLogs(rs)[i]))
      && TransfersOf(ib.logs) == Ok(ib.tokenTransfers)
  {
    TransactionsDecode(b, rs, |rs|);
    LogsDecode(b.number, FlatLogs(rs), |FlatLogs(rs)|);
    var ib := BlockOf(b, rs).value;
    forall i | 0 <= i < |ib.logs| ensures CarriesLog(ib.logs[i], b.number, i, FlatLogs(rs)[i]) {
      TopicsCut(b.number, FlatLogs(rs)[i]);
    }
  }

  lemma {:induction false} TopicsCut(number: nat, raw: LogResponse)
    ensures Topics(LogOf(number, raw)) == raw.topics[..Min(4, |raw.topics|)]
  {
  }

  /** The j-th log of receipt i sits in the block's logs after all logs of earlier receipts. */
  lemma {:induction false} FlatLogsInOrder(rs: seq<ReceiptResponse>, i: nat, j: nat)
    requires i < |rs| && j < |rs[i].logs|
    ensures var k := |FlatLogs(rs[..i])| + j; k < |FlatLogs(rs)| && FlatLogs(rs)[k] == rs[i].logs[j]
  {
    if i == |rs| - 1 {
      assert rs[..i] == rs[..|rs| - 1];
    } else {
      var front := rs[..|rs| - 1];
      FlatLogsInOrder(front, i, j);
      assert front[..i] == rs[..i];
    }
  }

  // ----- transfers name logs of their own block, in order -----

  lemma {:induction false} LogTransfers(log: Log)
    requires DecodeLog(log).Ok?
    ensures forall t :: t in DecodeLog(log).value ==> t.blockNumber == log.blockNumber && t.logIndex == log.logIndex
  {
  }

  ghost predicate Ordered(ts: seq<TokenTransfer>)
  {
    forall i, j :: 0 <= i < j < |ts| ==> ts[i].logIndex <= ts[j].logIndex
  }

  lemma {:induction false} TransfersOrdered(number: nat, logs: seq<Log>)
    requires TransfersOf(logs).Ok?
    requires forall i :: 0 <= i < |logs| ==> logs[i].blockNumber == number && logs[i].logIndex == i
    ensures Ordered(TransfersOf(logs).value)
    ensures forall t :: t in TransfersOf(logs).value ==> t.blockNumber == number && t.logIndex < |logs|
  {
    if logs != [] {
      var front, last := logs[..|logs| - 1], logs[|logs| - 1];
      TransfersOrdered(number, front);
      LogTransfers(last);
      var a, b := TransfersOf(front).value, DecodeLog(last).value;
      assert forall i :: 0 <= i < |a| ==> a[i] in a;
      assert forall i :: 0 <= i < |b| ==> b[i] in b;
    }
  }

  /** Rows of a decoded block: all of one height, logs numbered from zero, transfers naming those logs. */
  ghost predicate WellFormed(ib: IndexedBlock)
  {
    && (forall i :: 0 <= i < |ib.transactions| ==> ib.transactions[i].blockNumber == ib.block.number)
    && (forall i :: 0 <= i < |ib.logs| ==> ib.logs[i].blockNumber == ib.block.number && ib.logs[i].logIndex == i)
    && (forall i :: 0 <= i < |ib.tokenTransfers| ==>
          ib.tokenTransfers[i].blockNumber == ib.block.number && ib.tokenTransfers[i].logIndex < |ib.logs|)
  }

  lemma {:induction false} DecodedWellFormed(b: BlockResponse, rs: seq<ReceiptResponse>)
    requires BlockOf(b, rs).Ok?
    ensures WellFormed(BlockOf(b, rs).value) && Ordered(BlockOf(b, rs).value.tokenTransfers)
  {
    DecodedContents(b, rs);
    var ib := BlockOf(b, rs).value;
    TransfersOrdered(b.number, ib.logs);
    assert forall i :: 0 <= i < |ib.tokenTransfers| ==> ib.tokenTransfers[i] in ib.tokenTransfers;
  }

  /** A block with well-formed rows whose transfers are those of its logs. */
  ghost predicate Faithful(ib: IndexedBlock)
  {
    WellFormed(ib) && TransfersOf(ib.logs) == Ok(ib.tokenTransfers)
  }

  lemma {:induction false} DecodedFaithful(b: BlockResponse, rs: seq<ReceiptResponse>)
    requires BlockOf(b, rs).Ok?
    ensures Faithful(BlockOf(b, rs).value)
  {
    DecodedContents(b, rs);
    DecodedWellFormed(b, rs);
  }

  /** Transactions carry their own position. */
  ghost predicate Positioned(ib: IndexedBlock)
  {
    forall i :: 0 <= i < |ib.transactions| ==>
      ib.transactions[i].blockNumber == ib.block.number && ib.transactions[i].txIndex == i
  }

  lemma {:induction false} DecodedPositioned(b: BlockResponse, rs: seq<ReceiptResponse>)
    requires BlockOf(b, rs).Ok? && |rs| <= U32_MAX
    ensures Positioned(BlockOf(b, rs).value)
  {
    DecodedContents(b, rs);
  }
}
