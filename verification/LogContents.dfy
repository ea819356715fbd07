/** What each log of an RPC answer yields, case by case, and which failure a malformed one gives. */
module LogContents {
  import opened Domain
  import opened Transfers
  import opened BlockDecoder

  // ----- logs of other events, and single transfers -----

  /** No transfer event at all, or a `Transfer` with too few topics. */
  predicate NoTransferEvent(raw: LogResponse)
  {
    || |raw.topics| == 0
    || (raw.topics[0] != TRANSFER_TOPIC && raw.topics[0] != ERC1155_TRANSFER_SINGLE_TOPIC
        && raw.topics[0] != ERC1155_TRANSFER_BATCH_TOPIC)
    || (raw.topics[0] == TRANSFER_TOPIC && |raw.topics| < 3)
  }

  /** A log of any other event decodes to nothing, whatever its data. */
  lemma {:induction false} OtherLogsYieldNothing(number: nat, raw: LogResponse)
    requires NoTransferEvent(raw)
    ensures DecodeLog(LogOf(number, raw)) == Ok([])
  {
  }

  /** A `Transfer` log with three topics is an ERC-20 transfer of its 32-byte value; with more, an ERC-721 transfer. */
  lemma {:induction false} TransferLogYields(number: nat, raw: LogResponse)
    requires |raw.topics| >= 3 && raw.topics[0] == TRANSFER_TOPIC && raw.logIndex <= U32_MAX
    ensures var from, to := raw.topics[1][12..32], raw.topics[2][12..32];
      DecodeLog(LogOf(number, raw)) ==
        if |raw.topics| > 3 then
          Ok([TokenTransfer(number, raw.logIndex, raw.address, from, to, 0, BigEndian(raw.topics[3]), Erc721)])
        else if |raw.data| == 32 then
          Ok([TokenTransfer(number, raw.logIndex, raw.address, from, to, BigEndian(raw.data), 0, Erc20)])
        else Err(InvalidErc20DataLength(raw.logIndex, |raw.data|))
  {
  }

  /** A `TransferSingle` log reads the id and then the value, and ignores what follows them. */
  lemma {:induction false} SingleLogYields(number: nat, raw: LogResponse)
    requires |raw.topics| >= 1 && raw.topics[0] == ERC1155_TRANSFER_SINGLE_TOPIC && raw.logIndex <= U32_MAX
    ensures DecodeLog(LogOf(number, raw)) ==
        if |raw.topics| < 3 then Err(InvalidTransferAddress(raw.logIndex, 2))
        else if |raw.topics| < 4 then Err(InvalidTransferAddress(raw.logIndex, 3))
        else if |raw.data| < 64 then Err(InvalidErc20DataLength(raw.logIndex, |raw.data|))
        else Ok([TokenTransfer(number, raw.logIndex, raw.address, raw.topics[2][12..32], raw.topics[3][12..32],
                               BigEndian(raw.data[32..64]), BigEndian(raw.data[..32]), Erc1155)])
  {
    assert TRANSFER_TOPIC[0] == 0xdd && ERC1155_TRANSFER_SINGLE_TOPIC[0] == 0xc3;
  }

  // ----- batches -----

  predicate IsBatchLog(raw: LogResponse)
  {
    |raw.topics| >= 1 && raw.topics[0] == ERC1155_TRANSFER_BATCH_TOPIC && raw.logIndex <= U32_MAX
  }

  /** Both offsets are read from the first two words, and both point at a length word inside the data. */
  predicate HeadersReadable(data: Bytes, ids: nat, values: nat)
  {
    && |data| >= 128 && ids == BigEndian(data[..32]) && values == BigEndian(data[32..64])
    && ids + 32 < U64_LIMIT && values + 32 < U64_LIMIT && ids + 32 <= |data| && values + 32 <= |data|
  }

  lemma {:induction false} BatchLogIsBatch(number: nat, raw: LogResponse)
    requires IsBatchLog(raw)
    ensures DecodeLog(LogOf(number, raw)) == BatchTransfers(LogOf(number, raw))
  {
    assert TRANSFER_TOPIC[0] == 0xdd && ERC1155_TRANSFER_SINGLE_TOPIC[0] == 0xc3;
    assert ERC1155_TRANSFER_BATCH_TOPIC[0] == 0x4a;
  }

  /** Missing topics and short data are errors. */
  lemma {:induction false} ShortBatchLogFails(number: nat, raw: LogResponse)
    requires IsBatchLog(raw) && (|raw.topics| < 4 || |raw.data| < 128)
    ensures DecodeLog(LogOf(number, raw)) ==
      if |raw.topics| < 3 then Err(InvalidTransferAddress(raw.logIndex, 2))
      else if |raw.topics| < 4 then Err(InvalidTransferAddress(raw.logIndex, 3))
      else Err(InvalidErc20DataLength(raw.logIndex, |raw.data|))
  {
    BatchLogIsBatch(number, raw);
  }

  /** An offset that fits 64 bits points past the data without its end wrapping around. */
  predicate OutOfRange(data: Bytes, offset: nat)
  {
    offset + 32 < U64_LIMIT && offset + 32 > |data|
  }

  /** Offset words beyond 64 bits are panics; else one out of range is an error; else one that wraps is a panic. */
  lemma {:induction false} BatchOffsetsFail(number: nat, raw: LogResponse, ids: nat, values: nat)
    requires IsBatchLog(raw) && |raw.topics| >= 4 && |raw.data| >= 128
    requires ids == BigEndian(raw.data[..32]) && values == BigEndian(raw.data[32..64])
    ensures ids >= U64_LIMIT || values >= U64_LIMIT ==> DecodeLog(LogOf(number, raw)) == Panic
    ensures ids < U64_LIMIT && values < U64_LIMIT && (OutOfRange(raw.data, ids) || OutOfRange(raw.data, values)) ==>
              DecodeLog(LogOf(number, raw)) == Err(InvalidErc20DataLength(raw.logIndex, |raw.data|))
    ensures !OutOfRange(raw.data, ids) && !OutOfRange(raw.data, values) ==>
              (ids + 32 >= U64_LIMIT || values + 32 >= U64_LIMIT ==> DecodeLog(LogOf(number, raw)) == Panic)
  {
    BatchLogIsBatch(number, raw);
  }

  /** Unequal lengths that fit 64 bits are an error; lengths that do not fit, or cannot be allocated, are panics. */
  lemma {:induction false} BatchLengthsFail(number: nat, raw: LogResponse, ids: nat, values: nat)
    requires IsBatchLog(raw) && |raw.topics| >= 4 && HeadersReadable(raw.data, ids, values)
    ensures var n, m := BigEndian(raw.data[ids..ids + 32]), BigEndian(raw.data[values..values + 32]);
      var r := DecodeLog(LogOf(number, raw));
      && (n >= U64_LIMIT || m >= U64_LIMIT ==> r == Panic)
      && (n < U64_LIMIT && m < U64_LIMIT && n != m ==> r == Err(InvalidErc20DataLength(raw.logIndex, |raw.data|)))
      && (n == m < U64_LIMIT && n > MAX_TRANSFERS ==> r == Panic)
  {
    BatchLogIsBatch(number, raw);
  }

  /** A readable batch: its stated lengths agree and can be allocated. */
  predicate BatchReadable(data: Bytes, ids: nat, values: nat)
  {
    && HeadersReadable(data, ids, values)
    && BigEndian(data[ids..ids + 32]) == BigEndian(data[values..values + 32]) <= MAX_TRANSFERS
  }

  lemma {:induction false} ReadableBatchDecodes(log: Log, ids: nat, values: nat)
    requires log.topic2.Some? && log.topic3.Some? && BatchReadable(log.data, ids, values)
    ensures BatchTransfers(log) == Ok(BatchItems(log, log.topic2.value[12..32], log.topic3.value[12..32], ids, values))
  {
    assert WordAt(log.data, 0) == ids && WordAt(log.data, 32) == values;
    assert EndOf(ids) == ids + 32 && EndOf(values) == values + 32;
  }

  /** Item i exists if it is within the stated length and both its words lie inside the data. */
  predicate HasItem(data: Bytes, ids: nat, values: nat, i: nat)
    requires ids + 32 <= |data|
  {
    && i < BigEndian(data[ids..ids + 32])
    && ids + 64 + 32 * i <= |data| && values + 64 + 32 * i <= |data|
  }

  lemma {:induction false} ItemCount(data: Bytes, ids: nat, values: nat, i: nat)
    requires HeaderInRange(data, ids) && HeaderInRange(data, values)
    ensures i < BatchCount(data, ids, values) <==> HasItem(data, ids, values, i)
  {
    WordInRange(data, ids, i);
    WordInRange(data, values, i);
  }

  lemma {:induction false} ItemWords(log: Log, from: Address, to: Address, ids: nat, values: nat, i: nat)
    requires HeaderInRange(log.data, ids) && HeaderInRange(log.data, values)
    requires i < BatchCount(log.data, ids, values) && HasItem(log.data, ids, values, i)
    ensures BatchItem(log, from, to, ids, values, i) == TokenTransfer(
              log.blockNumber, log.logIndex, log.address, from, to,
              BigEndian(log.data[values + 32 + 32 * i..values + 64 + 32 * i]),
              BigEndian(log.data[ids + 32 + 32 * i..ids + 64 + 32 * i]), Erc1155)
  {
  }

  /**
   * What a readable `TransferBatch` log yields: item i pairs word i after the id header with word i after
   * the value header, for exactly the items that exist.
   */
  lemma {:induction false} BatchLogYields(number: nat, raw: LogResponse, ids: nat, values: nat, i: nat)
    requires IsBatchLog(raw) && |raw.topics| >= 4 && BatchReadable(raw.data, ids, values)
    ensures var r, data := DecodeLog(LogOf(number, raw)), raw.data;
      && r.Ok? && (i < |r.value| <==> HasItem(data, ids, values, i))
      && (i < |r.value| ==>
            r.value[i] == TokenTransfer(
              number, raw.logIndex, raw.address, raw.topics[2][12..32], raw.topics[3][12..32],
              BigEndian(data[values + 32 + 32 * i..values + 64 + 32 * i]),
              BigEndian(data[ids + 32 + 32 * i..ids + 64 + 32 * i]), Erc1155))
  {
    BatchLogIsBatch(number, raw);
    ReadableBatchDecodes(LogOf(number, raw), ids, values);
    ItemCount(raw.data, ids, values, i);
    if HasItem(raw.data, ids, values, i) {
      ItemWords(LogOf(number, raw), raw.topics[2][12..32], raw.topics[3][12..32], ids, values, i);
    }
  }

  // ----- where the transfers of a block come from -----

  /** A log with one of the three topics and topics enough to name both addresses. */
  predicate NamesTransfer(raw: LogResponse)
  {
    && |raw.topics| >= 3
    && (|| raw.topics[0] == TRANSFER_TOPIC
        || (raw.topics[0] == ERC1155_TRANSFER_SINGLE_TOPIC && |raw.topics| >= 4)
        || (raw.topics[0] == ERC1155_TRANSFER_BATCH_TOPIC && |raw.topics| >= 4))
  }

  lemma {:induction false} SourceOfTransfer(number: nat, raw: LogResponse)
    ensures var r := DecodeLog(LogOf(number, raw)); r.Ok? && r.value != [] ==> NamesTransfer(raw)
  {
    if NoTransferEvent(raw) {
      OtherLogsYieldNothing(number, raw);
    }
  }

  ghost predicate YieldedBy(number: nat, raw: LogResponse, t: TokenTransfer)
  {
    NamesTransfer(raw) && DecodeLog(LogOf(number, raw)).Ok? && t in DecodeLog(LogOf(number, raw)).value
  }

  lemma {:induction false} TransfersHaveSources(number: nat, raws: seq<LogResponse>, logs: seq<Log>, t: TokenTransfer)
    returns (i: nat)
    requires |raws| == |logs| && forall k :: 0 <= k < |logs| ==> logs[k] == LogOf(number, raws[k])
    requires TransfersOf(logs).Ok? && t in TransfersOf(logs).value
    ensures i < |raws| && YieldedBy(number, raws[i], t)
  {
    var n := |logs| - 1;
    var front := logs[..n];
    if t in TransfersOf(front).value {
      i := TransfersHaveSources(number, raws[..n], front, t);
    } else {
      i := n;
      SourceOfTransfer(number, raws[n]);
    }
  }

  lemma {:induction false} LogsOfBlock(b: BlockResponse, rs: seq<ReceiptResponse>)
    requires BlockOf(b, rs).Ok?
    ensures var ib, raws := BlockOf(b, rs).value, FlatLogs(rs);
      && |ib.logs| == |raws| && TransfersOf(ib.logs) == Ok(ib.tokenTransfers)
      && forall k :: 0 <= k < |raws| ==> ib.logs[k] == LogOf(b.number, raws[k])
  {
    LogsDecode(b.number, FlatLogs(rs), |FlatLogs(rs)|);
  }

  /** Every transfer of a decoded block comes from a log of its receipts with a transfer topic and its addresses. */
  lemma {:induction false} BlockTransfersHaveSources(b: BlockResponse, rs: seq<ReceiptResponse>, t: TokenTransfer)
    returns (i: nat)
    requires BlockOf(b, rs).Ok? && t in BlockOf(b, rs).value.tokenTransfers
    ensures i < |FlatLogs(rs)| && YieldedBy(b.number, FlatLogs(rs)[i], t)
  {
    LogsOfBlock(b, rs);
    i := TransfersHaveSources(b.number, FlatLogs(rs), BlockOf(b, rs).value.logs, t);
  }

  // ----- which failure a block gives -----

  /** The hashes of transaction and receipt `i` differ, and those before agree. */
  ghost predicate FirstMismatch(b: BlockResponse, rs: seq<ReceiptResponse>, i: nat)
  {
    && |b.transactions| == |rs| && i < |rs| && b.transactions[i].hash != rs[i].transactionHash
    && forall k :: 0 <= k < i ==> b.transactions[k].hash == rs[k].transactionHash
  }

  ghost predicate FirstGap(raws: seq<LogResponse>, i: nat)
  {
    i < |raws| <= U32_MAX && raws[i].logIndex != i && forall k :: 0 <= k < i ==> raws[k].logIndex == k
  }

  /** The log gives an error, not a panic. */
  predicate Fails(number: nat, raw: LogResponse)
  {
    DecodeLog(LogOf(number, raw)).Err?
  }

  ghost predicate FirstFailure(number: nat, raws: seq<LogResponse>, i: nat)
  {
    && i < |raws| && !DecodeLog(LogOf(number, raws[i])).Ok?
    && forall k :: 0 <= k < i ==> DecodeLog(LogOf(number, raws[k])).Ok?
  }

  lemma {:induction false} MismatchIsReported(b: BlockResponse, rs: seq<ReceiptResponse>, i: nat)
    requires FirstMismatch(b, rs, i)
    ensures BlockOf(b, rs) == Err(ReceiptHashMismatch(b.number, i, rs[i].transactionHash, b.transactions[i].hash))
  {
    TransactionsDecode(b, rs, i);
    TransactionsStop(b, rs, i + 1, |rs|);
  }

  lemma {:induction false} GapIsReported(b: BlockResponse, rs: seq<ReceiptResponse>, i: nat)
    requires ReceiptsMatch(b, rs) && FirstGap(FlatLogs(rs), i)
    ensures BlockOf(b, rs) == Err(LogIndexGap(b.number, i, Min(FlatLogs(rs)[i].logIndex, U32_MAX), i))
  {
    var raws := FlatLogs(rs);
    TransactionsDecode(b, rs, |rs|);
    LogsDecode(b.number, raws, i);
    LogsStop(b.number, raws, i + 1, |raws|);
  }

  lemma {:induction false} FailedLogDecides(number: nat, raws: seq<LogResponse>, logs: seq<Log>, i: nat)
    requires |raws| == |logs| && forall k :: 0 <= k < |logs| ==> logs[k] == LogOf(number, raws[k])
    requires FirstFailure(number, raws, i)
    ensures TransfersOf(logs) == DecodeLog(LogOf(number, raws[i]))
  {
    var upTo := logs[..i + 1];
    assert upTo[..i] == logs[..i] && upTo[i] == logs[i];
    TransfersDecode(logs[..i]);
    assert TransfersOf(upTo) == DecodeLog(logs[i]);
    TransfersStopAtFirstFailure(logs, i);
  }

  lemma {:induction false} FailureIsReported(b: BlockResponse, rs: seq<ReceiptResponse>, i: nat)
    requires ReceiptsMatch(b, rs) && |FlatLogs(rs)| <= U32_MAX && IndicesContiguous(FlatLogs(rs))
    requires FirstFailure(b.number, FlatLogs(rs), i)
    ensures var r := DecodeLog(LogOf(b.number, FlatLogs(rs)[i]));
      BlockOf(b, rs) == if r.Err? then Err(r.error) else Panic
  {
    var raws := FlatLogs(rs);
    TransactionsDecode(b, rs, |rs|);
    LogsDecode(b.number, raws, |raws|);
    FailedLogDecides(b.number, raws, LogsUpTo(b.number, raws, |raws|).value, i);
  }

  lemma {:induction false} CountIsReported(b: BlockResponse, rs: seq<ReceiptResponse>)
    requires |b.transactions| != |rs|
    ensures BlockOf(b, rs) == Err(ReceiptCountMismatch(b.number, |b.transactions|, |rs|))
  {
  }
}
