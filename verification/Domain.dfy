/** Records shared by the decoder, the store and the ingest protocol. */
module Domain {
  type byte = x: int | 0 <= x < 256
  type Bytes = seq<byte>
  type B256 = b: Bytes | |b| == 32 witness seq(32, _ => 0)
  type Address = b: Bytes | |b| == 20 witness seq(20, _ => 0)

  function Repeated(b: byte): B256
  {
    seq(32, _ => b)
  }

  /** What the indexer writes wherever it has no real hash. */
  const ZERO_HASH: B256 := Repeated(0)

  const U32_MAX: nat := 0xFFFF_FFFF

  /** One more than the largest `u64`, and than the largest `usize` of a 64-bit machine. */
  const U64_LIMIT: nat := 0x1_0000_0000_0000_0000

  datatype Option<+T> = None | Some(value: T)

  function Min(a: nat, b: nat): nat { if a <= b then a else b }

  /** Every entry of `m` is in `r`. */
  ghost predicate Kept<K, V>(m: map<K, V>, r: map<K, V>)
  {
    forall k :: k in m ==> k in r && r[k] == m[k]
  }

  /** `u32::try_from(n).unwrap_or(u32::MAX)`. */
  function SaturateU32(n: nat): (r: nat)
  {
    if n <= U32_MAX then n else U32_MAX
  }

  /** `u8::try_from(n).unwrap_or(0)`. */
  function U8OrZero(n: nat): (r: nat)
  {
    if n < 256 then n else 0
  }

  // ----- rows of the store -----

  datatype Block = Block(
    number: nat, hash: B256, parentHash: B256, timestamp: nat, miner: Address,
    gasUsed: nat, gasLimit: nat, baseFeePerGas: Option<nat>, txCount: nat)

  datatype Transaction = Transaction(
    hash: B256, blockNumber: nat, txIndex: nat, from: Address, to: Option<Address>,
    value: nat, nonce: nat, txType: nat, gasLimit: nat, gasPrice: Option<nat>,
    maxFeePerGas: Option<nat>, maxPriorityFeePerGas: Option<nat>, input: Bytes,
    status: Option<nat>, gasUsed: nat, effectiveGasPrice: Option<nat>,
    contractAddress: Option<Address>)

  datatype Log = Log(
    blockNumber: nat, logIndex: nat, txHash: B256, address: Address,
    topic0: Option<B256>, topic1: Option<B256>, topic2: Option<B256>, topic3: Option<B256>,
    data: Bytes)

  datatype TokenStandard = Erc20 | Erc721 | Erc1155

  datatype TokenTransfer = TokenTransfer(
    blockNumber: nat, logIndex: nat, tokenAddress: Address, from: Address, to: Address,
    value: nat, tokenId: nat, standard: TokenStandard)

  datatype IndexedBlock = IndexedBlock(
    block: Block, transactions: seq<Transaction>, logs: seq<Log>, tokenTransfers: seq<TokenTransfer>)

  // ----- answers of the RPC node (the fields decoding reads) -----

  datatype TransactionResponse = TransactionResponse(
    hash: B256, from: Address, to: Option<Address>, value: nat, nonce: nat, gas: nat,
    gasPrice: Option<nat>, input: Bytes, transactionType: Option<nat>,
    maxFeePerGas: Option<nat>, maxPriorityFeePerGas: Option<nat>)

  datatype LogResponse = LogResponse(
    address: Address, topics: seq<B256>, data: Bytes, transactionHash: B256, logIndex: nat)

  datatype ReceiptResponse = ReceiptResponse(
    transactionHash: B256, gasUsed: nat, contractAddress: Option<Address>,
    status: Option<nat>, logs: seq<LogResponse>, effectiveGasPrice: Option<nat>)

  datatype BlockResponse = BlockResponse(
    number: nat, hash: B256, parentHash: B256, timestamp: nat, miner: Address,
    gasUsed: nat, gasLimit: nat, baseFeePerGas: Option<nat>,
    transactions: seq<TransactionResponse>)

  // ----- results of decoding -----

  datatype DecodeError =
    | ReceiptCountMismatch(blockNumber: nat, transactions: nat, receipts: nat)
    | ReceiptHashMismatch(blockNumber: nat, index: nat, receiptHash: B256, txHash: B256)
    | LogIndexGap(blockNumber: nat, expected: nat, actual: nat, position: nat)
    | InvalidErc20DataLength(logIndex: nat, length: nat)
    | InvalidTransferAddress(logIndex: nat, topicIndex: nat)

  /** `Panic`: a word of the log data does not fit `usize`, or names a slice or a list the machine cannot have. */
  datatype Decoded<+T> = Ok(value: T) | Err(error: DecodeError) | Panic
}
