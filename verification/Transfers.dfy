/** Token transfer logs: ERC-20, ERC-721 and ERC-1155, with ABI decoding of batch arrays. */
module Transfers {
  import opened Domain

  const TRANSFER_TOPIC: B256 := [
    0xdd, 0xf2, 0x52, 0xad, 0x1b, 0xe2, 0xc8, 0x9b, 0x69, 0xc2, 0xb0, 0x68, 0xfc, 0x37, 0x8d, 0xaa,
    0x95, 0x2b, 0xa7, 0xf1, 0x63, 0xc4, 0xa1, 0x16, 0x28, 0xf5, 0x5a, 0x4d, 0xf5, 0x23, 0xb3, 0xef]

  const ERC1155_TRANSFER_SINGLE_TOPIC: B256 := [
    0xc3, 0xd5, 0x81, 0x68, 0xc5, 0xae, 0x73, 0x97, 0x73, 0x1d, 0x06, 0x3d, 0x5b, 0xbf, 0x3d, 0x65,
    0x78, 0x54, 0x42, 0x73, 0x43, 0xf4, 0xc0, 0x83, 0x24, 0x0f, 0x7a, 0xac, 0xaa, 0x2d, 0x0f, 0x62]

  const ERC1155_TRANSFER_BATCH_TOPIC: B256 := [
    0x4a, 0x39, 0xdc, 0x06, 0xd4, 0xc0, 0xdb, 0xc6, 0x4b, 0x70, 0xaf, 0x90, 0xfd, 0x69, 0x8a, 0x23,
    0x3a, 0x51, 0x8a, 0xa5, 0xd0, 0x7e, 0x59, 0x5d, 0x98, 0x3b, 0x8c, 0x05, 0x26, 0xc8, 0xf7, 0xfb]

  // ----- words -----

  function BigEndian(b: Bytes): nat
  {
    if b == [] then 0 else BigEndian(b[..|b| - 1]) * 256 + b[|b| - 1]
  }

  function Pow256(n: nat): (r: nat)
    ensures r > 0
  {
    if n == 0 then 1 else 256 * Pow256(n - 1)
  }

  /** One more than the largest 256-bit word. */
  const WORD_LIMIT: nat := 0x1_0000000000000000_0000000000000000_0000000000000000_0000000000000000

  /** The `len` low bytes of `n`, most significant first. */
  function ToBytes(n: nat, len: nat): (b: Bytes)
    ensures |b| == len
  {
    if len == 0 then [] else ToBytes(n / 256, len - 1) + [n % 256]
  }

  lemma {:induction false} BytesRoundTrip(n: nat, len: nat)
    requires n < Pow256(len)
    ensures BigEndian(ToBytes(n, len)) == n
  {
    if len > 0 {
      BytesRoundTrip(n / 256, len - 1);
      assert ToBytes(n, len)[..len - 1] == ToBytes(n / 256, len - 1);
    }
  }

  /** The first byte weighs most. */
  lemma {:induction false} MostSignificantFirst(first: byte, rest: Bytes)
    ensures BigEndian([first] + rest) == first * Pow256(|rest|) + BigEndian(rest)
  {
    var all := [first] + rest;
    if rest == [] {
      assert all[..0] == [];
      assert BigEndian(all) == BigEndian([]) * 256 + first;
    } else {
      var n := |rest| - 1;
      assert all[..|all| - 1] == [first] + rest[..n];
      MostSignificantFirst(first, rest[..n]);
    }
  }

  lemma {:induction false} WordRoundTrip(n: nat)
    requires n < WORD_LIMIT
    ensures BigEndian(ToBytes(n, 32)) == n
  {
    assert Pow256(8) == 0x1_0000000000000000;
    assert Pow256(16) == 0x1_0000000000000000_0000000000000000;
    assert Pow256(24) == 0x1_0000000000000000_0000000000000000_0000000000000000;
    assert Pow256(32) == WORD_LIMIT;
    BytesRoundTrip(n, 32);
  }

  /** The 32-byte word at byte offset `pos`. */
  function WordAt(data: Bytes, pos: nat): nat
    requires pos + 32 <= |data|
  {
    BigEndian(data[pos..pos + 32])
  }

  // ----- single transfers -----

  function Topics(log: Log): seq<B256>
  {
    (if log.topic0.Some? then [log.topic0.value] else []) +
    (if log.topic1.Some? then [log.topic1.value] else []) +
    (if log.topic2.Some? then [log.topic2.value] else []) +
    (if log.topic3.Some? then [log.topic3.value] else [])
  }

  /** The low 20 bytes of an indexed topic. */
  function TopicAddress(topic: Option<B256>, logIndex: nat, topicIndex: nat): Decoded<Address>
  {
    if topic.Some? then Ok(topic.value[12..32]) else Err(InvalidTransferAddress(logIndex, topicIndex))
  }

  function Transfer(
    log: Log, from: Address, to: Address, value: nat, tokenId: nat, standard: TokenStandard): TokenTransfer
  {
    TokenTransfer(log.blockNumber, log.logIndex, log.address, from, to, value, tokenId, standard)
  }

  function BadLength<T>(log: Log): Decoded<T>
  {
    Err(InvalidErc20DataLength(log.logIndex, |log.data|))
  }

  function DecodeErc20(log: Log): Decoded<seq<TokenTransfer>>
  {
    var from := TopicAddress(log.topic1, log.logIndex, 1);
    if !from.Ok? then Err(from.error) else
    var to := TopicAddress(log.topic2, log.logIndex, 2);
    if !to.Ok? then Err(to.error) else
    if |log.data| != 32 then BadLength(log) else
    Ok([Transfer(log, from.value, to.value, BigEndian(log.data), 0, Erc20)])
  }

  function DecodeErc721(log: Log): Decoded<seq<TokenTransfer>>
  {
    var from := TopicAddress(log.topic1, log.logIndex, 1);
    if !from.Ok? then Err(from.error) else
    var to := TopicAddress(log.topic2, log.logIndex, 2);
    if !to.Ok? then Err(to.error) else
    if log.topic3.None? then Err(InvalidTransferAddress(log.logIndex, 3)) else
    Ok([Transfer(log, from.value, to.value, 0, BigEndian(log.topic3.value), Erc721)])
  }

  function DecodeErc1155Single(log: Log): Decoded<seq<TokenTransfer>>
  {
    var from := TopicAddress(log.topic2, log.logIndex, 2);
    if !from.Ok? then Err(from.error) else
    var to := TopicAddress(log.topic3, log.logIndex, 3);
    if !to.Ok? then Err(to.error) else
    if |log.data| < 64 then BadLength(log) else
    Ok([Transfer(log, from.value, to.value, WordAt(log.data, 32), WordAt(log.data, 0), Erc1155)])
  }

  // ----- batch transfers -----

  /** An array header at `offset`: the length word lies inside the data. */
  predicate HeaderInRange(data: Bytes, offset: nat)
  {
    offset + 32 <= |data|
  }

  /** Whole words that follow the length word at `offset`. */
  function WordsAfter(data: Bytes, offset: nat): nat
    requires HeaderInRange(data, offset)
  {
    (|data| - offset - 32) / 32
  }

  /** How many pairs a batch yields: the stated length, cut where either array runs out of data. */
  function BatchCount(data: Bytes, ids: nat, values: nat): nat
    requires HeaderInRange(data, ids) && HeaderInRange(data, values)
  {
    Min(WordAt(data, ids), Min(WordsAfter(data, ids), WordsAfter(data, values)))
  }

  lemma {:induction false} WordInRange(data: Bytes, offset: nat, i: nat)
    requires HeaderInRange(data, offset)
    ensures i < WordsAfter(data, offset) <==> offset + 32 + i * 32 + 32 <= |data|
  {
  }

  function BatchItem(log: Log, from: Address, to: Address, ids: nat, values: nat, i: nat): TokenTransfer
    requires HeaderInRange(log.data, ids) && HeaderInRange(log.data, values)
    requires i < BatchCount(log.data, ids, values)
  {
    WordInRange(log.data, ids, i);
    WordInRange(log.data, values, i);
    Transfer(log, from, to, WordAt(log.data, values + 32 + i * 32), WordAt(log.data, ids + 32 + i * 32), Erc1155)
  }

  function BatchItems(log: Log, from: Address, to: Address, ids: nat, values: nat): (items: seq<TokenTransfer>)
    requires HeaderInRange(log.data, ids) && HeaderInRange(log.data, values)
    ensures |items| == BatchCount(log.data, ids, values)
    ensures forall i :: 0 <= i < |items| ==> items[i] == BatchItem(log, from, to, ids, values, i)
  {
    seq(BatchCount(log.data, ids, values),
        i requires 0 <= i < BatchCount(log.data, ids, values) => BatchItem(log, from, to, ids, values, i))
  }

  /** The end of the 32-byte slice at `offset` does not fit 64 bits. */
  predicate EndWraps(offset: nat)
  {
    offset + 32 >= U64_LIMIT
  }

  /** The end of the 32-byte slice at `offset`, as 64-bit arithmetic without overflow checks computes it. */
  function EndOf(offset: nat): nat
  {
    (offset + 32) % U64_LIMIT
  }

  /** A list of transfers takes 144 bytes each, and no list may take more than the largest `isize`. */
  const MAX_TRANSFERS: nat := 0x7FFF_FFFF_FFFF_FFFF / 144

  /** Specification of batch decoding in closed form; `DecodeErc1155Batch` is the loop that meets it. */
  function BatchTransfers(log: Log): Decoded<seq<TokenTransfer>>
  {
    var from := TopicAddress(log.topic2, log.logIndex, 2);
    if !from.Ok? then Err(from.error) else
    var to := TopicAddress(log.topic3, log.logIndex, 3);
    if !to.Ok? then Err(to.error) else
    if |log.data| < 128 then BadLength(log) else
    var ids, values := WordAt(log.data, 0), WordAt(log.data, 32);
    if ids >= U64_LIMIT || values >= U64_LIMIT then Panic else
    if |log.data| < EndOf(ids) || |log.data| < EndOf(values) then BadLength(log) else
    if EndWraps(ids) || EndWraps(values) then Panic else
    var idsLen, valuesLen := WordAt(log.data, ids), WordAt(log.data, values);
    if idsLen >= U64_LIMIT || valuesLen >= U64_LIMIT then Panic else
    if idsLen != valuesLen then BadLength(log) else
    if idsLen > MAX_TRANSFERS then Panic else
    Ok(BatchItems(log, from.value, to.value, ids, values))
  }

  /** The loop over the stated length, which stops where either array runs past the data. */
  method CollectBatch(log: Log, from: Address, to: Address, ids: nat, values: nat, stated: nat)
    returns (transfers: seq<TokenTransfer>)
    requires HeaderInRange(log.data, ids) && HeaderInRange(log.data, values) && stated == WordAt(log.data, ids)
    ensures transfers == BatchItems(log, from, to, ids, values)
  {
    transfers := [];
    ghost var count := BatchCount(log.data, ids, values);
    var i := 0;
    while i < stated
      invariant 0 <= i <= count <= stated
      invariant |transfers| == i
      invariant forall k :: 0 <= k < i ==> transfers[k] == BatchItem(log, from, to, ids, values, k)
      decreases stated - i
    {
      WordInRange(log.data, ids, i);
      WordInRange(log.data, values, i);
      var idPos, valPos := ids + 32 + i * 32, values + 32 + i * 32;
      if idPos + 32 > |log.data| || valPos + 32 > |log.data| {
        assert i == count;
        break;
      }
      transfers := transfers + [Transfer(log, from, to, WordAt(log.data, valPos), WordAt(log.data, idPos), Erc1155)];
      i := i + 1;
    }
    assert transfers == BatchItems(log, from, to, ids, values);
  }

  method DecodeErc1155Batch(log: Log) returns (r: Decoded<seq<TokenTransfer>>)
    ensures r == BatchTransfers(log)
  {
    var from := TopicAddress(log.topic2, log.logIndex, 2);
    if !from.Ok? { return Err(from.error); }
    var to := TopicAddress(log.topic3, log.logIndex, 3);
    if !to.Ok? { return Err(to.error); }
    var data := log.data;
    if |data| < 128 { return BadLength(log); }
    var ids, values := WordAt(data, 0), WordAt(data, 32);
    if ids >= U64_LIMIT || values >= U64_LIMIT { return Panic; }
    if |data| < EndOf(ids) || |data| < EndOf(values) { return BadLength(log); }
    if EndWraps(ids) || EndWraps(values) { return Panic; }
    var idsLen, valuesLen := WordAt(data, ids), WordAt(data, values);
    if idsLen >= U64_LIMIT || valuesLen >= U64_LIMIT { return Panic; }
    if idsLen != valuesLen { return BadLength(log); }
    if idsLen > MAX_TRANSFERS { return Panic; }
    var transfers := CollectBatch(log, from.value, to.value, ids, values, idsLen);
    r := Ok(transfers);
  }

  // ----- canonical encoding -----

  /** A list of 256-bit words, each as 32 bytes. */
  function EncodeWords(ws: seq<nat>): (b: Bytes)
    ensures |b| == 32 * |ws|
  {
    if ws == [] then [] else EncodeWords(ws[..|ws| - 1]) + ToBytes(ws[|ws| - 1], 32)
  }

  /**
   * The words of the canonical ABI encoding of `(uint256[] ids, uint256[] values)`: the two offsets,
   * then each array as its length followed by its elements.
   */
  function BatchWords(ids: seq<nat>, values: seq<nat>): seq<nat>
  {
    [64, 96 + 32 * |ids|, |ids|] + ids + [|values|] + values
  }

  function EncodeBatch(ids: seq<nat>, values: seq<nat>): Bytes
  {
    EncodeWords(BatchWords(ids, values))
  }

  lemma {:induction false} EncodedBytes(ws: seq<nat>, i: nat)
    requires i < |ws|
    ensures EncodeWords(ws)[32 * i..32 * i + 32] == ToBytes(ws[i], 32)
  {
    var k := |ws| - 1;
    var front, last := EncodeWords(ws[..k]), ToBytes(ws[k], 32);
    assert EncodeWords(ws) == front + last;
    if i < k {
      EncodedBytes(ws[..k], i);
      assert (front + last)[32 * i..32 * i + 32] == front[32 * i..32 * i + 32];
    } else {
      assert (front + last)[32 * k..32 * k + 32] == last;
    }
  }

  lemma {:induction false} EncodedWord(ws: seq<nat>, i: nat)
    requires i < |ws| && ws[i] < WORD_LIMIT
    ensures WordAt(EncodeWords(ws), 32 * i) == ws[i]
  {
    EncodedBytes(ws, i);
    WordRoundTrip(ws[i]);
  }

  /** The header words of a canonical encoding. */
  lemma {:induction false} EncodedHeaders(ids: seq<nat>, values: seq<nat>)
    requires |ids| == |values| && 128 + 64 * |ids| < U64_LIMIT
    ensures var data := EncodeBatch(ids, values);
      && |data| == 128 + 64 * |ids|
      && WordAt(data, 0) == 64 && WordAt(data, 32) == 96 + 32 * |ids|
      && WordAt(data, 64) == |ids| && WordAt(data, 96 + 32 * |ids|) == |ids|
  {
    var ws := BatchWords(ids, values);
    EncodedWord(ws, 0);
    EncodedWord(ws, 1);
    EncodedWord(ws, 2);
    EncodedWord(ws, 3 + |ids|);
  }

  /** The `i`-th pair of a canonical encoding. */
  lemma {:induction false} EncodedPair(ids: seq<nat>, values: seq<nat>, i: nat)
    requires i < |ids| == |values|
    requires ids[i] < WORD_LIMIT && values[i] < WORD_LIMIT
    ensures var data := EncodeBatch(ids, values);
      && |data| == 128 + 64 * |ids|
      && WordAt(data, 64 + 32 + i * 32) == ids[i]
      && WordAt(data, 96 + 32 * |ids| + 32 + i * 32) == values[i]
  {
    var ws := BatchWords(ids, values);
    EncodedWord(ws, 3 + i);
    EncodedWord(ws, 4 + |ids| + i);
  }

  /** Decoding a canonical encoding comes down to its items, or to a panic if they cannot be allocated. */
  lemma {:induction false} EncodedDecodes(log: Log, ids: seq<nat>, values: seq<nat>)
    requires log.topic2.Some? && log.topic3.Some? && log.data == EncodeBatch(ids, values)
    requires |ids| == |values| && |log.data| < U64_LIMIT
    ensures |log.data| == 128 + 64 * |ids| && BatchCount(log.data, 64, 96 + 32 * |ids|) == |ids|
    ensures BatchTransfers(log) ==
      if |ids| > MAX_TRANSFERS then Panic
      else Ok(BatchItems(log, log.topic2.value[12..32], log.topic3.value[12..32], 64, 96 + 32 * |ids|))
  {
    EncodedHeaders(ids, values);
  }

  lemma {:induction false} EncodedItem(
    log: Log, from: Address, to: Address, ids: seq<nat>, values: seq<nat>, i: nat)
    requires log.data == EncodeBatch(ids, values) && i < |ids| == |values| && |log.data| == 128 + 64 * |ids|
    requires ids[i] < WORD_LIMIT && values[i] < WORD_LIMIT
    requires i < BatchCount(log.data, 64, 96 + 32 * |ids|)
    ensures BatchItem(log, from, to, 64, 96 + 32 * |ids|, i) == Transfer(log, from, to, values[i], ids[i], Erc1155)
  {
    EncodedPair(ids, values, i);
  }

  /**
   * Decoding the canonical encoding of two equally long lists yields their pairs, in order, as long
   * as a list of that many transfers can be allocated; beyond that the decoder panics.
   */
  lemma {:induction false} BatchRoundTrip(log: Log, ids: seq<nat>, values: seq<nat>)
    requires log.topic2.Some? && log.topic3.Some? && log.data == EncodeBatch(ids, values)
    requires |ids| == |values| && |log.data| < U64_LIMIT
    requires forall i :: 0 <= i < |ids| ==> ids[i] < WORD_LIMIT && values[i] < WORD_LIMIT
    ensures var r := BatchTransfers(log);
      && (|ids| > MAX_TRANSFERS ==> r == Panic)
      && (|ids| <= MAX_TRANSFERS ==>
            && r.Ok? && |r.value| == |ids|
            && var from, to := log.topic2.value[12..32], log.topic3.value[12..32];
            forall i :: 0 <= i < |ids| ==> r.value[i] == Transfer(log, from, to, values[i], ids[i], Erc1155))
  {
    EncodedDecodes(log, ids, values);
    var from, to := log.topic2.value[12..32], log.topic3.value[12..32];
    forall i | 0 <= i < |ids|
      ensures BatchItem(log, from, to, 64, 96 + 32 * |ids|, i) == Transfer(log, from, to, values[i], ids[i], Erc1155)
    {
      EncodedItem(log, from, to, ids, values, i);
    }
  }

  // ----- all logs of a block -----

  /** Dispatch on the event topic, as one log of the list sees it. */
  function DecodeLog(log: Log): Decoded<seq<TokenTransfer>>
  {
    if log.topic0 == Some(TRANSFER_TOPIC) then
      if |Topics(log)| == 3 then DecodeErc20(log)
      else if |Topics(log)| == 4 then DecodeErc721(log)
      else Ok([])
    else if log.topic0 == Some(ERC1155_TRANSFER_SINGLE_TOPIC) then DecodeErc1155Single(log)
    else if log.topic0 == Some(ERC1155_TRANSFER_BATCH_TOPIC) then BatchTransfers(log)
    else Ok([])
  }

  /** The transfers of a list of logs, or the outcome of the first log that does not decode. */
  function TransfersOf(logs: seq<Log>): Decoded<seq<TokenTransfer>>
  {
    if logs == [] then Ok([]) else
    var before := TransfersOf(logs[..|logs| - 1]);
    if !before.Ok? then before else
    var last := DecodeLog(logs[|logs| - 1]);
    if last.Ok? then Ok(before.value + last.value) else last
  }

  lemma {:induction false} TransfersStopAtFirstFailure(logs: seq<Log>, k: nat)
    requires k < |logs|
    requires !TransfersOf(logs[..k + 1]).Ok?
    ensures TransfersOf(logs) == TransfersOf(logs[..k + 1])
  {
    if k + 1 == |logs| {
      assert logs[..k + 1] == logs;
    } else {
      var front := logs[..|logs| - 1];
      assert front[..k + 1] == logs[..k + 1];
      TransfersStopAtFirstFailure(front, k);
    }
  }

  method DecodeTokenTransfers(logs: seq<Log>) returns (r: Decoded<seq<TokenTransfer>>)
    ensures r == TransfersOf(logs)
  {
    var transfers := [];
    for i := 0 to |logs|
      invariant TransfersOf(logs[..i]) == Ok(transfers)
    {
      var log := logs[i];
      var next: Decoded<seq<TokenTransfer>>;
      if log.topic0 == Some(TRANSFER_TOPIC) {
        var n := |Topics(log)|;
        next := if n == 3 then DecodeErc20(log) else if n == 4 then DecodeErc721(log) else Ok([]);
      } else if log.topic0 == Some(ERC1155_TRANSFER_SINGLE_TOPIC) {
        next := DecodeErc1155Single(log);
      } else if log.topic0 == Some(ERC1155_TRANSFER_BATCH_TOPIC) {
        next := DecodeErc1155Batch(log);
      } else {
        next := Ok([]);
      }
      assert logs[..i + 1][..i] == logs[..i];
      if !next.Ok? {
        TransfersStopAtFirstFailure(logs, i);
        return next;
      }
      transfers := transfers + next.value;
    }
    assert logs[..|logs|] == logs;
    r := Ok(transfers);
  }
}
