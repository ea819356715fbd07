/** Token events as contracts emit them, and what decoding makes of them. */
module Events {
  import opened Domain
  import opened Transfers
  import opened BlockDecoder

  /** An address as an indexed topic: left-padded to 32 bytes. */
  function AddressTopic(a: Address): (t: B256)
    ensures t[12..32] == a
  {
    var t := seq(12, _ => 0 as byte) + a;
    assert t[12..32] == a;
    t
  }

  function WordTopic(n: nat): B256
  {
    ToBytes(n, 32)
  }

  /** Where an event was emitted. */
  datatype Site = Site(token: Address, txHash: B256, logIndex: nat)

  function Emit(site: Site, topics: seq<B256>, data: Bytes): LogResponse
  {
    LogResponse(site.token, topics, data, site.txHash, site.logIndex)
  }

  function Erc20Event(site: Site, from: Address, to: Address, value: nat): LogResponse
  {
    Emit(site, [TRANSFER_TOPIC, AddressTopic(from), AddressTopic(to)], ToBytes(value, 32))
  }

  function Erc721Event(site: Site, from: Address, to: Address, id: nat): LogResponse
  {
    Emit(site, [TRANSFER_TOPIC, AddressTopic(from), AddressTopic(to), WordTopic(id)], [])
  }

  function Erc1155SingleEvent(
    site: Site, operator: Address, from: Address, to: Address, id: nat, value: nat): LogResponse
  {
    Emit(site, [ERC1155_TRANSFER_SINGLE_TOPIC, AddressTopic(operator), AddressTopic(from), AddressTopic(to)],
         EncodeWords([id, value]))
  }

  function Erc1155BatchEvent(
    site: Site, operator: Address, from: Address, to: Address, ids: seq<nat>, values: seq<nat>): LogResponse
  {
    Emit(site, [ERC1155_TRANSFER_BATCH_TOPIC, AddressTopic(operator), AddressTopic(from), AddressTopic(to)],
         EncodeBatch(ids, values))
  }

  lemma {:induction false} TopicsDiffer()
    ensures TRANSFER_TOPIC != ERC1155_TRANSFER_SINGLE_TOPIC
    ensures TRANSFER_TOPIC != ERC1155_TRANSFER_BATCH_TOPIC
    ensures ERC1155_TRANSFER_SINGLE_TOPIC != ERC1155_TRANSFER_BATCH_TOPIC
  {
    assert TRANSFER_TOPIC[0] == 0xdd && ERC1155_TRANSFER_SINGLE_TOPIC[0] == 0xc3;
    assert ERC1155_TRANSFER_BATCH_TOPIC[0] == 0x4a;
  }

  lemma {:induction false} Erc20RoundTrip(number: nat, site: Site, from: Address, to: Address, value: nat)
    requires value < WORD_LIMIT && site.logIndex <= U32_MAX
    ensures DecodeLog(LogOf(number, Erc20Event(site, from, to, value)))
         == Ok([TokenTransfer(number, site.logIndex, site.token, from, to, value, 0, Erc20)])
  {
    WordRoundTrip(value);
  }

  lemma {:induction false} Erc721RoundTrip(number: nat, site: Site, from: Address, to: Address, id: nat)
    requires id < WORD_LIMIT && site.logIndex <= U32_MAX
    ensures DecodeLog(LogOf(number, Erc721Event(site, from, to, id)))
         == Ok([TokenTransfer(number, site.logIndex, site.token, from, to, 0, id, Erc721)])
  {
    WordRoundTrip(id);
  }

  lemma {:induction false} Erc1155SingleRoundTrip(
    number: nat, site: Site, operator: Address, from: Address, to: Address, id: nat, value: nat)
    requires id < WORD_LIMIT && value < WORD_LIMIT && site.logIndex <= U32_MAX
    ensures DecodeLog(LogOf(number, Erc1155SingleEvent(site, operator, from, to, id, value)))
         == Ok([TokenTransfer(number, site.logIndex, site.token, from, to, value, id, Erc1155)])
  {
    TopicsDiffer();
    EncodedWord([id, value], 0);
    EncodedWord([id, value], 1);
  }

  /** A batch event decodes to its (id, value) pairs in order. */
  lemma {:induction false} Erc1155BatchRoundTrip(
    number: nat, site: Site, operator: Address, from: Address, to: Address, ids: seq<nat>, values: seq<nat>)
    requires |ids| == |values| && site.logIndex <= U32_MAX && |ids| <= MAX_TRANSFERS
    requires forall i :: 0 <= i < |ids| ==> ids[i] < WORD_LIMIT && values[i] < WORD_LIMIT
    ensures var r := DecodeLog(LogOf(number, Erc1155BatchEvent(site, operator, from, to, ids, values)));
      && r.Ok? && |r.value| == |ids|
      && forall i :: 0 <= i < |ids| ==>
           r.value[i] == TokenTransfer(number, site.logIndex, site.token, from, to, values[i], ids[i], Erc1155)
  {
    TopicsDiffer();
    var log := LogOf(number, Erc1155BatchEvent(site, operator, from, to, ids, values));
    BatchRoundTrip(log, ids, values);
    assert DecodeLog(log) == BatchTransfers(log);
  }
}
