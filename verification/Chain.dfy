/** What the model assumes of the blockchain itself. */
module Chain {
  import opened Domain

  /** Every block ever mined, by hash: a hash determines its header. */
  type World = map<B256, Block>

  predicate Known(w: World, b: Block)
  {
    b.hash in w && w[b.hash] == b && b.hash != ZERO_HASH
  }

  /** A known block whose parent, if it has one, is a known block one height below. */
  predicate Genuine(w: World, b: Block)
  {
    && Known(w, b)
    && (b.number > 0 ==>
          && b.parentHash in w && w[b.parentHash].hash == b.parentHash
          && Known(w, w[b.parentHash]) && w[b.parentHash].number == b.number - 1)
  }

  /** A remote chain: one genuine block per height, each naming the one below as its parent. */
  ghost predicate RemoteChain(w: World, remote: seq<Block>)
  {
    && (forall i :: 0 <= i < |remote| ==> remote[i].number == i && Genuine(w, remote[i]))
    && (forall i, j :: 0 <= i < |remote| && 0 <= j < |remote| && j == i + 1 ==> remote[j].parentHash == remote[i].hash)
  }

  /** Stored rows at exactly the heights lo..hi (none when hi < lo), each naming the row below as its parent. */
  ghost predicate ChainRows(w: World, rows: map<nat, Block>, lo: nat, hi: nat)
  {
    && (forall k :: k in rows <==> lo <= k <= hi)
    && (forall k :: k in rows ==> rows[k].number == k && Genuine(w, rows[k]))
    && (forall j, k :: j in rows && k in rows && k == j + 1 ==> rows[k].parentHash == rows[j].hash)
  }

  /** The stored row at `k` is the remote block at `k`. */
  predicate Agrees(rows: map<nat, Block>, remote: seq<Block>, k: nat)
  {
    k in rows && k < |remote| && rows[k].hash == remote[k].hash
  }

  /** Agreement at a height carries down to every stored height below it. */
  lemma {:induction false} AgreementCarriesDown(
    w: World, rows: map<nat, Block>, lo: nat, hi: nat, remote: seq<Block>, k: nat, j: nat)
    requires ChainRows(w, rows, lo, hi) && RemoteChain(w, remote)
    requires lo <= j <= k && Agrees(rows, remote, k)
    ensures Agrees(rows, remote, j) && rows[j] == remote[j]
    decreases k
  {
    assert rows[k] == remote[k];
    if j < k {
      assert rows[k].parentHash == rows[k - 1].hash && remote[k].parentHash == remote[k - 1].hash;
      AgreementCarriesDown(w, rows, lo, hi, remote, k - 1, j);
    }
  }
}
