/** Concrete chains, forks and blocks on which the documented promises fail. */
module Witnesses {
  import opened Domain
  import opened Chain
  import opened Store
  import opened Reorg
  import opened Committer
  import opened Ingest
  import opened Outcomes
  import opened Growth
  import opened Projections
  import LostAcks
  import BlockDecoder
  import Transfers
  import Events

  // ----- two chains that part above a height -----

  function HashOf(x: nat): B256
  {
    Transfers.ToBytes(x, 32)
  }

  lemma {:induction false} ZeroBytes(len: nat)
    ensures Transfers.ToBytes(0, len) == seq(len, _ => 0 as byte)
  {
    if len > 0 {
      ZeroBytes(len - 1);
    }
  }

  lemma {:induction false} HashesDistinct(x: nat, y: nat)
    requires x < Transfers.WORD_LIMIT && y < Transfers.WORD_LIMIT
    ensures HashOf(x) == HashOf(y) <==> x == y
    ensures x > 0 ==> HashOf(x) != ZERO_HASH
  {
    Transfers.WordRoundTrip(x);
    Transfers.WordRoundTrip(y);
    Transfers.WordRoundTrip(0);
    ZeroBytes(32);
  }

  /** Chain 0 and chain 1 have the same blocks up to height `g`. */
  function Id(g: nat, chain: bool, n: nat): nat
  {
    2 * (n + 1) + if n > g && chain then 1 else 0
  }

  function BlockAt(g: nat, chain: bool, n: nat): Block
  {
    Block(n, HashOf(Id(g, chain, n)), if n == 0 then ZERO_HASH else HashOf(Id(g, chain, n - 1)),
          0, ZERO_HASH[..20], 0, 0, None, 0)
  }

  function WorldTo(g: nat, count: nat): World
  {
    if count == 0 then map[] else
    var below := WorldTo(g, count - 1);
    var b, b' := BlockAt(g, false, count - 1), BlockAt(g, true, count - 1);
    below[b.hash := b][b'.hash := b']
  }

  /** Heights for which all block numbers of the two chains fit a hash. */
  const HEIGHTS: nat := U64_LIMIT

  lemma {:induction false} InWorld(g: nat, count: nat, chain: bool, n: nat)
    requires n < count <= HEIGHTS
    ensures var b := BlockAt(g, chain, n); b.hash in WorldTo(g, count) && WorldTo(g, count)[b.hash] == b
  {
    HashesDistinct(Id(g, chain, n), Id(g, false, count - 1));
    HashesDistinct(Id(g, chain, n), Id(g, true, count - 1));
    if n < count - 1 {
      InWorld(g, count - 1, chain, n);
    }
  }

  lemma {:induction false} IsGenuine(g: nat, count: nat, chain: bool, n: nat)
    requires n < count <= HEIGHTS
    ensures Genuine(WorldTo(g, count), BlockAt(g, chain, n))
  {
    InWorld(g, count, chain, n);
    HashesDistinct(Id(g, chain, n), 0);
    if n > 0 {
      InWorld(g, count, chain, n - 1);
      HashesDistinct(Id(g, chain, n - 1), 0);
    }
  }

  /** The headers of one of the two chains. */
  function ChainTo(g: nat, chain: bool, count: nat): (hs: seq<Block>)
    ensures |hs| == count && forall i :: 0 <= i < count ==> hs[i] == BlockAt(g, chain, i)
  {
    seq(count, i requires 0 <= i => BlockAt(g, chain, i))
  }

  lemma {:induction false} IsRemoteChain(g: nat, chain: bool, count: nat)
    requires count <= HEIGHTS
    ensures RemoteChain(WorldTo(g, count), ChainTo(g, chain, count))
  {
    forall i | 0 <= i < count ensures Genuine(WorldTo(g, count), BlockAt(g, chain, i)) {
      IsGenuine(g, count, chain, i);
    }
  }

  function NodesTo(g: nat, chain: bool, count: nat): (ns: seq<Node>)
    ensures |ns| == count
    ensures forall i :: 0 <= i < count ==>
              ns[i] == Node(BlockAt(g, chain, i), IndexedBlock(BlockAt(g, chain, i), [], [], []))
  {
    seq(count, i requires 0 <= i => Node(BlockAt(g, chain, i), IndexedBlock(BlockAt(g, chain, i), [], [], [])))
  }

  function EnvTo(g: nat, count: nat): Env
  {
    Env(WorldTo(g, count), BlockAt(g, false, 0), BlockAt(g, false, 1))
  }

  /** Both chains are stable remotes of one environment. */
  lemma {:induction false} IsStableRemote(g: nat, chain: bool, count: nat)
    requires 1 <= g && 2 <= count <= HEIGHTS
    ensures ValidEnv(EnvTo(g, count)) && StableRemote(EnvTo(g, count), NodesTo(g, chain, count))
  {
    IsGenuine(g, count, false, 0);
    IsGenuine(g, count, false, 1);
    IsRemoteChain(g, chain, count);
    assert Headers(NodesTo(g, chain, count)) == ChainTo(g, chain, count);
  }

  // ----- a stalled run -----

  /** Under every such configuration some run stalls for good, and the repository's checker reports it. */
  lemma {:induction false} SomeRunStalls(cfg: Config) returns (env: Env, run: seq<Sys>)
    requires cfg.backfillFrom <= 1 && cfg.queueDepth >= 2 && 1 <= cfg.maxDepth < HEIGHTS - 5
    ensures ValidEnv(env) && IsRun(env, cfg, run) && StalledAt(run[|run| - 1].db, cfg.maxDepth)
    ensures CheckerReports(run[|run| - 1].db)
  {
    var count := cfg.maxDepth + 5;
    env := EnvTo(1, count);
    IsStableRemote(1, false, count);
    run := StallWithinReach(env, cfg, NodesTo(1, false, count));
    CheckerIsExact(env, cfg, run, |run| - 1);
  }

  // ----- a fork on which the two walks differ -----

  function RowsTo(g: nat, c: nat): map<nat, Block>
  {
    map k: nat | k <= c :: BlockAt(g, false, k)
  }

  lemma {:induction false} GenuineRowsAreChain(w: World, g: nat, c: nat)
    requires forall k: nat :: k <= c ==> Genuine(w, BlockAt(g, false, k))
    ensures ChainRows(w, RowsTo(g, c), 0, c)
  {
  }

  lemma {:induction false} RowsAreChain(g: nat, c: nat, count: nat)
    requires c < count <= HEIGHTS
    ensures ChainRows(WorldTo(g, count), RowsTo(g, c), 0, c)
  {
    forall k: nat | k <= c ensures Genuine(WorldTo(g, count), BlockAt(g, false, k)) {
      IsGenuine(g, count, false, k);
    }
    GenuineRowsAreChain(WorldTo(g, count), g, c);
  }

  lemma {:induction false} ForkAt(g: nat, c: nat, count: nat)
    requires g < c < count <= HEIGHTS
    ensures CommonAncestor(RowsTo(g, c), ChainTo(g, true, count), g)
  {
    forall k: nat | g < k <= c ensures BlockAt(g, false, k).hash != BlockAt(g, true, k).hash {
      HashesDistinct(Id(g, false, k), Id(g, true, k));
    }
  }

  lemma {:induction false} WalksDifferIn(
    w: World, g: nat, c: nat, rows: map<nat, Block>, remote: seq<Block>, maxDepth: nat, stored: Bytes)
    requires ChainRows(w, rows, 0, c) && RemoteChain(w, remote) && c < |remote| && CommonAncestor(rows, remote, g)
    requires 0 < g < c && c - g <= maxDepth && (stored == rows[c].hash || stored == ZERO_HASH)
    ensures Walk(StableWalk(remote, c), stored, c, maxDepth, 0) != DocumentedWalk(rows, remote, c, maxDepth, 0)
  {
    WalkAgreesWithDocumentation(w, rows, 0, c, remote, g, stored, c, maxDepth);
  }

  /** Stored rows up to `c` and a remote that parts from them above `g`. */
  lemma {:induction false} ForkedChains(g: nat, c: nat) returns (w: World, rows: map<nat, Block>, remote: seq<Block>)
    requires g < c < HEIGHTS - 1
    ensures ChainRows(w, rows, 0, c) && RemoteChain(w, remote) && c < |remote| && CommonAncestor(rows, remote, g)
  {
    w, rows, remote := WorldTo(g, c + 1), RowsTo(g, c), ChainTo(g, true, c + 1);
    RowsAreChain(g, c, c + 1);
    IsRemoteChain(g, true, c + 1);
    ForkAt(g, c, c + 1);
  }

  /**
   * For every fork height above genesis and every stored height within the depth of it there are rows
   * and a remote on which the code's walk and the documented one differ, from an intact cursor and from
   * a zeroed one.
   */
  lemma {:induction false} WalksDiffer(g: nat, c: nat, maxDepth: nat)
    returns (w: World, rows: map<nat, Block>, remote: seq<Block>)
    requires 0 < g < c < HEIGHTS - 1 && c - g <= maxDepth
    ensures ChainRows(w, rows, 0, c) && RemoteChain(w, remote) && c < |remote| && CommonAncestor(rows, remote, g)
    ensures Walk(StableWalk(remote, c), rows[c].hash, c, maxDepth, 0) != DocumentedWalk(rows, remote, c, maxDepth, 0)
    ensures Walk(StableWalk(remote, c), ZERO_HASH, c, maxDepth, 0) != DocumentedWalk(rows, remote, c, maxDepth, 0)
  {
    w, rows, remote := ForkedChains(g, c);
    WalksDifferIn(w, g, c, rows, remote, maxDepth, rows[c].hash);
    WalksDifferIn(w, g, c, rows, remote, maxDepth, ZERO_HASH);
  }

  // ----- a lost acknowledgement joins two forks -----

  ghost predicate LossyReachable(env: Env, cfg: Config, s: Sys)
  {
    exists run :: LostAcks.IsLossyRun(env, cfg, run) && run[|run| - 1] == s
  }

  lemma {:induction false} LossyNext(env: Env, cfg: Config, s: Sys, s': Sys)
    requires LossyReachable(env, cfg, s) && LostAcks.LossyStep(env, cfg, s, s')
    ensures LossyReachable(env, cfg, s')
  {
    var run :| LostAcks.IsLossyRun(env, cfg, run) && run[|run| - 1] == s;
    var longer := run + [s'];
    forall i: nat ensures LostAcks.LossyStepAt(env, cfg, longer, i) {
      if i + 1 < |run| {
        assert LostAcks.LossyStepAt(env, cfg, run, i);
        assert longer[i] == run[i] && longer[i + 1] == run[i + 1];
      } else if i + 1 == |run| {
        assert longer[i] == s && longer[i + 1] == s';
      }
    }
    assert LostAcks.IsLossyRun(env, cfg, longer) && longer[|longer| - 1] == s';
  }

  /** Lossy steps do not leave the set either. */
  ghost predicate LossyCloses(p: Play)
  {
    forall s, s' {:trigger LostAcks.LossyStep(p.env, p.cfg, s, s')} ::
      p.reach(s) && LostAcks.LossyStep(p.env, p.cfg, s, s') ==> p.reach(s')
  }

  ghost function LossyRuns(env: Env, cfg: Config, remote: seq<Node>): Play
  {
    Play(env, cfg, remote, false, (s: Sys) => LossyReachable(env, cfg, s),
         (db: Tables, c: nat) => IntactAt(env, db, remote, c))
  }

  lemma {:induction false} LossyRunsAreFair(env: Env, cfg: Config, remote: seq<Node>)
    requires ValidEnv(env) && StableRemote(env, remote) && cfg.queueDepth >= 1 && cfg.backfillFrom <= 1
    ensures Fair(LossyRuns(env, cfg, remote)) && LossyCloses(LossyRuns(env, cfg, remote))
  {
    assert LostAcks.IsLossyRun(env, cfg, [INITIAL]);
    assert LossyReachable(env, cfg, INITIAL);
    forall s, s' | LossyReachable(env, cfg, s) && LostAcks.LossyStep(env, cfg, s, s')
      ensures LossyReachable(env, cfg, s')
    {
      LossyNext(env, cfg, s, s');
    }
    forall s, s' | StepOn(env, cfg, remote, false, s, s') ensures LostAcks.LossyStep(env, cfg, s, s') {
    }
  }

  lemma {:induction false} StoredUnnoticed(
    env: Env, cfg: Config, remote: seq<Node>, db: Tables, m: nat, n: nat, last: nat, db': Tables)
    requires StableRemote(env, remote) && n <= last && n < |remote|
    requires Attempt(db, n, StableAnswer(remote, n), cfg.maxDepth) == (db', Verdict.Stored)
    ensures LostAcks.LossyStep(env, cfg, Sys(db, Draining(m, n, last)), Sys(db', Draining(m, n + 1, last)))
  {
    StableAnswerHonest(env, remote, n);
    var s, s' := Sys(db, Draining(m, n, last)), Sys(db', Draining(m, n + 1, last));
    assert LostAcks.LostAck(env, cfg, s, s', StableAnswer(remote, n));
  }

  lemma {:induction false} ReachLostAck(p: Play, db: Tables, m: nat, n: nat, last: nat, db': Tables)
    requires Fair(p) && p.reach(Sys(db, Draining(m, n, last))) && n <= last && n < |p.remote|
    requires LossyCloses(p)
    requires Attempt(db, n, StableAnswer(p.remote, n), p.cfg.maxDepth) == (db', Verdict.Stored)
    ensures p.reach(Sys(db', Draining(m, n + 1, last)))
  {
    StoredUnnoticed(p.env, p.cfg, p.remote, db, m, n, last, db');
  }

  /** Height 2 is stored unnoticed, and the next batch begins at height 1. */
  lemma {:induction false} ReachHidden(p: Play) returns (db: Tables)
    requires Fair(p) && LossyCloses(p) && |p.remote| >= 3 && p.cfg.queueDepth >= 2
    ensures p.reach(Sys(db, Draining(1, 1, 3))) && DbInv(p.env, db)
    ensures db.cursor.At? && 1 in db.blocks && 2 in db.blocks && db.blocks[2] == p.remote[2].header
    ensures forall k :: k in db.blocks ==> k <= 2
  {
    var one := ReachOne(p);
    assert IntactAt(p.env, one, p.remote, 1);
    ReachBatch(p, one, 1, 2);
    one := ReachLow(p, one, 1, 1, 2);
    assert IntactAt(p.env, one, p.remote, 1);
    StableAnswerHonest(p.env, p.remote, 2);
    ChildIsStored(p.env, one, p.remote, 1, StableAnswer(p.remote, 2), p.cfg.maxDepth);
    db := Commit(one, p.remote[2].decoded);
    ReachLostAck(p, one, 1, 2, 2, db);
    ReachEnd(p, db, 1, 3, 2);
    ReachBatch(p, db, 1, 3);
  }

  /** Whatever the rows, a block that passes detection and does not clash is stored. */
  lemma {:induction false} AdmittedIsStored(env: Env, db: Tables, fork: seq<Node>, n: nat, maxDepth: nat)
    requires StableRemote(env, fork) && 1 <= n < |fork| && db.cursor.At?
    requires n == 1 || db.cursor.hash == fork[n - 1].header.hash
    requires Acceptable(db, fork[n].decoded)
    ensures Attempt(db, n, StableAnswer(fork, n), maxDepth) == (Commit(db, fork[n].decoded), Verdict.Stored)
  {
    assert Headers(fork)[n].parentHash == Headers(fork)[n - 1].hash;
  }

  lemma {:induction false} FreshHash(env: Env, rows: map<nat, Block>, fork: seq<Node>, n: nat)
    requires StableRemote(env, fork) && n < |fork| && n !in rows
    requires forall k :: k in rows ==> rows[k].number == k && Genuine(env.world, rows[k])
    ensures HashFree(rows, fork[n].header.hash)
  {
    assert Headers(fork)[n] == fork[n].header;
  }

  /** From such a state the fork's block at height 2 moves the cursor and leaves the hidden row. */
  lemma {:induction false} ForkBelowHidden(p: Play, db: Tables) returns (second: Tables)
    requires Fair(p) && |p.remote| >= 4 && p.reach(Sys(db, Draining(1, 1, 3)))
    requires db.cursor.At? && 1 in db.blocks && 2 in db.blocks
    ensures p.reach(Sys(second, Draining(2, 3, 3)))
    ensures second.blocks == db.blocks && second.cursor == At(2, p.remote[2].header.hash)
  {
    var first := Commit(db, p.remote[1].decoded);
    AdmittedIsStored(p.env, db, p.remote, 1, p.cfg.maxDepth);
    ReachStored(p, db, 1, 1, 3, first);
    second := Commit(first, p.remote[2].decoded);
    AdmittedIsStored(p.env, first, p.remote, 2, p.cfg.maxDepth);
    ReachStored(p, first, 1, 2, 3, second);
  }

  /** And its block at height 3 is stored on top of a row that is not its parent. */
  lemma {:induction false} ForkAroundHidden(p: Play, db: Tables) returns (s: Sys)
    requires Fair(p) && |p.remote| >= 4 && p.reach(Sys(db, Draining(1, 1, 3))) && DbInv(p.env, db)
    requires db.cursor.At? && 1 in db.blocks && 2 in db.blocks && forall k :: k in db.blocks ==> k <= 2
    ensures p.reach(s) && 2 in s.db.blocks && s.db.blocks[2] == db.blocks[2]
    ensures 3 in s.db.blocks && s.db.blocks[3] == p.remote[3].header
  {
    var second := ForkBelowHidden(p, db);
    var third := Commit(second, p.remote[3].decoded);
    FreshHash(p.env, second.blocks, p.remote, 3);
    AdmittedIsStored(p.env, second, p.remote, 3, p.cfg.maxDepth);
    ReachStored(p, second, 2, 3, 3, third);
    s := Sys(third, Draining(3, 4, 3));
  }

  /** One lost acknowledgement and one fork leave rows of two chains on top of each other. */
  lemma {:induction false} LostAckJoinsForks(cfg: Config) returns (env: Env, run: seq<Sys>)
    requires cfg.backfillFrom <= 1 && cfg.queueDepth >= 2
    ensures ValidEnv(env) && LostAcks.IsLossyRun(env, cfg, run) && ReportsParentMismatch(run[|run| - 1].db)
  {
    var here, there := NodesTo(1, false, 4), NodesTo(1, true, 4);
    env := EnvTo(1, 4);
    IsStableRemote(1, false, 4);
    IsStableRemote(1, true, 4);
    var p, q := LossyRuns(env, cfg, here), LossyRuns(env, cfg, there);
    LossyRunsAreFair(env, cfg, here);
    LossyRunsAreFair(env, cfg, there);
    var db := ReachHidden(p);
    assert q.reach(Sys(db, Draining(1, 1, 3)));
    var s := ForkAroundHidden(q, db);
    HashesDistinct(Id(1, false, 2), Id(1, true, 2));
    assert LossyReachable(env, cfg, s);
    run :| LostAcks.IsLossyRun(env, cfg, run) && run[|run| - 1] == s;
  }

  // ----- a surplus in the address index -----

  /** One transaction, committed and rolled back, leaves its entries behind. */
  lemma {:induction false} OneTransactionLeavesSurplus(block: Block, tx: Transaction, ev: ReorgEvent)
    requires tx.blockNumber == block.number && tx.txIndex == 0 && block.number > ev.commonAncestor
    ensures var r := RolledBack(CommitAll(EMPTY, [IndexedBlock(block, [tx], [], [])]), ev);
      && r.blocks == map[] && r.transactions == map[]
      && exists k :: k in r.addressIndex && r.addressIndex[k] !in r.transactions
  {
    var ib := IndexedBlock(block, [tx], [], []);
    assert [ib][..0] == [];
    assert AllTransactions([ib]) == [tx];
    RollbackUndoesCommits(EMPTY, [ib], ev);
    CommitsAsRows(EMPTY, [ib]);
    assert TxRows([tx])[..0] == [];
    assert tx.hash in CommitAll(EMPTY, [ib]).transactions;
    SurplusIff([ib], ev);
  }

  // ----- a transfer that is decoded and not stored -----

  /** A block with one transaction that emits one batch event. */
  function BatchBlock(number: nat, tx: TransactionResponse): BlockResponse
  {
    BlockResponse(number, HashOf(1), HashOf(0), 0, ZERO_HASH[..20], 0, 0, None, [tx])
  }

  function BatchReceipt(tx: TransactionResponse, event: LogResponse): ReceiptResponse
  {
    ReceiptResponse(tx.hash, 0, None, None, [event], None)
  }

  lemma {:induction false} SingleLogBlock(
    b: BlockResponse, r: ReceiptResponse, event: LogResponse, ts: seq<TokenTransfer>)
    requires |b.transactions| == 1 && r.transactionHash == b.transactions[0].hash
    requires r.logs == [event] && event.logIndex == 0
    requires Transfers.DecodeLog(BlockDecoder.LogOf(b.number, event)) == Ok(ts)
    ensures BlockDecoder.BlockOf(b, [r]).Ok?
    ensures var ib := BlockDecoder.BlockOf(b, [r]).value;
      ib.block.number == b.number && ib.logs == [BlockDecoder.LogOf(b.number, event)] && ib.tokenTransfers == ts
  {
    var raws := BlockDecoder.FlatLogs([r]);
    assert [r][..0] == [];
    assert raws == BlockDecoder.FlatLogs([]) + r.logs;
    assert raws == [event];
    BlockDecoder.TransactionsDecode(b, [r], 1);
    BlockDecoder.LogsDecode(b.number, raws, 1);
    var logs := BlockDecoder.LogsUpTo(b.number, raws, 1).value;
    assert logs == [BlockDecoder.LogOf(b.number, event)];
    assert logs[..0] == [];
    assert Transfers.TransfersOf(logs) == Ok([] + ts);
  }

  /** Storing a block whose transfers all come from its first log keeps the first and drops the rest. */
  lemma {:induction false} FirstAlone(ib: IndexedBlock)
    requires ib.tokenTransfers != []
    requires forall i :: 0 <= i < |ib.tokenTransfers| ==>
               ib.tokenTransfers[i].blockNumber == ib.block.number && ib.tokenTransfers[i].logIndex == 0
    ensures Commit(EMPTY, ib).transfers == map[(ib.block.number, 0) := ib.tokenTransfers[0]]
  {
    PutLogTransfers(map[], (ib.block.number, 0), ib.tokenTransfers);
  }

  /** Every batch event of two or more items, alone in its block, is decoded whole and stored but for one transfer. */
  lemma {:induction false} BatchLosesTransfers(
    number: nat, tx: TransactionResponse, site: Events.Site, operator: Address, from: Address, to: Address,
    ids: seq<nat>, values: seq<nat>) returns (ib: IndexedBlock)
    requires site.logIndex == 0 && 2 <= |ids| == |values| <= Transfers.MAX_TRANSFERS
    requires forall i :: 0 <= i < |ids| ==> ids[i] < Transfers.WORD_LIMIT && values[i] < Transfers.WORD_LIMIT
    ensures var event := Events.Erc1155BatchEvent(site, operator, from, to, ids, values);
      BlockDecoder.BlockOf(BatchBlock(number, tx), [BatchReceipt(tx, event)]) == Ok(ib)
    ensures |ib.tokenTransfers| == |ids|
    ensures Commit(EMPTY, ib).transfers == map[(number, 0) := ib.tokenTransfers[0]]
  {
    var event := Events.Erc1155BatchEvent(site, operator, from, to, ids, values);
    Events.Erc1155BatchRoundTrip(number, site, operator, from, to, ids, values);
    var ts := Transfers.DecodeLog(BlockDecoder.LogOf(number, event)).value;
    var b, r := BatchBlock(number, tx), BatchReceipt(tx, event);
    SingleLogBlock(b, r, event, ts);
    ib := BlockDecoder.BlockOf(b, [r]).value;
    FirstAlone(ib);
  }
}
