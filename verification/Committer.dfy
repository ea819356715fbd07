/** The single committer: detect, then roll back or commit; and the loop that feeds it one batch. */
module Committer {
  import opened Domain
  import opened Store
  import opened Reorg
  import BlockDecoder

  /** Receipts come in one call per block, or one call per transaction. */
  datatype ReceiptAnswers =
    | PerBlock(all: Option<seq<ReceiptResponse>>)
    | PerTransaction(each: seq<Option<ReceiptResponse>>)

  /**
   * Everything the outside world answers during one attempt: the block, the ancestor walk, the
   * receipts, and how many database round trips get through. A missing answer is a failed call.
   */
  datatype Answers = Answers(
    block: Option<BlockResponse>, walk: seq<Option<Block>>, receipts: ReceiptAnswers, budget: nat)

  /** What the protocol sees of the answers: the header, the walk, and the decoded block if its receipts arrived. */
  datatype Digest = Digest(
    header: Option<Block>, walk: seq<Option<Block>>, decoded: Option<Decoded<IndexedBlock>>, budget: nat)

  datatype Verdict = Stored | Rewound | Refused | Panicked

  // ----- receipts and orphaned hashes -----

  function Receipts(r: ReceiptAnswers, count: nat): Option<seq<ReceiptResponse>>
  {
    match r
    case PerBlock(all) => all
    case PerTransaction(each) =>
      if |each| >= count && forall i :: 0 <= i < count ==> each[i].Some?
      then Some(seq(count, i requires 0 <= i < count && i < |each| && each[i].Some? => each[i].value))
      else None
  }

  method FetchReceipts(r: ReceiptAnswers, count: nat) returns (out: Option<seq<ReceiptResponse>>)
    ensures out == Receipts(r, count)
    ensures r.PerBlock? ==> out == r.all
    ensures r.PerTransaction? ==> (out.Some? <==> |r.each| >= count && forall i :: 0 <= i < count ==> r.each[i].Some?)
    ensures r.PerTransaction? && out.Some? ==>
              |out.value| == count && forall i :: 0 <= i < count ==> r.each[i] == Some(out.value[i])
  {
    match r
    case PerBlock(all) => return all;
    case PerTransaction(each) =>
      var receipts := [];
      for i := 0 to count
        invariant |receipts| == i <= |each|
        invariant forall k :: 0 <= k < i ==> each[k] == Some(receipts[k])
      {
        if i >= |each| || each[i].None? { return None; }
        receipts := receipts + [each[i].value];
      }
      assert receipts == Receipts(r, count).value;
      out := Some(receipts);
  }

  function OrphanedHashes(from: nat, to: nat): (hashes: seq<Bytes>)
    requires from <= to
    ensures |hashes| == to - from + 1 && forall i :: 0 <= i < |hashes| ==> hashes[i] == ZERO_HASH
  {
    seq(to - from + 1, _ => ZERO_HASH)
  }

  method CollectOrphanedHashes(from: nat, to: nat) returns (hashes: seq<Bytes>)
    requires from <= to
    ensures hashes == OrphanedHashes(from, to)
  {
    hashes := [];
    for i := from to to + 1
      invariant |hashes| == i - from
      invariant forall k :: 0 <= k < |hashes| ==> hashes[k] == ZERO_HASH
    {
      hashes := hashes + [ZERO_HASH];
    }
  }

  function EventFor(ancestor: nat, n: nat): ReorgEvent
    requires ancestor <= n
  {
    ReorgEvent(ancestor, n - ancestor, ancestor + 1, n, OrphanedHashes(ancestor, n))
  }

  /** Every rollback leaves the zero hash in the cursor. */
  lemma {:induction false} EventWritesZeroHash(ancestor: nat, n: nat)
    requires ancestor <= n
    ensures AncestorHash(EventFor(ancestor, n)) == ZERO_HASH
  {
  }

  // ----- one attempt -----

  function Digested(a: Answers): Digest
  {
    match a.block
    case None => Digest(None, a.walk, None, a.budget)
    case Some(b) => Digest(Some(BlockDecoder.HeaderOf(b)), a.walk, DecodedAnswer(b, a.receipts), a.budget)
  }

  function DecodedAnswer(b: BlockResponse, r: ReceiptAnswers): Option<Decoded<IndexedBlock>>
  {
    match Receipts(r, |b.transactions|)
    case None => None
    case Some(rs) => Some(BlockDecoder.BlockOf(b, rs))
  }

  function Digests(answers: seq<Answers>): (gs: seq<Digest>)
    ensures |gs| == |answers|
    ensures forall i :: 0 <= i < |gs| ==> gs[i] == Digested(answers[i])
  {
    seq(|answers|, i requires 0 <= i < |answers| => Digested(answers[i]))
  }

  /** The effect of one `commit_block` call on the durable tables, and how it reports back. */
  function Attempt(db: Tables, n: nat, g: Digest, maxDepth: nat): (Tables, Verdict)
  {
    if g.header.None? then (db, Refused) else
    match Detected(g.walk, db.cursor, n, g.header.value.parentHash, maxDepth)
    case Failed(_) => (db, Refused)
    case Found(None) => if g.decoded.None? then (db, Refused) else Persist(db, g.decoded.value, g.budget)
    case Found(Some(ancestor)) =>
      AncestorBelow(g.walk, db.cursor, n, g.header.value.parentHash, maxDepth);
      if g.budget <= |RollbackScript(EventFor(ancestor, n))| then (db, Refused)
      else (RolledBack(db, EventFor(ancestor, n)), Rewound)
  }

  function Persist(db: Tables, decoded: Decoded<IndexedBlock>, budget: nat): (Tables, Verdict)
  {
    match decoded
    case Err(_) => (db, Refused)
    case Panic => (db, Panicked)
    case Ok(ib) =>
      if budget > |CommitScript(ib)| && Acceptable(db, ib) then (Commit(db, ib), Stored) else (db, Refused)
  }

  lemma {:induction false} AncestorBelow(
    walk: seq<Option<Block>>, cursor: Cursor, n: nat, parentHash: B256, maxDepth: nat)
    ensures var r := Detected(walk, cursor, n, parentHash, maxDepth);
      r.Found? && r.value.Some? ==> r.value.value < n
  {
    if n > 0 {
      WalkOutcomes(walk, CursorHash(cursor), n - 1, maxDepth, 0);
    }
  }

  lemma {:induction false} AttemptRewinds(db: Tables, n: nat, g: Digest, maxDepth: nat, ancestor: nat)
    requires g.header.Some? && ancestor <= n && g.budget > 3
    requires Detected(g.walk, db.cursor, n, g.header.value.parentHash, maxDepth) == Found(Some(ancestor))
    ensures Attempt(db, n, g, maxDepth) == (RolledBack(db, EventFor(ancestor, n)), Rewound)
  {
  }

  // ----- one batch -----

  datatype Config = Config(backfillFrom: nat, maxDepth: nat, queueDepth: nat)

  /** Draining goes on, was cut short by a rollback, or the process died. */
  datatype Progress = Running | Rewinding | Crashed

  datatype Drained = Drained(db: Tables, cursor: nat, stored: nat, progress: Progress)

  /** The in-memory cursor as read back from the store, or one below the configured first block. */
  function MemoryCursor(db: Tables, backfillFrom: nat): nat
  {
    if db.cursor.At? then db.cursor.number else if backfillFrom == 0 then 0 else backfillFrom - 1
  }

  /** How the batch loop reacts to the verdict on height `n`: a refusal moves on, a rollback ends the batch. */
  function Advance(d: Drained, n: nat, outcome: (Tables, Verdict), backfillFrom: nat): Drained
  {
    match outcome.1
    case Stored => Drained(outcome.0, n, d.stored + 1, Running)
    case Refused => d.(db := outcome.0)
    case Rewound => Drained(outcome.0, MemoryCursor(outcome.0, backfillFrom), d.stored, Rewinding)
    case Panicked => d.(db := outcome.0, progress := Crashed)
  }

  /** Feeding the committer the heights first + i, first + i + 1, ..., one digest each. */
  function Drain(d: Drained, first: nat, gs: seq<Digest>, i: nat, cfg: Config): Drained
    requires i <= |gs|
    decreases |gs| - i
  {
    if i == |gs| || d.progress != Running then d
    else Drain(Advance(d, first + i, Attempt(d.db, first + i, gs[i], cfg.maxDepth), cfg.backfillFrom),
               first, gs, i + 1, cfg)
  }

  lemma {:induction false} DrainOne(
    d: Drained, first: nat, gs: seq<Digest>, i: nat, cfg: Config, outcome: (Tables, Verdict))
    requires i < |gs| && d.progress == Running
    requires Attempt(d.db, first + i, gs[i], cfg.maxDepth) == outcome
    ensures Drain(d, first, gs, i, cfg)
         == Drain(Advance(d, first + i, outcome, cfg.backfillFrom), first, gs, i + 1, cfg)
  {
  }

  /** A panic or a rollback at one height ends the batch there: the later heights are not attempted. */
  lemma {:induction false} BatchStops(d: Drained, first: nat, gs: seq<Digest>, i: nat, cfg: Config)
    requires i < |gs| && d.progress == Running
    ensures var (db', v) := Attempt(d.db, first + i, gs[i], cfg.maxDepth);
      && (v == Panicked ==> Drain(d, first, gs, i, cfg) == Drained(db', d.cursor, d.stored, Crashed))
      && (v == Rewound ==>
            Drain(d, first, gs, i, cfg) == Drained(db', MemoryCursor(db', cfg.backfillFrom), d.stored, Rewinding))
  {
  }

  class Indexer {
    const store: PostgresStore
    const cfg: Config
    var cursor: nat
    var blocksIndexed: nat

    constructor (store: PostgresStore, cfg: Config)
      ensures this.store == store && this.cfg == cfg
      ensures cursor == MemoryCursor(store.db, cfg.backfillFrom) && blocksIndexed == 0
    {
      this.store := store;
      this.cfg := cfg;
      cursor := MemoryCursor(store.db, cfg.backfillFrom);
      blocksIndexed := 0;
    }

    method CommitBlock(n: nat, a: Answers) returns (v: Verdict)
      modifies store
      ensures (store.db, v) == Attempt(old(store.db), n, Digested(a), cfg.maxDepth)
    {
      if a.block.None? { return Refused; }
      var b := a.block.value;
      var found := Detect(a.walk, store.db.cursor, n, b.parentHash, cfg.maxDepth);
      AncestorBelow(a.walk, store.db.cursor, n, b.parentHash, cfg.maxDepth);
      if found.Failed? { return Refused; }
      if found.value.Some? {
        var ancestor := found.value.value;
        var hashes := CollectOrphanedHashes(ancestor, n);
        var done := store.Rollback(ReorgEvent(ancestor, n - ancestor, ancestor + 1, n, hashes), a.budget);
        return if done then Rewound else Refused;
      }
      var receipts := FetchReceipts(a.receipts, |b.transactions|);
      if receipts.None? { return Refused; }
      var decoded := BlockDecoder.DecodeBlock(b, receipts.value);
      if decoded.Panic? { return Panicked; }
      if decoded.Err? { return Refused; }
      BlockDecoder.DecodedWellFormed(b, receipts.value);
      var done := store.CommitBlock(decoded.value, a.budget);
      v := if done then Stored else Refused;
    }

    /** One turn of the batch loop. */
    method Turn(n: nat, a: Answers) returns (progress: Progress)
      modifies this, store
      ensures Drained(store.db, cursor, blocksIndexed, progress)
           == Advance(Drained(old(store.db), old(cursor), old(blocksIndexed), Running), n,
                      Attempt(old(store.db), n, Digested(a), cfg.maxDepth), cfg.backfillFrom)
    {
      var v := CommitBlock(n, a);
      progress := Running;
      match v {
        case Stored =>
          blocksIndexed := blocksIndexed + 1;
          cursor := n;
        case Refused =>
        case Rewound =>
          cursor := MemoryCursor(store.db, cfg.backfillFrom);
          progress := Rewinding;
        case Panicked =>
          progress := Crashed;
      }
    }

    /** The turn for the i-th height of a batch leaves the rest of the batch to do. */
    method TurnAt(first: nat, answers: seq<Answers>, i: nat) returns (progress: Progress)
      requires i < |answers|
      modifies this, store
      ensures Drain(Drained(store.db, cursor, blocksIndexed, progress), first, Digests(answers), i + 1, cfg)
           == Drain(Drained(old(store.db), old(cursor), old(blocksIndexed), Running), first, Digests(answers), i, cfg)
    {
      ghost var d := Drained(store.db, cursor, blocksIndexed, Running);
      DrainOne(d, first, Digests(answers), i, cfg, Attempt(d.db, first + i, Digested(answers[i]), cfg.maxDepth));
      progress := Turn(first + i, answers[i]);
    }

    method DrainBatch(first: nat, answers: seq<Answers>) returns (progress: Progress)
      modifies this, store
      ensures Drained(store.db, cursor, blocksIndexed, progress)
           == Drain(Drained(old(store.db), old(cursor), old(blocksIndexed), Running), first, Digests(answers), 0, cfg)
    {
      ghost var gs := Digests(answers);
      ghost var target := Drain(Drained(store.db, cursor, blocksIndexed, Running), first, gs, 0, cfg);
      progress := Running;
      var i := 0;
      while i < |answers| && progress == Running
        invariant 0 <= i <= |answers|
        invariant target == Drain(Drained(store.db, cursor, blocksIndexed, progress), first, gs, i, cfg)
        decreases |answers| - i
      {
        progress := TurnAt(first, answers, i);
        i := i + 1;
      }
    }
  }
}
