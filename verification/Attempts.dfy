/** Exactly what one commit attempt does with the raw answers of the node and the database. */
module Attempts {
  import opened Domain
  import opened Store
  import opened Reorg
  import opened Committer
  import BlockDecoder
  import LogContents

  // ----- receipts -----

  /** The node's own list, or the answer to the i-th call as receipt i. */
  ghost predicate ReceiptsGiven(r: ReceiptAnswers, count: nat, rs: seq<ReceiptResponse>)
  {
    match r
    case PerBlock(all) => all == Some(rs)
    case PerTransaction(each) => |rs| == count <= |each| && forall i :: 0 <= i < count ==> each[i] == Some(rs[i])
  }

  lemma {:induction false} ReceiptsExact(r: ReceiptAnswers, count: nat, rs: seq<ReceiptResponse>)
    ensures Receipts(r, count) == Some(rs) <==> ReceiptsGiven(r, count, rs)
  {
    if r.PerTransaction? && Receipts(r, count).Some? && ReceiptsGiven(r, count, rs) {
      assert Receipts(r, count).value == rs;
    }
  }

  // ----- detection -----

  /** Heights 0 and 1, or the child of the block whose hash is in the cursor. */
  predicate Passes(cursor: Cursor, n: nat, parentHash: B256)
  {
    n <= 1 || (cursor.At? && cursor.hash == parentHash)
  }

  lemma {:induction false} DetectionExact(
    walk: seq<Option<Block>>, cursor: Cursor, n: nat, parentHash: B256, maxDepth: nat)
    ensures var r := Detected(walk, cursor, n, parentHash, maxDepth);
      && (r == Found(None) <==> Passes(cursor, n, parentHash))
      && (!Passes(cursor, n, parentHash) ==>
            && (forall a: nat :: r == Found(Some(a)) <==> StopsAt(walk, CursorHash(cursor), n - 1, maxDepth, a))
            && (r == Failed(RpcFailed) <==> NodeFails(walk, CursorHash(cursor), n - 1, maxDepth)))
  {
    if n >= 2 {
      WalkExact(walk, CursorHash(cursor), n - 1, maxDepth);
    }
  }

  // ----- the verdict -----

  /** The block came, passes detection, and its receipts came. */
  ghost predicate Admitted(db: Tables, n: nat, a: Answers, b: BlockResponse, rs: seq<ReceiptResponse>)
  {
    a.block == Some(b) && Passes(db.cursor, n, b.parentHash) && ReceiptsGiven(a.receipts, |b.transactions|, rs)
  }

  /** A walk over these answers ends at `ancestor`, and the rollback's round trips get through. */
  ghost predicate Rewinds(db: Tables, n: nat, a: Answers, maxDepth: nat, ancestor: nat)
  {
    && a.block.Some? && !Passes(db.cursor, n, a.block.value.parentHash)
    && StopsAt(a.walk, CursorHash(db.cursor), n - 1, maxDepth, ancestor) && a.budget > 3
  }

  /** A decoded block that the tables accept, with round trips enough for all its statements and the COMMIT. */
  predicate Accepted(db: Tables, ib: IndexedBlock, budget: nat)
  {
    budget > |CommitScript(ib)| && Acceptable(db, ib)
  }

  lemma {:induction false} AdmittedOutcome(
    db: Tables, n: nat, a: Answers, maxDepth: nat, b: BlockResponse, rs: seq<ReceiptResponse>)
    requires Admitted(db, n, a, b, rs)
    ensures Attempt(db, n, Digested(a), maxDepth) == Persist(db, BlockDecoder.BlockOf(b, rs), a.budget)
  {
    DetectionExact(a.walk, db.cursor, n, b.parentHash, maxDepth);
    ReceiptsExact(a.receipts, |b.transactions|, rs);
  }

  lemma {:induction false} RewindOutcome(db: Tables, n: nat, a: Answers, maxDepth: nat, ancestor: nat)
    requires Rewinds(db, n, a, maxDepth, ancestor)
    ensures ancestor < n
    ensures Attempt(db, n, Digested(a), maxDepth) == (RolledBack(db, EventFor(ancestor, n)), Rewound)
  {
    DetectionExact(a.walk, db.cursor, n, a.block.value.parentHash, maxDepth);
    assert Detected(a.walk, db.cursor, n, a.block.value.parentHash, maxDepth) == Found(Some(ancestor));
  }

  /** Only an admitted block or a successful walk makes an attempt do anything. */
  lemma {:induction false} ReasonToAct(db: Tables, n: nat, a: Answers, maxDepth: nat)
    requires Attempt(db, n, Digested(a), maxDepth) != (db, Refused)
    ensures (exists b, rs :: Admitted(db, n, a, b, rs)) || exists ancestor: nat :: Rewinds(db, n, a, maxDepth, ancestor)
  {
    var b := a.block.value;
    DetectionExact(a.walk, db.cursor, n, b.parentHash, maxDepth);
    if Passes(db.cursor, n, b.parentHash) {
      var rs := Receipts(a.receipts, |b.transactions|).value;
      ReceiptsExact(a.receipts, |b.transactions|, rs);
      assert Admitted(db, n, a, b, rs);
    } else {
      var ancestor := Detected(a.walk, db.cursor, n, b.parentHash, maxDepth).value.value;
      assert Rewinds(db, n, a, maxDepth, ancestor);
    }
  }

  /**
   * From raw answers to a stored block, in either receipt mode: an admitted block whose receipts match,
   * whose log indices are contiguous and whose transfer logs are well formed is stored, and the rows that
   * are inserted carry exactly those receipts.
   */
  lemma {:induction false} RawAnswersAreStored(
    db: Tables, n: nat, a: Answers, maxDepth: nat, b: BlockResponse, rs: seq<ReceiptResponse>)
    requires Admitted(db, n, a, b, rs) && BlockDecoder.ReceiptsMatch(b, rs)
    requires |BlockDecoder.FlatLogs(rs)| <= U32_MAX && BlockDecoder.IndicesContiguous(BlockDecoder.FlatLogs(rs))
    requires forall i :: 0 <= i < |BlockDecoder.FlatLogs(rs)| ==>
               BlockDecoder.WellFormedTransferLog(BlockDecoder.FlatLogs(rs)[i])
    ensures BlockDecoder.BlockOf(b, rs).Ok?
    ensures var ib := BlockDecoder.BlockOf(b, rs).value;
      && Attempt(db, n, Digested(a), maxDepth) ==
           (if Accepted(db, ib, a.budget) then (Commit(db, ib), Verdict.Stored) else (db, Refused))
      && BlockDecoder.CarriesHeader(ib.block, b)
      && |ib.transactions| == |rs| == |b.transactions| && |ib.logs| == |BlockDecoder.FlatLogs(rs)|
      && (forall i :: 0 <= i < |rs| ==>
            BlockDecoder.Carries(ib.transactions[i], b.number, i, b.transactions[i], rs[i]))
      && (forall i :: 0 <= i < |ib.logs| ==>
            BlockDecoder.CarriesLog(ib.logs[i], b.number, i, BlockDecoder.FlatLogs(rs)[i]))
  {
    BlockDecoder.DecodeBlockSucceedsIff(b, rs);
    BlockDecoder.DecodedContents(b, rs);
    AdmittedOutcome(db, n, a, maxDepth, b, rs);
  }

  /** An admitted block that decodes is stored if and only if the database accepts it. */
  ghost predicate IsStored(db: Tables, n: nat, a: Answers, b: BlockResponse, rs: seq<ReceiptResponse>)
  {
    && Admitted(db, n, a, b, rs) && BlockDecoder.BlockOf(b, rs).Ok?
    && Accepted(db, BlockDecoder.BlockOf(b, rs).value, a.budget)
  }

  ghost predicate EndsProcess(db: Tables, n: nat, a: Answers, b: BlockResponse, rs: seq<ReceiptResponse>)
  {
    Admitted(db, n, a, b, rs) && BlockDecoder.BlockOf(b, rs).Panic?
  }

  lemma {:induction false} OneReceiptList(
    db: Tables, n: nat, a: Answers, b: BlockResponse, rs: seq<ReceiptResponse>, rs': seq<ReceiptResponse>)
    requires Admitted(db, n, a, b, rs) && ReceiptsGiven(a.receipts, |b.transactions|, rs')
    ensures rs == rs'
  {
    ReceiptsExact(a.receipts, |b.transactions|, rs);
    ReceiptsExact(a.receipts, |b.transactions|, rs');
  }

  /**
   * The four verdicts, each if and only if: a block is stored, the store is rolled back, a panic in the
   * decoder ends the process; everything else, a failed call anywhere included, is refused and leaves
   * the tables as they were.
   */
  lemma {:induction false} VerdictExact(db: Tables, n: nat, a: Answers, maxDepth: nat)
    ensures var (db', v) := Attempt(db, n, Digested(a), maxDepth);
      && (v == Verdict.Stored <==> exists b, rs :: IsStored(db, n, a, b, rs))
      && (v == Panicked <==> exists b, rs :: EndsProcess(db, n, a, b, rs))
      && (v == Rewound <==> exists ancestor: nat :: Rewinds(db, n, a, maxDepth, ancestor))
      && (v == Refused || v == Panicked ==> db' == db)
  {
    if b, rs :| Admitted(db, n, a, b, rs) {
      AdmittedOutcome(db, n, a, maxDepth, b, rs);
      forall b', rs' | Admitted(db, n, a, b', rs') ensures b' == b && rs' == rs {
        OneReceiptList(db, n, a, b, rs, rs');
      }
      var v := Attempt(db, n, Digested(a), maxDepth).1;
      assert v == Verdict.Stored ==> IsStored(db, n, a, b, rs);
      assert v == Panicked ==> EndsProcess(db, n, a, b, rs);
    } else if ancestor: nat :| Rewinds(db, n, a, maxDepth, ancestor) {
      RewindOutcome(db, n, a, maxDepth, ancestor);
    } else if Attempt(db, n, Digested(a), maxDepth) != (db, Refused) {
      ReasonToAct(db, n, a, maxDepth);
    }
  }

  /** A call that fails before the walk has found its ancestor leaves everything as it was. */
  lemma {:induction false} FailedWalkRefuses(db: Tables, n: nat, a: Answers, maxDepth: nat, d: nat)
    requires a.block.Some? && !Passes(db.cursor, n, a.block.value.parentHash)
    requires FailsAt(a.walk, CursorHash(db.cursor), n - 1, maxDepth, d)
    ensures Attempt(db, n, Digested(a), maxDepth) == (db, Refused)
  {
    DetectionExact(a.walk, db.cursor, n, a.block.value.parentHash, maxDepth);
  }

  /** A decoding error, of whatever kind, refuses the block and does not end the process. */
  lemma {:induction false} DecodeErrorRefuses(
    db: Tables, n: nat, a: Answers, maxDepth: nat, b: BlockResponse, rs: seq<ReceiptResponse>)
    requires Admitted(db, n, a, b, rs) && BlockDecoder.BlockOf(b, rs).Err?
    ensures Attempt(db, n, Digested(a), maxDepth) == (db, Refused)
  {
    AdmittedOutcome(db, n, a, maxDepth, b, rs);
  }

  /** So a malformed log refuses its block or ends the process, as the first one that fails decides. */
  lemma {:induction false} FirstBadLogDecides(
    db: Tables, n: nat, a: Answers, maxDepth: nat, b: BlockResponse, rs: seq<ReceiptResponse>, i: nat)
    requires Admitted(db, n, a, b, rs) && BlockDecoder.ReceiptsMatch(b, rs)
    requires |BlockDecoder.FlatLogs(rs)| <= U32_MAX && BlockDecoder.IndicesContiguous(BlockDecoder.FlatLogs(rs))
    requires LogContents.FirstFailure(b.number, BlockDecoder.FlatLogs(rs), i)
    ensures Attempt(db, n, Digested(a), maxDepth) ==
      (db, if LogContents.Fails(b.number, BlockDecoder.FlatLogs(rs)[i]) then Refused else Panicked)
  {
    LogContents.FailureIsReported(b, rs, i);
    AdmittedOutcome(db, n, a, maxDepth, b, rs);
  }

  // ----- where the process starts -----

  /** The first batch starts at the durable cursor, or at the configured first block, whichever is higher. */
  lemma {:induction false} MemoryCursorExact(db: Tables, backfillFrom: nat)
    ensures db.cursor.At? ==> MemoryCursor(db, backfillFrom) == db.cursor.number
    ensures db.cursor == NoCursor ==>
              MemoryCursor(db, backfillFrom) + 1 == (if backfillFrom == 0 then 1 else backfillFrom)
  {
  }
}
