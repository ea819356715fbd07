/**
 * One batch through the concurrent pipeline: dispatcher, shared fetch queue, identical workers,
 * reorder buffer and drain loop, joined by three bounded channels. Every interleaving is a run.
 */
module Pipeline {
  import opened Domain

  /** Heights first .. first + count - 1, three channels of equal capacity, identical workers. */
  datatype Batch = Batch(first: nat, count: nat, capacity: nat, workers: nat)

  predicate ValidBatch(p: Batch)
  {
    p.capacity >= 1 && p.workers >= 1
  }

  /** Waiting on the worker channel; flushing after a receive; flushing once more after the channel closed; done. */
  datatype SequencerState = Waiting | Flushing | FinalFlush | Ended

  datatype MainState = Dispatching | Draining | Joining | Finished

  datatype State = State(
    todo: seq<nat>,
    fetchQueue: seq<nat>,
    idle: nat,
    fetching: multiset<nat>,
    sending: multiset<nat>,
    stopped: nat,
    failed: multiset<nat>,
    workQueue: seq<nat>,
    sequencer: SequencerState,
    buffer: multiset<nat>,
    expected: nat,
    outQueue: seq<nat>,
    consumed: seq<nat>,
    main: MainState)

  function Range(from: nat, to: nat): (r: seq<nat>)
    requires from <= to
    ensures |r| == to - from && forall i :: 0 <= i < |r| ==> r[i] == from + i
  {
    seq(to - from, i requires 0 <= i => from + i)
  }

  function Initial(p: Batch): State
  {
    State(Range(p.first, p.first + p.count), [], p.workers, multiset{}, multiset{}, 0, multiset{}, [],
          Waiting, multiset{}, p.first, [], [], Dispatching)
  }

  // ----- steps -----

  datatype Action =
    | Dispatch | CloseFetch
    | Take | FetchOk(n: nat) | FetchFailed(n: nat) | Send(n: nat) | Stop
    | Receive | CloseWork | Release | FlushDone
    | Consume | DrainDone | Break | Join

  predicate Enabled(p: Batch, s: State, a: Action)
  {
    match a
    case Dispatch => s.main == Dispatching && s.todo != [] && |s.fetchQueue| < p.capacity
    case CloseFetch => s.main == Dispatching && s.todo == []
    case Take => s.idle > 0 && s.fetchQueue != []
    case FetchOk(n) => n in s.fetching
    case FetchFailed(n) => n in s.fetching
    case Send(n) => n in s.sending && |s.workQueue| < p.capacity
    case Stop => s.idle > 0 && s.fetchQueue == [] && s.main != Dispatching
    case Receive => s.sequencer == Waiting && s.workQueue != []
    case CloseWork => s.sequencer == Waiting && s.workQueue == [] && s.stopped == p.workers
    case Release =>
      (s.sequencer == Flushing || s.sequencer == FinalFlush) && s.expected in s.buffer && |s.outQueue| < p.capacity
    case FlushDone => (s.sequencer == Flushing || s.sequencer == FinalFlush) && s.expected !in s.buffer
    case Consume => s.main == Draining && s.outQueue != []
    case DrainDone => s.main == Draining && s.outQueue == [] && s.sequencer == Ended
    case Break => s.main == Draining && s.consumed != []
    case Join => s.main == Joining && s.stopped == p.workers && s.sequencer == Ended
  }

  function Apply(p: Batch, s: State, a: Action): State
    requires Enabled(p, s, a)
  {
    match a
    case Dispatch => s.(todo := s.todo[1..], fetchQueue := s.fetchQueue + [s.todo[0]])
    case CloseFetch => s.(main := Draining)
    case Take =>
      s.(idle := s.idle - 1, fetchQueue := s.fetchQueue[1..], fetching := s.fetching + multiset{s.fetchQueue[0]})
    case FetchOk(n) => s.(fetching := s.fetching - multiset{n}, sending := s.sending + multiset{n})
    case FetchFailed(n) =>
      s.(fetching := s.fetching - multiset{n}, failed := s.failed + multiset{n}, idle := s.idle + 1)
    case Send(n) => s.(sending := s.sending - multiset{n}, workQueue := s.workQueue + [n], idle := s.idle + 1)
    case Stop => s.(idle := s.idle - 1, stopped := s.stopped + 1)
    case Receive =>
      s.(workQueue := s.workQueue[1..], buffer := s.buffer + multiset{s.workQueue[0]}, sequencer := Flushing)
    case CloseWork => s.(sequencer := FinalFlush)
    case Release =>
      s.(buffer := s.buffer - multiset{s.expected}, outQueue := s.outQueue + [s.expected], expected := s.expected + 1)
    case FlushDone => s.(sequencer := if s.sequencer == Flushing then Waiting else Ended)
    case Consume => s.(outQueue := s.outQueue[1..], consumed := s.consumed + [s.outQueue[0]])
    case DrainDone => s.(main := Joining)
    case Break => s.(main := Joining)
    case Join => s.(main := Finished)
  }

  /** No task can move. Breaking off the drain is not a way out: it takes a rollback or a shutdown. */
  ghost predicate Stuck(p: Batch, s: State)
  {
    forall a :: a != Break ==> !Enabled(p, s, a)
  }

  // ----- conservation -----

  /** Where the numbers are: undispatched, queued, held by workers, failed, in a channel, buffered or released. */
  function Places(s: State): multiset<nat>
  {
    multiset(s.todo) + multiset(s.fetchQueue) + s.fetching + s.sending + s.failed +
    multiset(s.workQueue) + s.buffer + multiset(s.outQueue) + multiset(s.consumed)
  }

  lemma {:induction false} SplitHead(q: seq<nat>)
    requires q != []
    ensures multiset(q) == multiset{q[0]} + multiset(q[1..])
  {
    assert q == [q[0]] + q[1..];
  }

  lemma {:induction false} Removed(held: multiset<nat>, m: nat, n: nat)
    requires m in held
    ensures (held - multiset{m})[n] + multiset{m}[n] == held[n]
  {
  }

  predicate TakesFromQueue(a: Action)
  {
    a.Dispatch? || a.Take? || a.Receive? || a.Consume?
  }

  /** Number by number, a step that takes from the head of a list only moves. */
  lemma {:induction false} QueueStepMoves(p: Batch, s: State, a: Action, n: nat)
    requires Enabled(p, s, a) && TakesFromQueue(a)
    ensures Places(Apply(p, s, a))[n] == Places(s)[n]
  {
    match a
    case Dispatch => SplitHead(s.todo);
    case Take => SplitHead(s.fetchQueue);
    case Receive => SplitHead(s.workQueue);
    case Consume => SplitHead(s.outQueue);
  }

  lemma {:induction false} FetchOkMoves(p: Batch, s: State, m: nat, n: nat)
    requires Enabled(p, s, FetchOk(m))
    ensures Places(Apply(p, s, FetchOk(m)))[n] == Places(s)[n]
  {
    Removed(s.fetching, m, n);
  }

  lemma {:induction false} FetchFailedMoves(p: Batch, s: State, m: nat, n: nat)
    requires Enabled(p, s, FetchFailed(m))
    ensures Places(Apply(p, s, FetchFailed(m)))[n] == Places(s)[n]
  {
    Removed(s.fetching, m, n);
  }

  lemma {:induction false} SendMoves(p: Batch, s: State, m: nat, n: nat)
    requires Enabled(p, s, Send(m))
    ensures Places(Apply(p, s, Send(m)))[n] == Places(s)[n]
  {
    Removed(s.sending, m, n);
  }

  lemma {:induction false} ReleaseMoves(p: Batch, s: State, n: nat)
    requires Enabled(p, s, Release)
    ensures Places(Apply(p, s, Release))[n] == Places(s)[n]
  {
    Removed(s.buffer, s.expected, n);
  }

  /** A step never makes, drops or copies a number. */
  lemma {:induction false} StepConserves(p: Batch, s: State, a: Action)
    requires Enabled(p, s, a)
    ensures Places(Apply(p, s, a)) == Places(s)
  {
    var before, after := Places(s), Places(Apply(p, s, a));
    forall n ensures after[n] == before[n] {
      if TakesFromQueue(a) {
        QueueStepMoves(p, s, a, n);
      } else if a.FetchOk? {
        FetchOkMoves(p, s, a.n, n);
      } else if a.FetchFailed? {
        FetchFailedMoves(p, s, a.n, n);
      } else if a.Send? {
        SendMoves(p, s, a.n, n);
      } else if a.Release? {
        ReleaseMoves(p, s, n);
      }
    }
  }

  // ----- the invariant -----

  ghost predicate Released(p: Batch, s: State)
  {
    p.first <= s.expected && s.consumed + s.outQueue == Range(p.first, s.expected)
  }

  /** Workers, capacities, and who may be where while the main loop and the sequencer are in a given phase. */
  ghost predicate Phases(p: Batch, s: State)
  {
    && s.idle + s.stopped + |s.fetching| + |s.sending| == p.workers
    && |s.fetchQueue| <= p.capacity && |s.workQueue| <= p.capacity && |s.outQueue| <= p.capacity
    && (s.sequencer != Flushing ==> s.expected !in s.buffer)
    && (s.main != Dispatching ==> s.todo == [])
    && (s.stopped > 0 ==> s.main != Dispatching && s.fetchQueue == [])
    && (s.sequencer == FinalFlush || s.sequencer == Ended ==> s.stopped == p.workers && s.workQueue == [])
    && (s.main == Joining ==> s.consumed != [] || s.sequencer == Ended)
    && (s.main == Finished ==> s.stopped == p.workers && s.sequencer == Ended)
  }

  ghost predicate Inv(p: Batch, s: State)
  {
    && Places(s) == multiset(Range(p.first, p.first + p.count))
    && Released(p, s)
    && Phases(p, s)
  }

  lemma {:induction false} StepKeepsReleased(p: Batch, s: State, a: Action)
    requires Released(p, s) && Enabled(p, s, a)
    ensures Released(p, Apply(p, s, a))
  {
    var s' := Apply(p, s, a);
    if a == Release {
      assert s'.consumed + s'.outQueue == (s.consumed + s.outQueue) + [s.expected];
    } else if a == Consume {
      assert s'.consumed + s'.outQueue == s.consumed + s.outQueue;
    }
  }

  lemma {:induction false} StepKeepsPhases(p: Batch, s: State, a: Action)
    requires ValidBatch(p) && Phases(p, s) && Enabled(p, s, a)
    ensures Phases(p, Apply(p, s, a))
  {
  }

  lemma {:induction false} StepKeepsInvariant(p: Batch, s: State, a: Action)
    requires ValidBatch(p) && Inv(p, s) && Enabled(p, s, a)
    ensures Inv(p, Apply(p, s, a))
  {
    StepConserves(p, s, a);
    StepKeepsReleased(p, s, a);
    StepKeepsPhases(p, s, a);
  }

  lemma {:induction false} InitialInvariant(p: Batch)
    ensures Inv(p, Initial(p))
  {
  }

  // ----- runs are finite -----

  function SequencerRank(c: SequencerState): nat
  {
    match c case Waiting => 2 case Flushing => 3 case FinalFlush => 1 case Ended => 0
  }

  function MainRank(c: MainState): nat
  {
    match c case Dispatching => 3 case Draining => 2 case Joining => 1 case Finished => 0
  }

  /** How much work is left; every step takes some away. */
  function Measure(s: State): nat
  {
    9 * |s.todo| + 8 * |s.fetchQueue| + 7 * |s.fetching| + 6 * |s.sending| + 4 * |s.workQueue| +
    2 * |s.buffer| + |s.outQueue| + s.idle + SequencerRank(s.sequencer) + MainRank(s.main)
  }

  lemma {:induction false} StepTakesWork(p: Batch, s: State, a: Action)
    requires Enabled(p, s, a)
    ensures Measure(Apply(p, s, a)) < Measure(s)
  {
  }

  function States(p: Batch, s: State, actions: seq<Action>): Option<State>
  {
    if actions == [] then Some(s) else
    var before := States(p, s, actions[..|actions| - 1]);
    if before.None? || !Enabled(p, before.value, actions[|actions| - 1]) then None
    else Some(Apply(p, before.value, actions[|actions| - 1]))
  }

  /** After any interleaving of steps the invariant holds, and no interleaving is longer than the initial measure. */
  lemma {:induction false} RunsKeepInvariantAndEnd(p: Batch, actions: seq<Action>)
    requires ValidBatch(p) && States(p, Initial(p), actions).Some?
    ensures var s := States(p, Initial(p), actions).value;
      Inv(p, s) && |actions| + Measure(s) <= Measure(Initial(p))
  {
    if actions == [] {
      InitialInvariant(p);
    } else {
      var front, a := actions[..|actions| - 1], actions[|actions| - 1];
      RunsKeepInvariantAndEnd(p, front);
      var s := States(p, Initial(p), front).value;
      StepKeepsInvariant(p, s, a);
      StepTakesWork(p, s, a);
    }
  }

  // ----- what is released -----

  /** `x` ends the longest failure-free prefix of the batch. */
  ghost predicate EndsPrefix(p: Batch, failed: multiset<nat>, x: nat)
  {
    && p.first <= x <= p.first + p.count
    && (forall n :: p.first <= n < x ==> n !in failed)
    && (x < p.first + p.count ==> x in failed)
  }

  function PrefixEnd(p: Batch, failed: multiset<nat>, from: nat): (x: nat)
    requires p.first <= from <= p.first + p.count
    requires forall n :: p.first <= n < from ==> n !in failed
    ensures EndsPrefix(p, failed, x)
    decreases p.first + p.count - from
  {
    if from == p.first + p.count || from in failed then from else PrefixEnd(p, failed, from + 1)
  }

  lemma {:induction false} RangeMultiset(from: nat, end: nat, n: nat)
    requires from <= end
    ensures multiset(Range(from, end))[n] == (if from <= n < end then 1 else 0)
    decreases end
  {
    if from < end {
      RangeMultiset(from, end - 1, n);
      assert Range(from, end) == Range(from, end - 1) + [end - 1];
    } else {
      assert Range(from, end) == [];
    }
  }

  /** A number is in the batch exactly when it is in one of the places, and then in one only. */
  lemma {:induction false} OnePlace(p: Batch, s: State, n: nat)
    requires Inv(p, s)
    ensures Places(s)[n] == (if p.first <= n < p.first + p.count then 1 else 0)
    ensures p.first <= n < s.expected <==> n in multiset(s.consumed + s.outQueue)
  {
    RangeMultiset(p.first, p.first + p.count, n);
    RangeMultiset(p.first, s.expected, n);
  }

  /** A number already released is nowhere else. */
  lemma {:induction false} ReleasedNotElsewhere(p: Batch, s: State, n: nat)
    requires Inv(p, s) && p.first <= n < s.expected
    ensures n < p.first + p.count && n !in s.failed && n !in s.buffer
  {
    OnePlace(p, s, n);
    assert multiset(s.consumed + s.outQueue) == multiset(s.consumed) + multiset(s.outQueue);
  }

  /** What reaches the drain loop is always an ascending prefix of the batch without a failed height. */
  lemma {:induction false} ReleasedPrefix(p: Batch, s: State)
    requires Inv(p, s)
    ensures s.expected <= p.first + p.count
    ensures s.consumed + s.outQueue == Range(p.first, s.expected)
    ensures forall n :: p.first <= n < s.expected ==> n !in s.failed
    ensures s.sequencer == FinalFlush ==> s.expected !in s.buffer
  {
    if s.expected > p.first {
      ReleasedNotElsewhere(p, s, s.expected - 1);
    }
    forall n | p.first <= n < s.expected ensures n !in s.failed {
      ReleasedNotElsewhere(p, s, n);
    }
  }

  /** When the sequencer has ended it has released the longest failure-free prefix of the batch. */
  lemma {:induction false} EndedReleasesLongestPrefix(p: Batch, s: State)
    requires ValidBatch(p) && Inv(p, s) && s.sequencer == Ended
    ensures EndsPrefix(p, s.failed, s.expected)
  {
    ReleasedPrefix(p, s);
    if s.expected < p.first + p.count {
      OnePlace(p, s, s.expected);
      assert multiset(s.consumed + s.outQueue) == multiset(s.consumed) + multiset(s.outQueue);
    }
  }

  /** The release depends on which heights failed and on nothing else: not on arrival order, nor on scheduling. */
  lemma {:induction false} ReleaseIgnoresSchedule(p: Batch, s: State, t: State)
    requires ValidBatch(p) && Inv(p, s) && Inv(p, t) && s.sequencer == Ended && t.sequencer == Ended
    requires s.failed == t.failed
    ensures s.consumed + s.outQueue == t.consumed + t.outQueue
  {
    EndedReleasesLongestPrefix(p, s);
    EndedReleasesLongestPrefix(p, t);
  }

  // ----- no deadlock -----

  lemma {:induction false} CountPlaces(p: Batch, s: State)
    requires Inv(p, s)
    ensures |s.todo| + |s.fetchQueue| + |s.fetching| + |s.sending| + |s.failed| + |s.workQueue| +
            |s.buffer| + |s.outQueue| + |s.consumed| == p.count
  {
    assert |multiset(Range(p.first, p.first + p.count))| == p.count;
  }

  /** A step that neither fails a fetch nor concerns the drain loop. */
  predicate Harmless(a: Action)
  {
    a != Break && a != Consume && !a.FetchFailed?
  }

  /** No task but the drain loop can move, and no fetch is under way. */
  ghost predicate Quiet(p: Batch, s: State)
  {
    forall a :: Harmless(a) ==> !Enabled(p, s, a)
  }

  /** In a quiet state an idle worker has nothing to take and no signal to stop. */
  lemma {:induction false} QuietFetching(p: Batch, s: State)
    requires Quiet(p, s)
    ensures |s.fetching| == 0
    ensures s.idle > 0 ==> s.fetchQueue == [] && s.main == Dispatching
    ensures s.main == Dispatching ==> s.todo != [] && |s.fetchQueue| >= p.capacity
    ensures |s.sending| > 0 ==> |s.workQueue| >= p.capacity
  {
    forall n ensures n !in s.fetching {
      assert !Enabled(p, s, FetchOk(n));
    }
    if |s.sending| > 0 {
      var n :| n in s.sending;
      assert !Enabled(p, s, Send(n));
    }
    assert !Enabled(p, s, Take) && !Enabled(p, s, Stop) && !Enabled(p, s, Dispatch) && !Enabled(p, s, CloseFetch);
  }

  /** In a quiet state the sequencer has ended, or waits for workers, or is blocked by a full last channel. */
  lemma {:induction false} QuietSequencer(p: Batch, s: State)
    requires Quiet(p, s)
    ensures s.sequencer == Waiting ==> s.workQueue == [] && s.stopped != p.workers
    ensures s.sequencer == Flushing || s.sequencer == FinalFlush ==>
              s.expected in s.buffer && |s.outQueue| >= p.capacity
    ensures s.main == Draining ==> s.outQueue != [] || s.sequencer != Ended
    ensures s.main == Joining ==> s.stopped != p.workers || s.sequencer != Ended
  {
    assert !Enabled(p, s, Receive) && !Enabled(p, s, CloseWork) && !Enabled(p, s, Release) && !Enabled(p, s, FlushDone);
    assert !Enabled(p, s, DrainDone) && !Enabled(p, s, Join);
  }

  /** In a quiet state a worker that has not stopped waits to send into a full channel. */
  lemma {:induction false} QuietWorkers(p: Batch, s: State)
    requires ValidBatch(p) && Inv(p, s) && Quiet(p, s) && s.stopped < p.workers
    ensures |s.sending| == p.workers - s.stopped && |s.workQueue| == p.capacity
    ensures s.sequencer == Flushing && s.expected in s.buffer && |s.outQueue| == p.capacity
  {
    QuietFetching(p, s);
    QuietSequencer(p, s);
  }

  /** Dispatching is over in a quiet state, although nothing drains the last channel meanwhile. */
  lemma {:induction false} QuietHasDispatched(p: Batch, s: State)
    requires ValidBatch(p) && Inv(p, s) && Quiet(p, s)
    requires p.count <= 3 * p.capacity + p.workers + 1
    ensures s.main != Dispatching && s.todo == []
  {
    CountPlaces(p, s);
    QuietFetching(p, s);
    QuietSequencer(p, s);
    if s.stopped < p.workers {
      QuietWorkers(p, s);
    }
  }

  /** The drain loop is never left waiting for a height that does not come. */
  lemma {:induction false} QuietDrainHasWork(p: Batch, s: State)
    requires ValidBatch(p) && Inv(p, s) && Quiet(p, s) && s.main == Draining
    ensures s.outQueue != []
  {
    QuietSequencer(p, s);
    if s.stopped < p.workers {
      QuietWorkers(p, s);
    }
  }

  lemma {:induction false} StuckIsQuiet(p: Batch, s: State)
    requires Stuck(p, s)
    ensures Quiet(p, s) && (s.main == Draining ==> s.outQueue == [])
  {
    assert !Enabled(p, s, Consume);
  }

  /** Where no task can move, dispatching and draining are both over. */
  lemma {:induction false} DispatchFinishes(p: Batch, s: State)
    requires ValidBatch(p) && Inv(p, s) && Stuck(p, s)
    requires p.count <= 3 * p.capacity + p.workers + 1
    ensures s.main == Joining || s.main == Finished
    ensures s.todo == []
  {
    StuckIsQuiet(p, s);
    QuietHasDispatched(p, s);
    if s.main == Draining {
      QuietDrainHasWork(p, s);
    }
  }

  /** After the drain loop has ended, early or not, the workers always stop. */
  lemma {:induction false} WorkersStop(p: Batch, s: State)
    requires ValidBatch(p) && Inv(p, s) && Stuck(p, s)
    requires p.count <= 2 * p.capacity + 2 && (s.main == Joining || s.main == Finished)
    ensures s.stopped == p.workers
  {
    CountPlaces(p, s);
    StuckIsQuiet(p, s);
    if s.stopped < p.workers {
      QuietWorkers(p, s);
    }
  }

  /** The sequencer's join ends exactly when what is left to release fits the last channel. */
  lemma {:induction false} SequencerJoinEnds(p: Batch, s: State, x: nat)
    requires ValidBatch(p) && Inv(p, s) && Stuck(p, s) && s.stopped == p.workers
    requires s.main == Joining || s.main == Finished
    requires EndsPrefix(p, s.failed, x)
    ensures s.main == Finished <==> x - p.first - |s.consumed| <= p.capacity
  {
    StuckIsQuiet(p, s);
    QuietSequencer(p, s);
    ReleasedPrefix(p, s);
    assert |s.consumed| + |s.outQueue| == s.expected - p.first;
    if s.main == Finished {
      EndedReleasesLongestPrefix(p, s);
    } else {
      OnePlace(p, s, s.expected);
      assert s.expected in s.buffer && s.expected !in s.failed;
    }
  }

  /** A batch holds at most this many channel capacities of heights. */
  const BATCH_QUEUES: nat := 2

  /**
   * Every maximal run of a batch of at most two queue depths: it ends, with everything dispatched,
   * all workers stopped, the longest failure-free prefix released or releasable, and the main loop
   * through its joins exactly when the rest of that prefix fits the last channel.
   */
  lemma {:induction false} MaximalRun(p: Batch, actions: seq<Action>)
    requires ValidBatch(p) && p.count <= BATCH_QUEUES * p.capacity
    requires States(p, Initial(p), actions).Some? && Stuck(p, States(p, Initial(p), actions).value)
    ensures |actions| <= Measure(Initial(p))
    ensures var s := States(p, Initial(p), actions).value;
      var x := PrefixEnd(p, s.failed, p.first);
      && (s.main == Joining || s.main == Finished) && s.todo == [] && s.stopped == p.workers
      && p.first <= s.expected <= x && s.consumed + s.outQueue == Range(p.first, s.expected)
      && (s.main == Finished <==> x - p.first - |s.consumed| <= p.capacity)
  {
    RunsKeepInvariantAndEnd(p, actions);
    var s := States(p, Initial(p), actions).value;
    DispatchFinishes(p, s);
    WorkersStop(p, s);
    SequencerJoinEnds(p, s, PrefixEnd(p, s.failed, p.first));
    ReleasedPrefix(p, s);
  }

  predicate JoinsOnlyWhenDry(s: State)
  {
    s.main == Joining || s.main == Finished ==> s.outQueue == [] && s.sequencer == Ended
  }

  lemma {:induction false} UnbrokenStep(p: Batch, s: State, a: Action)
    requires JoinsOnlyWhenDry(s) && a != Break && Enabled(p, s, a)
    ensures JoinsOnlyWhenDry(Apply(p, s, a))
  {
  }

  lemma {:induction false} UnbrokenDrainsAll(p: Batch, actions: seq<Action>)
    requires Break !in actions && States(p, Initial(p), actions).Some?
    ensures JoinsOnlyWhenDry(States(p, Initial(p), actions).value)
  {
    if actions != [] {
      var front, a := actions[..|actions| - 1], actions[|actions| - 1];
      assert forall b :: b in front ==> b in actions;
      UnbrokenDrainsAll(p, front);
      UnbrokenStep(p, States(p, Initial(p), front).value, a);
    }
  }

  lemma {:induction false} DrainedAndJoined(p: Batch, s: State, x: nat)
    requires ValidBatch(p) && Inv(p, s) && Stuck(p, s) && EndsPrefix(p, s.failed, x)
    requires s.outQueue == [] && s.sequencer == Ended && (s.main == Joining || s.main == Finished)
    ensures s.main == Finished && s.consumed == Range(p.first, x)
  {
    StuckIsQuiet(p, s);
    QuietSequencer(p, s);
    EndedReleasesLongestPrefix(p, s);
    assert s.consumed + s.outQueue == s.consumed;
  }

  /** A drain that is never broken off ends with the whole prefix consumed and the main loop through its joins. */
  lemma {:induction false} FullDrainEnds(p: Batch, actions: seq<Action>)
    requires ValidBatch(p) && p.count <= BATCH_QUEUES * p.capacity && Break !in actions
    requires States(p, Initial(p), actions).Some? && Stuck(p, States(p, Initial(p), actions).value)
    ensures var s := States(p, Initial(p), actions).value;
      s.main == Finished && s.consumed == Range(p.first, PrefixEnd(p, s.failed, p.first))
  {
    var s := States(p, Initial(p), actions).value;
    UnbrokenDrainsAll(p, actions);
    RunsKeepInvariantAndEnd(p, actions);
    DispatchFinishes(p, s);
    DrainedAndJoined(p, s, PrefixEnd(p, s.failed, p.first));
  }

  // ----- a hang is possible exactly when the batch exceeds the last channel by two -----

  /** A run that cannot go on. */
  ghost predicate Maximal(p: Batch, actions: seq<Action>)
  {
    States(p, Initial(p), actions).Some? && Stuck(p, States(p, Initial(p), actions).value)
  }

  lemma {:induction false} StatesAppend(p: Batch, s: State, actions: seq<Action>, a: Action)
    requires States(p, s, actions).Some? && Enabled(p, States(p, s, actions).value, a)
    ensures States(p, s, actions + [a]) == Some(Apply(p, States(p, s, actions).value, a))
  {
    assert (actions + [a])[..|actions|] == actions;
  }

  /** No failure was added and the drain loop did not take or give up anything. */
  predicate Undisturbed(s: State, t: State)
  {
    && t.failed == s.failed && t.consumed == s.consumed
    && (s.main == Joining || s.main == Finished ==> t.main == Joining || t.main == Finished)
  }

  lemma {:induction false} HarmlessStep(p: Batch, s: State, a: Action)
    requires Enabled(p, s, a) && Harmless(a)
    ensures Undisturbed(s, Apply(p, s, a))
  {
  }

  lemma {:induction false} OneMore(p: Batch, actions: seq<Action>, s: State) returns (a: Action, s': State)
    requires States(p, Initial(p), actions) == Some(s) && !Quiet(p, s)
    ensures a != Break && States(p, Initial(p), actions + [a]) == Some(s')
    ensures Undisturbed(s, s') && Measure(s') < Measure(s)
  {
    a :| Harmless(a) && Enabled(p, s, a);
    s' := Apply(p, s, a);
    StepTakesWork(p, s, a);
    HarmlessStep(p, s, a);
    StatesAppend(p, Initial(p), actions, a);
  }

  /** `t` is a quiet state to which the run goes on from `s`, with `more` steps that leave the drain loop alone. */
  ghost predicate GoesOn(p: Batch, actions: seq<Action>, s: State, more: seq<Action>, t: State)
  {
    Break !in more && States(p, Initial(p), actions + more) == Some(t) && Quiet(p, t) && Undisturbed(s, t)
  }

  lemma {:induction false} GoesOnFurther(
    p: Batch, actions: seq<Action>, s: State, a: Action, s': State, more: seq<Action>, t: State)
    requires a != Break && Undisturbed(s, s') && GoesOn(p, actions + [a], s', more, t)
    ensures GoesOn(p, actions, s, [a] + more, t)
  {
    assert actions + [a] + more == actions + ([a] + more);
  }

  lemma {:induction false} GoesNowhere(p: Batch, actions: seq<Action>, s: State)
    requires States(p, Initial(p), actions) == Some(s) && Quiet(p, s)
    ensures GoesOn(p, actions, s, [], s)
  {
    assert actions + [] == actions;
  }

  /** Any run goes on, without failures and without touching the drain loop, to a quiet state. */
  lemma {:induction false} ReachQuiet(p: Batch, actions: seq<Action>, s: State) returns (more: seq<Action>, t: State)
    requires States(p, Initial(p), actions) == Some(s)
    ensures GoesOn(p, actions, s, more, t)
    decreases Measure(s)
  {
    if Quiet(p, s) {
      more, t := [], s;
      GoesNowhere(p, actions, s);
    } else {
      var a, s' := OneMore(p, actions, s);
      more, t := ReachQuiet(p, actions + [a], s');
      GoesOnFurther(p, actions, s, a, s', more, t);
      more := [a] + more;
    }
  }

  /** A failure-free run up to the moment the drain loop holds its first height. */
  lemma {:induction false} ReachFirstHeight(p: Batch) returns (actions: seq<Action>)
    requires ValidBatch(p) && 0 < p.count <= BATCH_QUEUES * p.capacity
    ensures States(p, Initial(p), actions).Some?
    ensures var s := States(p, Initial(p), actions).value;
      s.main == Draining && s.consumed == [] && s.outQueue != [] && s.failed == multiset{}
  {
    var s;
    actions, s := ReachQuiet(p, [], Initial(p));
    assert [] + actions == actions;
    RunsKeepInvariantAndEnd(p, actions);
    UnbrokenDrainsAll(p, actions);
    QuietHasDispatched(p, s);
    if s.main != Draining {
      EndedReleasesLongestPrefix(p, s);
    }
    QuietDrainHasWork(p, s);
  }

  /** A run without failures that is broken off after the first height and then goes as far as it can. */
  lemma {:induction false} BreakAfterFirst(p: Batch) returns (actions: seq<Action>)
    requires ValidBatch(p) && 0 < p.count <= BATCH_QUEUES * p.capacity
    ensures Maximal(p, actions)
    ensures var s := States(p, Initial(p), actions).value; s.failed == multiset{} && |s.consumed| == 1
  {
    actions := ReachFirstHeight(p);
    StatesAppend(p, Initial(p), actions, Consume);
    StatesAppend(p, Initial(p), actions + [Consume], Break);
    actions := actions + [Consume] + [Break];
    var more, s := ReachQuiet(p, actions, States(p, Initial(p), actions).value);
    actions := actions + more;
    QuietFetching(p, s);
    assert s.fetching == multiset{};
  }

  /** A run that ends short of the joins' end has consumed a height and left more than the last channel holds. */
  lemma {:induction false} HangNeedsTwoMore(p: Batch, actions: seq<Action>)
    requires ValidBatch(p) && p.count <= BATCH_QUEUES * p.capacity && Maximal(p, actions)
    requires States(p, Initial(p), actions).value.main != Finished
    ensures p.count >= p.capacity + 2
  {
    MaximalRun(p, actions);
    RunsKeepInvariantAndEnd(p, actions);
    var s := States(p, Initial(p), actions).value;
    assert !Enabled(p, s, Join);
    assert |s.consumed| >= 1;
  }

  lemma {:induction false} BreakAfterFirstHangs(p: Batch) returns (actions: seq<Action>)
    requires ValidBatch(p) && p.capacity + 2 <= p.count <= BATCH_QUEUES * p.capacity
    ensures Maximal(p, actions) && States(p, Initial(p), actions).value.main == Joining
  {
    actions := BreakAfterFirst(p);
    MaximalRun(p, actions);
    assert PrefixEnd(p, multiset{}, p.first) == p.first + p.count;
  }

  /**
   * The main loop can hang in its joins if and only if the batch holds at least two more heights than
   * the last channel: then breaking off after the first height does it; otherwise no run does.
   */
  lemma {:induction false} HangPossibleIff(p: Batch)
    requires ValidBatch(p) && p.count <= BATCH_QUEUES * p.capacity
    ensures (exists actions :: Maximal(p, actions) && States(p, Initial(p), actions).value.main != Finished)
       <==> p.count >= p.capacity + 2
  {
    if actions :| Maximal(p, actions) && States(p, Initial(p), actions).value.main != Finished {
      HangNeedsTwoMore(p, actions);
    }
    if p.count >= p.capacity + 2 {
      var actions := BreakAfterFirstHangs(p);
    }
  }
}
