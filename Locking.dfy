/**
 * The server's one `threading.Lock` (server.py:27), as seen by a single
 * handler thread. A `threading.Lock` is not re-entrant: a thread that asks
 * for it while already holding it waits forever. A handler's behaviour
 * towards the lock is the sequence of its acquire and release operations,
 * one `with self.lock:` block giving an `Acquire` and later a `Release`.
 */
module Locking {
  datatype LockOp = Acquire | Release

  /** How a thread's lock operations end, starting from an unheld lock:
      all done, with the final state of the lock; blocked forever at the
      operation with index `at`, an `Acquire` issued while the thread
      already holds the lock; or failed at `at`, a `Release` of a lock that
      is not held (Python raises `RuntimeError`). */
  datatype Outcome = Done(held: bool) | Blocked(at: nat) | Failed(at: nat)

  function Shift(o: Outcome): Outcome {
    match o
    case Done(h) => Done(h)
    case Blocked(k) => Blocked(k + 1)
    case Failed(k) => Failed(k + 1)
  }

  /** Runs `ops` on the lock, which this thread holds exactly when `held`. */
  function Run(held: bool, ops: seq<LockOp>): Outcome
    decreases |ops|
  {
    if ops == [] then Done(held)
    else if ops[0] == Acquire then (if held then Blocked(0) else Shift(Run(true, ops[1..])))
    else (if held then Shift(Run(false, ops[1..])) else Failed(0))
  }

  /** One `with self.lock:` block. */
  const Section: seq<LockOp> := [Acquire, Release]

  /** `n` lock blocks one after the other, none inside another. */
  function Sections(n: nat): seq<LockOp> {
    if n == 0 then [] else Section + Sections(n - 1)
  }

  /** `broadcast_leaderboard` collects and sorts under the lock, then writes
      without it. */
  const BroadcastLocks: seq<LockOp> := Section

  /** `send_quiz_complete` reads the record under the lock, then writes the
      summary and broadcasts. */
  const QuizCompleteLocks: seq<LockOp> := Section + BroadcastLocks

  /** `send_question` as written: when the quiz is finished it calls
      `send_quiz_complete` from inside its own `with self.lock:` block; with
      an unknown topic it leaves after the first block; otherwise it takes
      the lock a second time to record the answer. */
  function SendQuestionLocksAsWritten(finished: bool, topicKnown: bool): seq<LockOp> {
    if finished then [Acquire] + QuizCompleteLocks + [Release]
    else if !topicKnown then Section
    else Section + Section
  }

  /** `send_question` with the summary sent after its first block has ended. */
  function SendQuestionLocks(finished: bool, topicKnown: bool): seq<LockOp> {
    if finished then Section + QuizCompleteLocks
    else if !topicKnown then Section
    else Section + Section
  }

  /** `handle_answer` scores under the lock, then broadcasts, then either
      sends the summary or starts a timer, all with the lock free. */
  function AnswerLocks(finished: bool): seq<LockOp> {
    Section + BroadcastLocks + (if finished then QuizCompleteLocks else [])
  }

  /** Lock blocks that follow one another leave the lock free and never wait
      on the thread itself. */
  lemma {:induction false} SectionsComplete(n: nat)
    ensures Run(false, Sections(n)) == Done(false)
  {
    if n > 0 {
      SectionsComplete(n - 1);
      var ops := Sections(n);
      assert ops[1..] == [Release] + Sections(n - 1);
      assert ops[1..][1..] == Sections(n - 1);
    }
  }

  /** A thread that issues `Acquire` while it holds the lock waits forever
      there, whatever it would have done next. */
  lemma NestedAcquireBlocks(inner: seq<LockOp>, rest: seq<LockOp>)
    requires inner != [] && inner[0] == Acquire
    ensures Run(false, [Acquire] + inner + rest) == Blocked(1)
  {
    var ops := [Acquire] + inner + rest;
    assert ops[1..] == inner + rest;
  }

  /** The deadlock: a `send_question` for a record that has answered
      MaxQuestions questions blocks at its second `Acquire`, inside
      `send_quiz_complete`, holding the lock; the summary is never written
      and every other handler that needs the lock waits with it. */
  lemma SendQuestionAsWrittenDeadlocks(topicKnown: bool)
    ensures Run(false, SendQuestionLocksAsWritten(true, topicKnown)) == Blocked(1)
  {
    NestedAcquireBlocks(QuizCompleteLocks, [Release]);
  }

  /** Before the quiz length is reached the as-written `send_question`
      completes and leaves the lock free. */
  lemma SendQuestionAsWrittenUnfinishedCompletes(topicKnown: bool)
    ensures Run(false, SendQuestionLocksAsWritten(false, topicKnown)) == Done(false)
  {
    if topicKnown {
      assert SendQuestionLocksAsWritten(false, topicKnown) == Sections(2);
      SectionsComplete(2);
    } else {
      assert SendQuestionLocksAsWritten(false, topicKnown) == Sections(1);
      SectionsComplete(1);
    }
  }

  /** With the summary sent after the first block, every path of
      `send_question` completes and leaves the lock free. */
  lemma SendQuestionCompletes(finished: bool, topicKnown: bool)
    ensures Run(false, SendQuestionLocks(finished, topicKnown)) == Done(false)
  {
    var n := if finished then 3 else if topicKnown then 2 else 1;
    assert Sections(1) == Section;
    assert Sections(2) == Section + Section;
    assert Sections(3) == Section + (Section + Section);
    assert SendQuestionLocks(finished, topicKnown) == Sections(n);
    SectionsComplete(n);
  }

  /** `handle_answer` reaches the summary with the lock free, so that path
      completes. */
  lemma AnswerCompletes(finished: bool)
    ensures Run(false, AnswerLocks(finished)) == Done(false)
  {
    var n := if finished then 4 else 2;
    assert Sections(2) == Section + Section;
    assert Sections(4) == Section + (Section + (Section + Section));
    assert AnswerLocks(finished) == Sections(n);
    SectionsComplete(n);
  }
}
