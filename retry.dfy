/** What the ground tool's retry loops (esc32SendReliably, esc32GetParamId)
    compute, as functions of the replies the reader thread handles while the
    sender polls. The reader's own code for a control frame (esc32Read,
    the 'C' branch) is `Apply`; the sending loops are `Poll` and `Run`. */
module Retry {
  import opened Bytes
  import opened Esc32Codes

  /** At most five frames per request. */
  const ATTEMPTS := 5
  /** At most 500 polls of one millisecond per frame. */
  const POLLS := 500

  /** The globals the reader thread writes for the sender: `lastSeqId`,
      `lastAck` and `paramId`. */
  datatype Status = Status(lastSeqId: U16, lastAck: Byte, paramId: I16)

  /** The effect of an accepted control frame with command byte `command`:
      ACK and NACK record the sequence id and the verdict, GET_PARAM_ID only
      the sequence id; any other command is reported and ignored. */
  function Record(st: Status, command: Byte, seqId: U16): Status
  {
    if command == BINARY_COMMAND_ACK then st.(lastSeqId := seqId, lastAck := 1)
    else if command == BINARY_COMMAND_NACK then st.(lastSeqId := seqId, lastAck := 0)
    else if command == CommandCode(GetParamId) then st.(lastSeqId := seqId)
    else st
  }

  /** `Record` answers `seqId` exactly for ACK, NACK and GET_PARAM_ID (or when
      it was already the last one answered), and never touches `paramId`. */
  lemma RecordAnswers(st: Status, command: Byte, seqId: U16)
    ensures Record(st, command, seqId).paramId == st.paramId
    ensures Record(st, command, seqId).lastSeqId == seqId <==>
      (command == BINARY_COMMAND_ACK || command == BINARY_COMMAND_NACK ||
       command == CommandCode(GetParamId) || st.lastSeqId == seqId)
    ensures CommandOfCode(command) == Some(Ack) ==> Record(st, command, seqId).lastAck == 1
    ensures CommandOfCode(command) == Some(Nack) ==> Record(st, command, seqId).lastAck == 0
  {
  }

  /** One control frame as the reader thread sees it. `checksOk` says whether
      both check bytes matched; `paramId` is the short after the sequence id,
      read only when `count` > 3. `Silent` is a poll during which no control
      frame completed. */
  datatype Reply =
    | Silent
    | Control(count: Byte, command: Byte, seqId: U16, paramId: I16, checksOk: bool)

  /** The reader's handling of one reply: `paramId` is stored as soon as it is
      read, before the check bytes are compared; the rest only for a frame
      whose check bytes match. */
  function Apply(st: Status, r: Reply): Status
  {
    match r
    case Silent => st
    case Control(count, command, seqId, paramId, checksOk) =>
      var st1 := if count > 3 then st.(paramId := paramId) else st;
      if checksOk then Record(st1, command, seqId) else st1
  }

  /** A frame whose check bytes do not match leaves `lastSeqId` and
      `lastAck` alone, though it may overwrite `paramId`. */
  lemma RejectedFrameKeepsAnswer(st: Status, count: Byte, command: Byte, seqId: U16, paramId: I16)
    ensures var r := Apply(st, Control(count, command, seqId, paramId, false));
      r.lastSeqId == st.lastSeqId && r.lastAck == st.lastAck &&
      (count > 3 ==> r.paramId == paramId) && (count <= 3 ==> r.paramId == st.paramId)
  {
  }

  /** The poll loop of one attempt, from poll `i` on: sleep, let the reader
      handle `replies(i)`, stop once `seqId` is answered or after 500 polls.
      Returns the status and the number of polls made. */
  function Poll(st: Status, seqId: U16, replies: nat -> Reply, i: nat): (r: (Status, nat))
    requires i < POLLS
    ensures i < r.1 <= POLLS
    ensures r.1 < POLLS ==> r.0.lastSeqId == seqId
    decreases POLLS - i
  {
    var st1 := Apply(st, replies(i));
    if st1.lastSeqId != seqId && i + 1 < POLLS then Poll(st1, seqId, replies, i + 1)
    else (st1, i + 1)
  }

  /** `step` applied for `i`, `i+1`, ..., `m-1` in turn, starting from `s`. */
  function Iterate<S>(step: (S, nat) -> S, s: S, i: nat, m: nat): S
    decreases m
  {
    if m <= i then s else step(Iterate(step, s, i, m - 1), m - 1)
  }

  /** Taking step `i` first, then the rest, is taking them all. */
  lemma {:induction false} IterateFirst<S>(step: (S, nat) -> S, s: S, i: nat, m: nat)
    requires i < m
    ensures Iterate(step, s, i, m) == Iterate(step, step(s, i), i + 1, m)
    decreases m
  {
    if m > i + 1 {
      IterateFirst(step, s, i, m - 1);
    }
  }

  /** One poll: the reader handles reply `m`. */
  function PollStep(replies: nat -> Reply): (Status, nat) -> Status
  {
    (st: Status, m: nat) => Apply(st, replies(m))
  }

  /** The poll loop stops at the first poll after which `seqId` is answered:
      the status it returns is that after all its polls, and no earlier poll
      had answered `seqId`. */
  lemma {:induction false} PollStopsAtFirstAnswer(st: Status, seqId: U16, replies: nat -> Reply, i: nat)
    requires i < POLLS
    ensures var r := Poll(st, seqId, replies, i);
      r.0 == Iterate(PollStep(replies), st, i, r.1) &&
      forall m :: i < m < r.1 ==> Iterate(PollStep(replies), st, i, m).lastSeqId != seqId
    decreases POLLS - i
  {
    var st1 := Apply(st, replies(i));
    assert Iterate(PollStep(replies), st, i, i + 1) == st1;
    if st1.lastSeqId != seqId && i + 1 < POLLS {
      PollStopsAtFirstAnswer(st1, seqId, replies, i + 1);
      var r := Poll(st1, seqId, replies, i + 1);
      forall m | i < m <= r.1
        ensures Iterate(PollStep(replies), st, i, m) == Iterate(PollStep(replies), st1, i + 1, m)
      {
        IterateFirst(PollStep(replies), st, i, m);
      }
    }
  }

  /** The sequence id of attempt `k` when the first one used `first`: each
      attempt increments `commandSeqId`, which wraps at 16 bits. */
  function SeqIdOf(first: U16, k: nat): U16
  {
    (first + k) % 0x1_0000
  }

  /** Attempt `k+1` uses the id after that of attempt `k`. */
  lemma SeqIdOfSucc(first: U16, k: nat)
    ensures SeqIdOf(first, k + 1) == NextU16(SeqIdOf(first, k))
  {
    var q := (first + k) / 0x1_0000;
    assert first + k == q * 0x1_0000 + SeqIdOf(first, k);
    if SeqIdOf(first, k) == 0xFFFF {
      assert first + k + 1 == (q + 1) * 0x1_0000;
    } else {
      assert first + k + 1 == q * 0x1_0000 + SeqIdOf(first, k) + 1;
    }
  }

  /** Where a sequence of attempts ended: the status, how many frames were
      sent, and the sequence id of the last one. */
  datatype Outcome = Outcome(status: Status, attempts: nat, seqId: U16)

  /** Attempts `j`, `j+1`, ... of a request whose first attempt used id
      `first`: attempt `k` sends a frame with id `SeqIdOf(first, k)` and
      polls; the loop stops at the first attempt whose id is answered, or
      after five. `replies(k)` are the replies during attempt `k`. */
  function Run(st: Status, first: U16, replies: nat -> nat -> Reply, j: nat): (r: Outcome)
    requires j < ATTEMPTS
    ensures j < r.attempts <= ATTEMPTS
    ensures r.seqId == SeqIdOf(first, r.attempts - 1)
    ensures r.attempts < ATTEMPTS ==> r.status.lastSeqId == r.seqId
    decreases ATTEMPTS - j, 1
  {
    Continue(Poll(st, SeqIdOf(first, j), replies(j), 0).0, first, replies, j)
  }

  /** The end of attempt `j`, whose polls left the status `st`. */
  function Continue(st: Status, first: U16, replies: nat -> nat -> Reply, j: nat): (r: Outcome)
    requires j < ATTEMPTS
    ensures j < r.attempts <= ATTEMPTS
    ensures r.seqId == SeqIdOf(first, r.attempts - 1)
    ensures r.attempts < ATTEMPTS ==> r.status.lastSeqId == r.seqId
    decreases ATTEMPTS - j, 0
  {
    var seqId := SeqIdOf(first, j);
    if st.lastSeqId != seqId && j + 1 < ATTEMPTS then Run(st, first, replies, j + 1)
    else Outcome(st, j + 1, seqId)
  }

  /** Attempt `j` is the last one exactly when its id was answered or no
      attempt is left, and then the outcome keeps its status. */
  lemma ContinueStops(st: Status, first: U16, replies: nat -> nat -> Reply, j: nat)
    requires j < ATTEMPTS
    ensures var r := Continue(st, first, replies, j);
      (r.attempts == j + 1 <==> st.lastSeqId == SeqIdOf(first, j) || j + 1 == ATTEMPTS) &&
      (r.attempts == j + 1 ==> r.status == st)
  {
    if st.lastSeqId != SeqIdOf(first, j) && j + 1 < ATTEMPTS {
      assert Continue(st, first, replies, j) == Run(st, first, replies, j + 1);
    }
  }

  /** One attempt: attempt `k` is polled with its own id. */
  function AttemptStep(first: U16, replies: nat -> nat -> Reply): (Status, nat) -> Status
  {
    (st: Status, k: nat) => Poll(st, SeqIdOf(first, k), replies(k), 0).0
  }

  /** Attempts `j` .. `n-1` left `final`, and each attempt but the last
      left its own id unanswered. */
  predicate FirstAnswerLast(step: (Status, nat) -> Status, st: Status, first: U16, j: nat, n: nat, final: Status)
  {
    final == Iterate(step, st, j, n) &&
    forall k :: j < k < n ==> Iterate(step, st, j, k).lastSeqId != SeqIdOf(first, k - 1)
  }

  /** The retry loop stops at the first attempt whose id is answered: the
      status it ends with is that after all its attempts, and every attempt
      before the last left its own id unanswered. */
  lemma {:induction false} RunStopsAtFirstAnswer(st: Status, first: U16, replies: nat -> nat -> Reply, j: nat)
    requires j < ATTEMPTS
    ensures var r := Run(st, first, replies, j);
      FirstAnswerLast(AttemptStep(first, replies), st, first, j, r.attempts, r.status)
    decreases ATTEMPTS - j, 1
  {
    RunIsContinue(st, first, replies, j);
    var st1 := AttemptStep(first, replies)(st, j);
    if Continue(st1, first, replies, j).attempts > j + 1 {
      ContinueStopsLater(st, st1, first, replies, j);
    } else {
      ContinueStopsNow(st, st1, first, replies, j);
    }
  }

  /** Attempt `j` was answered or was the last one: it is the only one. */
  lemma ContinueStopsNow(st: Status, st1: Status, first: U16, replies: nat -> nat -> Reply, j: nat)
    requires j < ATTEMPTS && st1 == AttemptStep(first, replies)(st, j)
    requires Continue(st1, first, replies, j).attempts <= j + 1
    ensures var r := Continue(st1, first, replies, j);
      FirstAnswerLast(AttemptStep(first, replies), st, first, j, r.attempts, r.status)
  {
    ContinueStops(st1, first, replies, j);
    assert Iterate(AttemptStep(first, replies), st, j, j + 1) == st1;
  }

  /** Attempt `j` was not answered: the attempts after it stopped at the
      first answer, so all of them from `j` did. */
  lemma {:induction false} ContinueStopsLater(st: Status, st1: Status, first: U16, replies: nat -> nat -> Reply, j: nat)
    requires j < ATTEMPTS && st1 == AttemptStep(first, replies)(st, j)
    requires Continue(st1, first, replies, j).attempts > j + 1
    ensures var r := Continue(st1, first, replies, j);
      FirstAnswerLast(AttemptStep(first, replies), st, first, j, r.attempts, r.status)
    decreases ATTEMPTS - j, 0
  {
    var r := Continue(st1, first, replies, j);
    ContinueIsRun(st1, first, replies, j);
    RunStopsAtFirstAnswer(st1, first, replies, j + 1);
    UnansweredBefore(AttemptStep(first, replies), st, st1, first, j, r.attempts, r.status);
  }

  /** Attempt `j` is one step followed by its end. */
  lemma RunIsContinue(st: Status, first: U16, replies: nat -> nat -> Reply, j: nat)
    requires j < ATTEMPTS
    ensures Run(st, first, replies, j) == Continue(AttemptStep(first, replies)(st, j), first, replies, j)
  {
  }

  /** An attempt that is not the last goes on to the next one. */
  lemma ContinueIsRun(st: Status, first: U16, replies: nat -> nat -> Reply, j: nat)
    requires j < ATTEMPTS && Continue(st, first, replies, j).attempts > j + 1
    ensures st.lastSeqId != SeqIdOf(first, j) && j + 1 < ATTEMPTS
    ensures Continue(st, first, replies, j) == Run(st, first, replies, j + 1)
  {
    ContinueStops(st, first, replies, j);
  }

  /** An attempt `j` that left its id unanswered, followed by attempts that
      stopped at the first answer, stopped at the first answer from `j`. */
  lemma UnansweredBefore(step: (Status, nat) -> Status, st: Status, st1: Status, first: U16, j: nat, n: nat, final: Status)
    requires j + 1 < n && st1 == step(st, j) && st1.lastSeqId != SeqIdOf(first, j)
    requires FirstAnswerLast(step, st1, first, j + 1, n, final)
    ensures FirstAnswerLast(step, st, first, j, n, final)
  {
    forall k | j < k <= n
      ensures Iterate(step, st, j, k) == Iterate(step, st1, j + 1, k)
    {
      IterateFirst(step, st, j, k);
    }
  }

  /** esc32SendReliably's result: `lastAck` if the last sequence id was
      answered, else 0. */
  function ReliableResult(o: Outcome): int
  {
    if o.status.lastSeqId == o.seqId then o.status.lastAck else 0
  }

  /** esc32GetParamId's result: `paramId` if the last sequence id was
      answered, else -1. */
  function ParamIdResult(o: Outcome): int
  {
    if o.status.lastSeqId == o.seqId then o.status.paramId else -1
  }

  /** 1 comes back only when the last frame was answered and the last answer
      recorded was an ACK; a NACK or five unanswered attempts give 0. */
  lemma ReliableResultMeaning(o: Outcome)
    ensures ReliableResult(o) == 1 <==> o.status.lastSeqId == o.seqId && o.status.lastAck == 1
    ensures ReliableResult(o) == 0 <==> o.status.lastSeqId != o.seqId || o.status.lastAck == 0
  {
  }

  /** No reply ever answers `seqId` when every poll is silent. */
  lemma {:induction false} SilentPoll(st: Status, seqId: U16, replies: nat -> Reply, i: nat)
    requires i < POLLS
    requires forall k :: replies(k) == Silent
    ensures Poll(st, seqId, replies, i) == (st, POLLS) || (st.lastSeqId == seqId && Poll(st, seqId, replies, i) == (st, i + 1))
    decreases POLLS - i
  {
    if st.lastSeqId != seqId && i + 1 < POLLS {
      SilentPoll(st, seqId, replies, i + 1);
    }
  }

  /** A device that never answers: five frames go out, each polled 500 times,
      and the result is 0 (esc32SendReliably) or -1 (esc32GetParamId) as long
      as no stale `lastSeqId` equals one of the five sequence ids. */
  lemma {:induction false} SilentDeviceExhausts(st: Status, first: U16, replies: nat -> nat -> Reply, j: nat)
    requires j < ATTEMPTS
    requires forall a, b :: replies(a)(b) == Silent
    requires forall k :: j <= k < ATTEMPTS ==> st.lastSeqId != SeqIdOf(first, k)
    ensures Run(st, first, replies, j).attempts == ATTEMPTS
    ensures Run(st, first, replies, j).status == st
    ensures ReliableResult(Run(st, first, replies, j)) == 0
    ensures ParamIdResult(Run(st, first, replies, j)) == -1
    decreases ATTEMPTS - j
  {
    SilentPoll(st, SeqIdOf(first, j), replies(j), 0);
    if j + 1 < ATTEMPTS {
      SilentDeviceExhausts(st, first, replies, j + 1);
    }
  }

  /** A device that acknowledges the first frame within its first poll: one
      frame, result 1. */
  lemma FirstAckSucceeds(st: Status, seqId: U16, replies: nat -> nat -> Reply, count: Byte, paramId: I16)
    requires replies(0)(0) == Control(count, BINARY_COMMAND_ACK, seqId, paramId, true)
    ensures Run(st, seqId, replies, 0).attempts == 1
    ensures ReliableResult(Run(st, seqId, replies, 0)) == 1
   {
    assert SeqIdOf(seqId, 0) == seqId;
    assert Poll(st, seqId, replies(0), 0).0 == Apply(st, replies(0)(0));
  }

  /** A NACK to the first frame stops the retries too, with result 0. */
  lemma FirstNackStops(st: Status, seqId: U16, replies: nat -> nat -> Reply, count: Byte, paramId: I16)
    requires replies(0)(0) == Control(count, BINARY_COMMAND_NACK, seqId, paramId, true)
    ensures Run(st, seqId, replies, 0).attempts == 1
    ensures ReliableResult(Run(st, seqId, replies, 0)) == 0
   {
    assert SeqIdOf(seqId, 0) == seqId;
    assert Poll(st, seqId, replies(0), 0).0 == Apply(st, replies(0)(0));
  }

  /** A device that stays silent during attempts `j` .. `k-1` and whose first
      reply in attempt `k` is an accepted ACK of that attempt's id: `k+1`
      frames in all, result 1, as long as no stale `lastSeqId` equals one of
      the earlier ids. */
  lemma {:induction false} AckAfterSilence(st: Status, first: U16, replies: nat -> nat -> Reply, j: nat, k: nat,
                                           count: Byte, paramId: I16)
    requires j <= k < ATTEMPTS
    requires forall a: nat, b: nat :: a < k ==> replies(a)(b) == Silent
    requires replies(k)(0) == Control(count, BINARY_COMMAND_ACK, SeqIdOf(first, k), paramId, true)
    requires forall m :: j <= m < k ==> st.lastSeqId != SeqIdOf(first, m)
    ensures Run(st, first, replies, j).attempts == k + 1
    ensures ReliableResult(Run(st, first, replies, j)) == 1
    decreases k - j
  {
    if j < k {
      SilentPoll(st, SeqIdOf(first, j), replies(j), 0);
      AckAfterSilence(st, first, replies, j + 1, k, count, paramId);
    } else {
      assert Poll(st, SeqIdOf(first, k), replies(k), 0).0 == Apply(st, replies(k)(0));
    }
  }

  /** The five sequence ids of one request are pairwise distinct. */
  lemma FreshSeqIds(first: U16, k: nat, m: nat)
    requires k < m < ATTEMPTS
    ensures SeqIdOf(first, k) != SeqIdOf(first, m)
  {
  }
}
