/** The status codes and the waiting loop, stated against their inverses and
    on sample runs. */
module TransferProperties {
  import opened Wrappers
  import opened Transfer

  /** A known state is named by exactly one number, and `True` and `False`
      are the numbers 1 and 0; every other value is `Unknown`. */
  lemma NormaliseReads(raw: Json)
    ensures Normalise(raw) != Unknown ==>
      raw == JInt(Code(Normalise(raw))) || (Code(Normalise(raw)) <= 1 && raw == JBool(Code(Normalise(raw)) == 1))
    ensures raw.JInt? && 0 <= raw.i <= 4 ==> Normalise(raw) != Unknown && Code(Normalise(raw)) == raw.i
    ensures raw.JBool? ==> Normalise(raw) != Unknown && Code(Normalise(raw)) == (if raw.b then 1 else 0)
  {
  }

  /** Reading back the number of a known state gives the state. */
  lemma CodeRoundTrip(s: State)
    requires s != Unknown
    ensures Normalise(JInt(Code(s))) == s
  {
  }

  /** `status` is read before `task_status`, a response with neither is
      `Unknown`, and the progress and message fall back likewise. */
  lemma StatusFallbacks(d: TaskData)
    ensures d.status.Some? ==> CheckTaskStatus(d).state == Normalise(d.status.value)
    ensures d.status.None? && d.taskStatus.Some? ==> CheckTaskStatus(d).state == Normalise(d.taskStatus.value)
    ensures d.status.None? && d.taskStatus.None? ==>
      CheckTaskStatus(d).state == Unknown && CheckTaskStatus(d).rawStatus == JStr("unknown")
    ensures d.progress.None? && d.percent.None? ==> CheckTaskStatus(d).progress == JInt(0)
    ensures d.message.None? && d.msg.None? ==> CheckTaskStatus(d).message == JStr("")
  {
  }

  /** If no answer ever ends the job, the wait gives up at the first test of
      the loop condition that finds the time used up. */
  lemma {:induction false} NonTerminalTimesOut(answers: nat -> TaskData, elapsed: nat -> real, timeout: int, k: nat)
    requires Clock(elapsed)
    requires forall j: nat :: !Terminal(CheckTaskStatus(answers(j)).state)
    ensures !Outcome(answers, elapsed, timeout, k).0
    ensures elapsed(Outcome(answers, elapsed, timeout, k).1) >= timeout as real
    ensures forall j :: k <= j < Outcome(answers, elapsed, timeout, k).1 ==> elapsed(j) < timeout as real
    decreases timeout - 2 * k
  {
    ClockBound(elapsed, k);
    if elapsed(k) < timeout as real {
      NonTerminalTimesOut(answers, elapsed, timeout, k + 1);
    }
  }

  /** The job answers `pending`, `processing`, then `failed`; the clock moves
      two seconds per poll and the limit is 300 seconds. */
  function SampleAnswers(k: nat): TaskData {
    var code := if k == 0 then 0 else if k == 1 then 1 else 3;
    TaskData(Some(JInt(code)), None, None, None, None, None)
  }

  function TwoSecondClock(k: nat): real {
    2.0 * k as real
  }

  /** A failure on the third poll ends the wait with `False` after three polls. */
  lemma FailureOnThirdPoll()
    ensures Clock(TwoSecondClock)
    ensures Outcome(SampleAnswers, TwoSecondClock, 300, 0) == (false, 3)
  {
    assert Clock(TwoSecondClock);
    assert CheckTaskStatus(SampleAnswers(0)).state == Pending;
    assert CheckTaskStatus(SampleAnswers(1)).state == Processing;
    assert CheckTaskStatus(SampleAnswers(2)).state == Failed;
  }

  /** A job that is still processing when the limit of 5 seconds passes is
      polled three times, at 0, 2 and 4 seconds. */
  function Forever(k: nat): TaskData {
    TaskData(Some(JInt(1)), None, None, None, None, None)
  }

  lemma TimeoutAfterThreePolls()
    ensures Clock(TwoSecondClock)
    ensures Outcome(Forever, TwoSecondClock, 5, 0) == (false, 3)
  {
    assert Clock(TwoSecondClock);
    assert forall k: nat :: CheckTaskStatus(Forever(k)).state == Processing;
    assert TwoSecondClock(3) == 6.0;
  }
}
