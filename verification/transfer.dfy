/** The state of a transfer job and the loop that waits for it:
    `check_task_status` (quark_client.py:563-614) and `wait_task_complete`
    (quark_client.py:616-653).

    The server's answer to the k-th poll is a parameter, and so is the clock:
    `elapsed(k)` is what `time.time() - start_time` reads at the k-th test of
    the loop condition. */
module Transfer {
  import opened Wrappers

  /** The JSON scalars a status field can hold; floats are not modelled. */
  datatype Json = JNull | JBool(b: bool) | JInt(i: int) | JStr(s: string)

  /** The `data` object of a task response, one optional field per key read. */
  datatype TaskData = TaskData(
    status: Option<Json>,
    taskStatus: Option<Json>,
    progress: Option<Json>,
    percent: Option<Json>,
    message: Option<Json>,
    msg: Option<Json>)

  datatype State = Pending | Processing | Completed | Failed | Cancelled | Unknown

  /** The dictionary `check_task_status` returns. */
  datatype TaskStatus = TaskStatus(state: State, progress: Json, message: Json, rawStatus: Json)

  /** The number the server uses for a state; `Unknown` has none. */
  function Code(s: State): (k: int)
    requires s != Unknown
    ensures 0 <= k <= 4
  {
    match s
    case Pending => 0
    case Processing => 1
    case Completed => 2
    case Failed => 3
    case Cancelled => 4
  }

  /** `status_map.get(status, 'unknown')`: Python's `True` and `False` are the
      keys 1 and 0 of the map, every other value falls through. */
  function Normalise(raw: Json): State {
    var k := match raw
      case JInt(i) => i
      case JBool(b) => if b then 1 else 0
      case _ => -1;
    if k == 0 then Pending
    else if k == 1 then Processing
    else if k == 2 then Completed
    else if k == 3 then Failed
    else if k == 4 then Cancelled
    else Unknown
  }

  /** `d.get(key, default)`. */
  function Get(field: Option<Json>, default: Json): Json {
    if field.Some? then field.value else default
  }

  /** `check_task_status` on the `data` object of a task response. */
  function CheckTaskStatus(d: TaskData): TaskStatus {
    var raw := Get(d.status, Get(d.taskStatus, JStr("unknown")));
    TaskStatus(
      Normalise(raw),
      Get(d.progress, Get(d.percent, JInt(0))),
      Get(d.message, Get(d.msg, JStr(""))),
      raw)
  }

  /** The states that end the wait. */
  predicate Terminal(s: State) {
    s == Completed || s == Failed || s == Cancelled
  }

  /** What `on_progress` receives on each poll. */
  datatype Report = Report(progress: Json, state: State, message: Json)

  function ReportOf(s: TaskStatus): Report {
    Report(s.progress, s.state, s.message)
  }

  /** The clock advances by at least the two seconds slept between polls. */
  ghost predicate Clock(elapsed: nat -> real) {
    elapsed(0) >= 0.0 && forall k: nat :: Ticks(elapsed, k)
  }

  /** At least two seconds pass between the `k`-th and the next test. */
  predicate Ticks(elapsed: nat -> real, k: nat) {
    elapsed(k + 1) >= elapsed(k) + 2.0
  }

  lemma {:induction false} ClockBound(elapsed: nat -> real, k: nat)
    requires Clock(elapsed)
    ensures elapsed(k) >= 2.0 * k as real
  {
    if k > 0 {
      ClockBound(elapsed, k - 1);
      assert Ticks(elapsed, k - 1);
    }
  }

  /** The wait as a recursive definition: the outcome and the number of polls
      made, continuing from the `k`-th test of the loop condition. */
  function Outcome(answers: nat -> TaskData, elapsed: nat -> real, timeout: int, k: nat): (r: (bool, nat))
    requires Clock(elapsed)
    ensures r.1 >= k
    decreases timeout - 2 * k
  {
    ClockBound(elapsed, k);
    if elapsed(k) >= timeout as real then (false, k)
    else
      var s := CheckTaskStatus(answers(k)).state;
      if s == Completed then (true, k + 1)
      else if s == Failed || s == Cancelled then (false, k + 1)
      else Outcome(answers, elapsed, timeout, k + 1)
  }

  /** What a wait from the `k`-th test that ended with `ok` after `n` polls
      in all says: every poll from the `k`-th on started before the timeout,
      none but the last saw a terminal state, the result is `True` exactly
      when the last one saw completion, and the wait stopped on a terminal
      state or the timeout. */
  ghost predicate WaitFacts(answers: nat -> TaskData, elapsed: nat -> real, timeout: int, k: nat, ok: bool, n: nat) {
    (n == k <==> elapsed(k) >= timeout as real) &&
    (forall j :: k <= j < n ==> elapsed(j) < timeout as real) &&
    (forall j :: k <= j < n - 1 ==> !Terminal(CheckTaskStatus(answers(j)).state)) &&
    (ok <==> n > k && CheckTaskStatus(answers(n - 1)).state == Completed) &&
    (n <= k || Terminal(CheckTaskStatus(answers(n - 1)).state) || elapsed(n) >= timeout as real)
  }

  /** The outcome of the wait from the `k`-th test has the facts above. */
  lemma {:induction false} OutcomeFacts(answers: nat -> TaskData, elapsed: nat -> real, timeout: int, k: nat)
    requires Clock(elapsed)
    ensures WaitFacts(answers, elapsed, timeout, k,
      Outcome(answers, elapsed, timeout, k).0, Outcome(answers, elapsed, timeout, k).1)
    decreases timeout - 2 * k
  {
    ClockBound(elapsed, k);
    var s := CheckTaskStatus(answers(k)).state;
    if elapsed(k) >= timeout as real {
      assert Outcome(answers, elapsed, timeout, k) == (false, k);
      assert WaitFacts(answers, elapsed, timeout, k, false, k);
    } else if s == Completed {
      assert Outcome(answers, elapsed, timeout, k) == (true, k + 1);
      assert WaitFacts(answers, elapsed, timeout, k, true, k + 1);
    } else if s == Failed || s == Cancelled {
      assert Outcome(answers, elapsed, timeout, k) == (false, k + 1);
      assert WaitFacts(answers, elapsed, timeout, k, false, k + 1);
    } else {
      OutcomeFacts(answers, elapsed, timeout, k + 1);
      var r := Outcome(answers, elapsed, timeout, k + 1);
      assert Outcome(answers, elapsed, timeout, k) == r;
      assert WaitFacts(answers, elapsed, timeout, k + 1, r.0, r.1);
      if r.1 == k + 1 {
        assert elapsed(r.1) >= timeout as real && !r.0;
      }
      assert WaitFacts(answers, elapsed, timeout, k, r.0, r.1);
    }
  }

  /** What the result of the whole wait says about the polls it made. */
  lemma WaitEnds(answers: nat -> TaskData, elapsed: nat -> real, timeout: int, ok: bool, polls: nat)
    requires Clock(elapsed) && (ok, polls) == Outcome(answers, elapsed, timeout, 0)
    ensures forall j :: 0 <= j < polls ==> elapsed(j) < timeout as real
    ensures forall j :: 0 <= j < polls - 1 ==> !Terminal(CheckTaskStatus(answers(j)).state)
    ensures ok <==> polls > 0 && CheckTaskStatus(answers(polls - 1)).state == Completed
    ensures polls == 0 || Terminal(CheckTaskStatus(answers(polls - 1)).state) || elapsed(polls) >= timeout as real
    ensures timeout <= 0 ==> polls == 0 && !ok
  {
    OutcomeFacts(answers, elapsed, timeout, 0);
    assert WaitFacts(answers, elapsed, timeout, 0, ok, polls);
  }

  /** `wait_task_complete`: polls until a terminal state or the timeout, and
      hands each poll's report to the callback when there is one. */
  method WaitTaskComplete(answers: nat -> TaskData, elapsed: nat -> real, timeout: int, hasCallback: bool)
    returns (ok: bool, polls: nat, trace: seq<Report>)
    requires Clock(elapsed)
    ensures (ok, polls) == Outcome(answers, elapsed, timeout, 0)
    ensures forall j :: 0 <= j < polls ==> elapsed(j) < timeout as real
    ensures forall j :: 0 <= j < polls - 1 ==> !Terminal(CheckTaskStatus(answers(j)).state)
    ensures ok <==> polls > 0 && CheckTaskStatus(answers(polls - 1)).state == Completed
    ensures polls == 0 || Terminal(CheckTaskStatus(answers(polls - 1)).state) || elapsed(polls) >= timeout as real
    ensures timeout <= 0 ==> polls == 0 && !ok
    ensures hasCallback ==> |trace| == polls
    ensures hasCallback ==> forall j :: 0 <= j < polls ==> trace[j] == ReportOf(CheckTaskStatus(answers(j)))
    ensures !hasCallback ==> trace == []
  {
    polls := 0;
    trace := [];
    ok := false;
    while elapsed(polls) < timeout as real
      invariant Outcome(answers, elapsed, timeout, polls) == Outcome(answers, elapsed, timeout, 0)
      invariant !ok
      invariant hasCallback ==> |trace| == polls
      invariant hasCallback ==> forall j :: 0 <= j < polls ==> trace[j] == ReportOf(CheckTaskStatus(answers(j)))
      invariant !hasCallback ==> trace == []
      decreases timeout - 2 * polls
    {
      ClockBound(elapsed, polls);
      var status := CheckTaskStatus(answers(polls));
      if hasCallback {
        trace := trace + [ReportOf(status)];
      }
      polls := polls + 1;
      if Terminal(status.state) {
        ok := status.state == Completed;
        break;
      }
    }
    WaitEnds(answers, elapsed, timeout, ok, polls);
  }
}
