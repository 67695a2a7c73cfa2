/** Polling a task until it stops, with a pause that doubles up to a cap (client/task.go). Times are in milliseconds. */
module WaitTask {
  import opened Wrappers

  const FIRST_INTERVAL := 500
  const MAX_INTERVAL := 3000

  /** What one status request gives. */
  datatype Poll = Failed | Running | Stopped(exitStatus: string)

  datatype WaitError = Cancelled | PollFailed | TaskFailed(exitStatus: string)

  // The pause before poll k.
  function Interval(k: nat): (i: nat)
    ensures FIRST_INTERVAL <= i <= MAX_INTERVAL
  {
    if k == 0 then FIRST_INTERVAL
    else if Interval(k - 1) >= MAX_INTERVAL then Interval(k - 1)
    else if Interval(k - 1) * 2 > MAX_INTERVAL then MAX_INTERVAL
    else Interval(k - 1) * 2
  }

  // When poll k is made, if requests take no time.
  function PollTime(k: nat): nat {
    if k == 0 then Interval(0) else PollTime(k - 1) + Interval(k)
  }

  /** Poll k is the one that ends the wait: none before it saw the task stopped, failed or was cut short. */
  ghost predicate EndsAt(poll: nat -> Poll, cancelled: nat -> bool, k: nat) {
    && (cancelled(k) || !poll(k).Running?)
    && forall i: nat :: i < k ==> !cancelled(i) && poll(i).Running?
  }

  // What the poll that ends the wait makes of it.
  function ResultAt(poll: nat -> Poll, cancelled: nat -> bool, k: nat): Result<(), WaitError>
    requires cancelled(k) || !poll(k).Running?
  {
    if cancelled(k) then Err(Cancelled)
    else
      match poll(k)
      case Failed => Err(PollFailed)
      case Stopped(exitStatus) => if exitStatus == "OK" then Ok(()) else Err(TaskFailed(exitStatus))
  }

  // The time spent in the pauses before the first n polls.
  function Slept(n: nat): nat {
    if n == 0 then 0 else PollTime(n - 1)
  }

  /** The wait, watched for the first polls up to a horizon. The replies and cancellations are those the run meets. None
      means that the wait is still going on; a task that never ends keeps it going at every horizon. slept does not count a
      pause that was cut short. */
  method WaitTask(poll: nat -> Poll, cancelled: nat -> bool, horizon: nat)
    returns (result: Option<Result<(), WaitError>>, polls: nat, slept: nat)
    ensures result.None? <==> forall k: nat :: k < horizon ==> !cancelled(k) && poll(k).Running?
    ensures result.None? ==> polls == horizon && slept == Slept(horizon)
    ensures forall k: nat :: k < horizon && EndsAt(poll, cancelled, k) ==>
              && result == Some(ResultAt(poll, cancelled, k))
              && polls == (if cancelled(k) then k else k + 1) && slept == Slept(polls)
    ensures result == Some(Ok(())) <==>
            exists k: nat :: k < horizon && EndsAt(poll, cancelled, k) && !cancelled(k) && poll(k) == Stopped("OK")
    ensures forall k: nat :: k < horizon && EndsAt(poll, cancelled, k) ==>
              && (cancelled(k) ==> result == Some(Err(Cancelled)))
              && (!cancelled(k) && poll(k).Failed? ==> result == Some(Err(PollFailed)))
              && (!cancelled(k) && poll(k).Stopped? && poll(k).exitStatus != "OK" ==>
                    result == Some(Err(TaskFailed(poll(k).exitStatus))))
  {
    var pollInterval := FIRST_INTERVAL;
    polls, slept := 0, 0;
    while polls < horizon
      invariant polls <= horizon && pollInterval == Interval(polls) && slept == Slept(polls)
      invariant forall k: nat :: k < polls ==> !cancelled(k) && poll(k).Running?
    {
      if cancelled(polls) {
        return Some(Err(Cancelled)), polls, slept;
      }
      slept := slept + pollInterval;
      var status := poll(polls);
      polls := polls + 1;
      match status
      case Failed => return Some(Err(PollFailed)), polls, slept;
      case Stopped(exitStatus) =>
        if exitStatus != "OK" {
          return Some(Err(TaskFailed(exitStatus))), polls, slept;
        }
        return Some(Ok(())), polls, slept;
      case Running =>
        if pollInterval < MAX_INTERVAL {
          pollInterval := pollInterval * 2;
          if pollInterval > MAX_INTERVAL {
            pollInterval := MAX_INTERVAL;
          }
        }
    }
    return None, polls, slept;
  }

  /** The polls are made after 0.5, 1.5 and 3.5 seconds, and then every 3 seconds. */
  lemma {:induction false} PollTimes(k: nat)
    ensures Interval(k) == if k < 3 then [500, 1000, 2000][k] else 3000
    ensures PollTime(k) == if k < 3 then [500, 1500, 3500][k] else 3500 + 3000 * (k - 2)
  {
    if k == 0 {
    } else {
      PollTimes(k - 1);
    }
  }

  /** A task that stops T milliseconds after the wait began is reported at most 3 seconds later, before 2T + 500, and after
      at most floor(D / 3000) + 2 polls, D being the time of the report. */
  lemma PollingBound(poll: nat -> Poll, cancelled: nat -> bool, stopTime: nat, k: nat)
    requires EndsAt(poll, cancelled, k)
    requires forall i: nat :: !cancelled(i) && poll(i) != Failed
    requires forall i: nat :: poll(i).Stopped? <==> stopTime <= PollTime(i)
    ensures stopTime <= PollTime(k) <= stopTime + 3000
    ensures PollTime(k) <= 2 * stopTime + 500
    ensures k + 1 <= PollTime(k) / 3000 + 2
  {
    PollTimes(k);
    if k > 0 {
      PollTimes(k - 1);
      assert PollTime(k - 1) < stopTime;
    }
  }

  /** Such a task does end the wait, so the bound is about every task. */
  lemma StoppedTaskIsSeen(poll: nat -> Poll, cancelled: nat -> bool, stopTime: nat) returns (k: nat)
    requires forall i: nat :: !cancelled(i) && poll(i) != Failed
    requires forall i: nat :: poll(i).Stopped? <==> stopTime <= PollTime(i)
    ensures EndsAt(poll, cancelled, k)
  {
    k := 0;
    while PollTime(k) < stopTime
      invariant forall i: nat :: i < k ==> poll(i).Running?
      decreases stopTime - PollTime(k)
    {
      assert !poll(k).Stopped?;
      k := k + 1;
    }
  }
}
