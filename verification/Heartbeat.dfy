/** The heartbeat thread (app/core/heartbeat.py): its retry delays, what one beat does to the license
    state, and its loop with the callers that wake or stop it. */
module Heartbeat {
  import opened Options
  import opened LicenseToken
  import opened LicenseModel
  import opened LicenseWorker

  function Pow2(n: nat): nat { if n == 0 then 1 else 2 * Pow2(n - 1) }

  function Min(a: int, b: int): int { if a <= b then a else b }

  /** The delay after the n-th failure in a row. */
  function Delay(retry: int, maxRetry: int, interval: int, n: nat): int
    requires n > 0
  {
    Min(Min(retry * Pow2(n - 1), maxRetry), interval)
  }

  /** What client.heartbeat comes to. */
  datatype Outcome =
    ServerError | Unreachable | Rejected | NotActivated | Broken | Answered(reply: Reply, nonce: string)

  class HeartbeatService {
    const intervalSeconds: int
    const retrySeconds: int
    const maxRetrySeconds: int
    const worker: Worker
    var consecutiveFailures: nat

    constructor (worker: Worker, interval: int, retry: int, maxRetry: int)
      ensures consecutiveFailures == 0 && this.worker == worker
      ensures intervalSeconds == interval && retrySeconds == retry && maxRetrySeconds == maxRetry
    {
      this.worker, intervalSeconds, retrySeconds, maxRetrySeconds := worker, interval, retry, maxRetry;
      consecutiveFailures := 0;
    }

    method NextDelay(succeeded: bool) returns (delay: int)
      modifies this
      ensures consecutiveFailures == if succeeded then 0 else old(consecutiveFailures) + 1
      ensures delay == if succeeded then intervalSeconds
                       else Delay(retrySeconds, maxRetrySeconds, intervalSeconds, consecutiveFailures)
    {
      if succeeded {
        consecutiveFailures := 0;
        return intervalSeconds;
      }
      consecutiveFailures := consecutiveFailures + 1;
      var backoff := retrySeconds * Pow2(consecutiveFailures - 1);
      delay := Min(Min(backoff, maxRetrySeconds), intervalSeconds);
    }

    /** An outage flags the state and is retried; a verdict blocks at once and is not; an answer refreshes. */
    method RunOnce(outcome: Outcome, now: Time, seen: Time, ok: bool, read: Time) returns (succeeded: bool)
      modifies worker, worker.store
      ensures succeeded <==> outcome.Rejected? || outcome.NotActivated? || outcome.Answered?
      ensures (worker.Globals(), worker.store.Contents()) ==
              var p, st := old(worker.Globals()), old(worker.store.Contents());
              match outcome
              case ServerError => MarkOffline(worker.setup, p, st, seen, ok)
              case Unreachable => MarkOffline(worker.setup, p, st, seen, ok)
              case Rejected => MarkRejected(worker.setup, p, st, now, seen, ok)
              case NotActivated => (p, st)
              case Broken => (p, st)
              case Answered(reply, nonce) =>
                Refreshed(worker.setup, p, st, ClientValidate(worker.setup, st, reply, nonce), now, seen, ok, read)
    {
      match outcome {
        case ServerError => worker.MarkLicenseServerOffline(seen, ok); succeeded := false;
        case Unreachable => worker.MarkLicenseServerOffline(seen, ok); succeeded := false;
        case Rejected => worker.MarkLicenseRejected(now, seen, ok); succeeded := true;
        case NotActivated => succeeded := true;
        case Broken => succeeded := false;
        case Answered(reply, nonce) =>
          var _ := worker.RefreshLicenseState(reply, nonce, now, seen, ok, read);
          succeeded := true;
      }
    }
  }

  // ---------- the delays ----------

  lemma {:induction false} Pow2Grows(n: nat, m: nat)
    requires n <= m
    ensures 1 <= Pow2(n) <= Pow2(m)
    decreases m
  {
    if m > 0 {
      Pow2Grows(if n < m then n else m - 1, m - 1);
    }
  }

  /** With positive settings, the delays of an outage are positive, never get shorter, and never pass the
      ceiling or the normal interval. */
  lemma DelaysAreSane(retry: int, maxRetry: int, interval: int, n: nat, m: nat)
    requires retry > 0 && maxRetry > 0 && interval > 0 && 0 < n <= m
    ensures 0 < Delay(retry, maxRetry, interval, n) <= Delay(retry, maxRetry, interval, m) <= Min(maxRetry, interval)
  {
    Pow2Grows(n - 1, m - 1);
    Scale(retry, Pow2(n - 1), Pow2(m - 1));
  }

  lemma Scale(k: int, a: nat, b: nat)
    requires k > 0 && 1 <= a <= b
    ensures 0 < k * a <= k * b
  {
    assert k * b == k * a + k * (b - a);
  }

  function Least(a: int, b: int, c: int): (r: int)
    ensures r <= a && r <= b && r <= c && r in {a, b, c}
  {
    Min(Min(a, b), c)
  }

  /** An outage is retried after the retry time first, and after each further failure after twice the time before,
      up to the ceiling and the normal interval. */
  lemma DelaysDouble(retry: int, maxRetry: int, interval: int, n: nat)
    requires retry > 0 && maxRetry > 0 && interval > 0 && n > 0
    ensures Delay(retry, maxRetry, interval, 1) == Least(retry, maxRetry, interval)
    ensures Delay(retry, maxRetry, interval, n + 1) ==
            Least(2 * Delay(retry, maxRetry, interval, n), maxRetry, interval)
  {
    assert Pow2(n) == 2 * Pow2(n - 1);
    assert retry * Pow2(n) == 2 * (retry * Pow2(n - 1));
    assert Pow2(0) == 1 && retry * Pow2(0) == retry;
  }

  lemma {:induction false} Pow2Exceeds(n: nat)
    ensures Pow2(n) > n
  {
    if n > 0 {
      Pow2Exceeds(n - 1);
    }
  }

  /** And the ceiling is reached: a long outage is retried exactly every min(maxRetry, interval). */
  lemma DelaysReachTheCeiling(retry: int, maxRetry: int, interval: int, n: nat)
    requires retry > 0 && maxRetry > 0 && interval > 0 && n > Min(maxRetry, interval)
    ensures Delay(retry, maxRetry, interval, n) == Min(maxRetry, interval)
  {
    Pow2Exceeds(n - 1);
    Scale(Pow2(n - 1), 1, retry);
  }

  // ---------- the loop and its callers ----------

  /** Where the thread is: before the stop test (line 194), before clearing the wake event (198), before
      the beat (199), in the beat, in the wait (204), or gone. */
  datatype Place = BeforeTest | BeforeClear | BeforeBeat | InBeat | InWait | Gone

  /** `beats`: beats started so far. `sleeps`: waits that ran their full delay. */
  datatype Loop = Loop(place: Place, wake: bool, stop: bool, beats: nat, sleeps: nat)

  /** Advance: the thread's next step. Timeout: the wait runs out, possible only while the event is not set.
      stop() is two actions of its caller: SetStop, and then the wake event as BeatNow sets it. */
  datatype Action = Advance | Timeout | BeatNow | SetStop

  function Act(l: Loop, a: Action): Loop {
    match a
    case BeatNow => l.(wake := true)
    case SetStop => l.(stop := true)
    case Timeout => if l.place.InWait? && !l.wake then l.(place := BeforeTest, sleeps := l.sleeps + 1) else l
    case Advance =>
      match l.place
      case BeforeTest => l.(place := if l.stop then Gone else BeforeClear)
      case BeforeClear => l.(wake := false, place := BeforeBeat)
      case BeforeBeat => l.(beats := l.beats + 1, place := InBeat)
      case InBeat => l.(place := InWait)
      case InWait => if l.wake then l.(place := BeforeTest) else l
      case Gone => l
  }

  function Acts(l: Loop, actions: seq<Action>): Loop
    decreases |actions|
  {
    if actions == [] then l else Acts(Act(l, actions[0]), actions[1..])
  }

  function Advances(actions: seq<Action>): nat {
    if actions == [] then 0 else (if actions[0] == Advance then 1 else 0) + Advances(actions[1..])
  }

  /** How many steps of the thread until the next beat starts, if no wait holds it up. */
  function StepsToBeat(p: Place): nat {
    match p
    case BeforeBeat => 1
    case BeforeClear => 2
    case BeforeTest => 3
    case InWait => 4
    case InBeat => 5
    case Gone => 0
  }

  /** A beat is owed: the wake event is set, or has just been cleared for the beat about to start. */
  predicate Owed(l: Loop) { (l.wake || l.place.BeforeBeat?) && !l.place.Gone? && !l.stop }

  lemma {:induction false} OwedBeatComes(l: Loop, actions: seq<Action>)
    requires Owed(l) && SetStop !in actions
    ensures Acts(l, actions).beats > l.beats ||
            (Owed(Acts(l, actions)) && Acts(l, actions).sleeps == l.sleeps &&
             StepsToBeat(Acts(l, actions).place) + Advances(actions) == StepsToBeat(l.place))
    decreases |actions|
  {
    if actions != [] {
      var l' := Act(l, actions[0]);
      if l'.beats > l.beats {
        BeatsOnlyGrow(l', actions[1..]);
      } else {
        OwedBeatComes(l', actions[1..]);
      }
    }
  }

  lemma {:induction false} BeatsOnlyGrow(l: Loop, actions: seq<Action>)
    ensures Acts(l, actions).beats >= l.beats
    decreases |actions|
  {
    if actions != [] {
      BeatsOnlyGrow(Act(l, actions[0]), actions[1..]);
    }
  }

  /** No wake-up is lost. Wherever the thread is when beat_now is called, and whatever callers do next
      short of stopping it: until a beat has started after the call, no wait runs its full delay, and
      five steps of the thread are enough for that beat to start. */
  lemma NoWakeUpIsLost(l: Loop, actions: seq<Action>)
    requires !l.place.Gone? && !l.stop && SetStop !in actions
    ensures var l' := Acts(Act(l, BeatNow), actions);
            && (l'.beats == l.beats ==> l'.sleeps == l.sleeps)
            && (Advances(actions) >= 5 ==> l'.beats > l.beats)
  {
    OwedBeatComes(Act(l, BeatNow), actions);
  }

  /** Left alone, the loop goes round: a wait that runs out is followed by one beat, and the next wait. */
  lemma LeftAloneItGoesRound(l: Loop)
    requires l.place.InWait? && !l.wake && !l.stop
    ensures Acts(l, [Timeout, Advance, Advance, Advance, Advance]) == l.(beats := l.beats + 1, sleeps := l.sleeps + 1)
  {
    var l1 := Act(l, Timeout);
    var l2 := Act(Act(l1, Advance), Advance);
    assert [Timeout, Advance, Advance, Advance, Advance][1..] == [Advance, Advance, Advance, Advance];
    assert [Advance, Advance, Advance, Advance][1..] == [Advance, Advance, Advance];
    assert [Advance, Advance, Advance][1..] == [Advance, Advance] && [Advance, Advance][1..] == [Advance];
    assert [Advance][1..] == [];
    assert Acts(l2, [Advance, Advance]) == Acts(Act(l2, Advance), [Advance]) == Act(Act(l2, Advance), Advance);
    assert Acts(l1, [Advance, Advance, Advance, Advance]) == Acts(Act(l1, Advance), [Advance, Advance, Advance]) ==
      Acts(l2, [Advance, Advance]);
  }

  /** Steps of the thread from a stop to its end, on the ways that do not clear the wake event. */
  function StepsToEnd(p: Place): nat {
    match p
    case Gone => 0
    case BeforeTest => 1
    case InWait => 2
    case InBeat => 3
    case BeforeBeat => 4
    case BeforeClear => 0
  }

  lemma {:induction false} StoppingEndsWithin(l: Loop, actions: seq<Action>)
    requires l.stop && !l.place.BeforeClear? && (l.wake || l.place.Gone?)
    ensures Acts(l, actions).sleeps == l.sleeps
    ensures Advances(actions) >= StepsToEnd(l.place) <==> Acts(l, actions).place.Gone?
    decreases |actions|
  {
    if actions != [] {
      StoppingEndsWithin(Act(l, actions[0]), actions[1..]);
    }
  }

  /** No wait runs its full delay from here on, whatever happens. */
  ghost predicate NeverOversleeps(l: Loop) {
    forall actions :: Acts(l, actions).sleeps == l.sleeps
  }

  /** With the stop event set, waking the thread is in time unless it still stands before the clear. */
  lemma WakingIsInTimeIff(l: Loop)
    requires l.stop
    ensures !l.place.BeforeClear? <==> NeverOversleeps(Act(l, BeatNow))
  {
    var l' := Act(l, BeatNow);
    if l.place.BeforeClear? {
      var late := [Advance, Advance, Advance, Timeout];
      assert late[1..] == [Advance, Advance, Timeout];
      assert late[1..][1..] == [Advance, Timeout] && late[1..][1..][1..] == [Timeout];
      var l4 := Act(Act(Act(Act(l', Advance), Advance), Advance), Timeout);
      assert Acts(Act(Act(Act(l', Advance), Advance), Advance), [Timeout]) == l4;
      assert Acts(Act(Act(l', Advance), Advance), [Advance, Timeout]) == l4;
      assert Acts(Act(l', Advance), [Advance, Advance, Timeout]) == l4;
      assert Acts(l', late) == l4 && l4.sleeps == l.sleeps + 1;
    } else {
      forall actions ensures Acts(l', actions).sleeps == l'.sleeps {
        StoppingEndsWithin(l', actions);
      }
    }
  }

  /** Once the stop event is set the thread never comes before the clear again; it is there only if it was and
      has not moved. */
  lemma {:induction false} StillBeforeClear(l: Loop, actions: seq<Action>)
    requires l.stop
    ensures Acts(l, actions).stop
    ensures Acts(l, actions).place.BeforeClear? <==> l.place.BeforeClear? && Advances(actions) == 0
    decreases |actions|
  {
    if actions != [] {
      StillBeforeClear(Act(l, actions[0]), actions[1..]);
    }
  }

  /** stop() sets its two events one after the other, with anything in between. It is prompt exactly when the
      thread does not stand between its test of the one and its clearing of the other all the while: else
      its wake-up is cleared, and the thread can sleep a full delay with the stop already requested. */
  lemma StopIsPromptOutsideTheGap(l: Loop, between: seq<Action>)
    ensures NeverOversleeps(Act(Acts(Act(l, SetStop), between), BeatNow)) <==>
            !(l.place.BeforeClear? && Advances(between) == 0)
  {
    StillBeforeClear(Act(l, SetStop), between);
    WakingIsInTimeIff(Acts(Act(l, SetStop), between));
  }
}
