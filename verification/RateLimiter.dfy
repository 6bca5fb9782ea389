/** Limits on audit runs (app/core/audit_rate_limiter.py): a check that only counts rows keeps every window
    full at most. */
module RateLimiter {
  import opened Options

  const HOUR := 3_600_000_000  // microseconds, the resolution of datetime
  const DAY := 24 * HOUR

  datatype Limits = Limits(concurrent: int, hourly: int, daily: int)
  datatype Session = Session(user: int, started: int, running: bool)
  datatype Outcome = Allowed | TooManyRunning | HourlyExceeded | DailyExceeded

  const DEFAULTS := Limits(5, 20, 100)

  // ---------- counting rows ----------

  function Count(log: seq<Session>, p: Session -> bool): (n: nat)
    ensures n <= |log|
  {
    if log == [] then 0 else Count(log[..|log| - 1], p) + (if p(log[|log| - 1]) then 1 else 0)
  }

  function Running(user: int): Session -> bool { (s: Session) => s.user == user && s.running }

  function StartedAfter(user: int, t: int): Session -> bool { (s: Session) => s.user == user && s.started > t }

  /** In the half-open span of the given length. */
  function StartedIn(user: int, from: int, span: int): Session -> bool {
    (s: Session) => s.user == user && from <= s.started < from + span
  }

  lemma {:induction false} CountAppend(log: seq<Session>, s: Session, p: Session -> bool)
    ensures Count(log + [s], p) == Count(log, p) + (if p(s) then 1 else 0)
  {
    assert (log + [s])[..|log|] == log;
  }

  lemma {:induction false} CountFewer(log: seq<Session>, p: Session -> bool, q: Session -> bool)
    requires forall s :: s in log && p(s) ==> q(s)
    ensures Count(log, p) <= Count(log, q)
  {
    if log != [] {
      CountFewer(log[..|log| - 1], p, q);
    }
  }

  lemma {:induction false} CountChanged(log: seq<Session>, i: nat, s: Session, p: Session -> bool)
    requires i < |log|
    ensures Count(log[i := s], p) == Count(log, p) - (if p(log[i]) then 1 else 0) + (if p(s) then 1 else 0)
  {
    var n := |log| - 1;
    if i == n {
      assert log[i := s][..n] == log[..n];
    } else {
      assert log[i := s][..n] == log[..n][i := s];
      CountChanged(log[..n], i, s, p);
    }
  }

  // ---------- the check and the statistics ----------

  /** The clock is read anew for each window. */
  function Check(limits: Limits, log: seq<Session>, user: int, hourNow: int, dayNow: int): Outcome {
    if Count(log, Running(user)) >= limits.concurrent then TooManyRunning
    else if Count(log, StartedAfter(user, hourNow - HOUR)) >= limits.hourly then HourlyExceeded
    else if Count(log, StartedAfter(user, dayNow - DAY)) >= limits.daily then DailyExceeded
    else Allowed
  }

  datatype Stats = Stats(running: nat, runningAvailable: nat, hourly: nat, hourlyAvailable: nat, daily: nat,
    dailyAvailable: nat)

  function Available(limit: int, used: nat): nat { if limit - used > 0 then limit - used else 0 }

  class AuditRateLimiter {
    var maxConcurrentAudits: int
    var maxAuditsPerHour: int
    var maxAuditsPerDay: int

    constructor ()
      ensures Current() == DEFAULTS
    {
      maxConcurrentAudits, maxAuditsPerHour, maxAuditsPerDay := DEFAULTS.concurrent, DEFAULTS.hourly, DEFAULTS.daily;
    }

    function Current(): Limits
      reads this
    {
      Limits(maxConcurrentAudits, maxAuditsPerHour, maxAuditsPerDay)
    }

    method Configure(concurrent: Option<int>, hourly: Option<int>, daily: Option<int>)
      modifies this
      ensures Current() == Configured(old(Current()), concurrent, hourly, daily)
    {
      if concurrent.Some? {
        maxConcurrentAudits := concurrent.value;
      }
      if hourly.Some? {
        maxAuditsPerHour := hourly.value;
      }
      if daily.Some? {
        maxAuditsPerDay := daily.value;
      }
    }

    method CheckAuditLimit(log: seq<Session>, user: int, hourNow: int, dayNow: int) returns (r: Outcome)
      ensures r == Check(Current(), log, user, hourNow, dayNow)
    {
      var runningAudits := Count(log, Running(user));
      if runningAudits >= maxConcurrentAudits {
        return TooManyRunning;
      }
      var recentAudits := Count(log, StartedAfter(user, hourNow - HOUR));
      if recentAudits >= maxAuditsPerHour {
        return HourlyExceeded;
      }
      var dailyAudits := Count(log, StartedAfter(user, dayNow - DAY));
      if dailyAudits >= maxAuditsPerDay {
        return DailyExceeded;
      }
      return Allowed;
    }

    /** The figures shown to the user agree with the check: it passes exactly while all three are positive. */
    method GetUserAuditStats(log: seq<Session>, user: int, now: int) returns (r: Stats)
      ensures Check(Current(), log, user, now, now) == Allowed <==>
              r.runningAvailable > 0 && r.hourlyAvailable > 0 && r.dailyAvailable > 0
      ensures Check(Current(), log, user, now, now) == TooManyRunning <==> r.runningAvailable == 0
      ensures r.running == Count(log, Running(user)) && r.hourly == Count(log, StartedAfter(user, now - HOUR))
              && r.daily == Count(log, StartedAfter(user, now - DAY))
      ensures r.runningAvailable > 0 ==> r.running + r.runningAvailable == maxConcurrentAudits
      ensures r.hourlyAvailable > 0 ==> r.hourly + r.hourlyAvailable == maxAuditsPerHour
      ensures r.dailyAvailable > 0 ==> r.daily + r.dailyAvailable == maxAuditsPerDay
    {
      var running := Count(log, Running(user));
      var hourly := Count(log, StartedAfter(user, now - HOUR));
      var daily := Count(log, StartedAfter(user, now - DAY));
      r := Stats(running, Available(maxConcurrentAudits, running), hourly, Available(maxAuditsPerHour, hourly),
                 daily, Available(maxAuditsPerDay, daily));
    }
  }

  // ---------- runs ----------

  function Configured(limits: Limits, concurrent: Option<int>, hourly: Option<int>, daily: Option<int>): Limits {
    Limits(
      if concurrent.Some? then concurrent.value else limits.concurrent,
      if hourly.Some? then hourly.value else limits.hourly,
      if daily.Some? then daily.value else limits.daily)
  }

  datatype State = State(limits: Limits, log: seq<Session>)

  /** A start is a check and, if it passes, a new row stamped afterwards, with no other start of the user between. */
  datatype Event =
    | Start(user: int, hourNow: int, dayNow: int, at: int)
    | Finish(row: nat)
    | Configure(concurrent: Option<int>, hourly: Option<int>, daily: Option<int>)

  function Step(s: State, e: Event): State {
    match e
    case Start(user, hourNow, dayNow, at) =>
      if Check(s.limits, s.log, user, hourNow, dayNow) == Allowed
      then s.(log := s.log + [Session(user, at, true)])
      else s
    case Finish(row) =>
      if row < |s.log| then s.(log := s.log[row := s.log[row].(running := false)]) else s
    case Configure(concurrent, hourly, daily) => s.(limits := Configured(s.limits, concurrent, hourly, daily))
  }

  function Run(s: State, events: seq<Event>): State
    decreases |events|
  {
    if events == [] then s else Run(Step(s, events[0]), events[1..])
  }

  lemma {:induction false} RunAppend(s: State, a: seq<Event>, b: seq<Event>)
    ensures Run(s, a + b) == Run(Run(s, a), b)
    decreases |a|
  {
    if a == [] {
      assert a + b == b;
    } else {
      assert (a + b)[0] == a[0] && (a + b)[1..] == a[1..] + b;
      RunAppend(Step(s, a[0]), a[1..], b);
    }
  }

  function One(b: bool): nat { if b then 1 else 0 }

  /** What a start and a finish do to the counts: a start that passes is one more running audit of its user and one
      more start at its stamp, a finish is one less running, and nothing else moves a count. */
  lemma StepCounts(s: State, e: Event, user: int, t: int)
    ensures var passes := e.Start? && Check(s.limits, s.log, e.user, e.hourNow, e.dayNow) == Allowed;
            var ends := e.Finish? && e.row < |s.log| && s.log[e.row].running;
            var log := Step(s, e).log;
            && Count(log, Running(user)) + One(ends && s.log[e.row].user == user) ==
               Count(s.log, Running(user)) + One(passes && e.user == user)
            && Count(log, StartedAfter(user, t)) ==
               Count(s.log, StartedAfter(user, t)) + One(passes && e.user == user && e.at > t)
            && |log| == |s.log| + One(passes)
  {
    if e.Start? {
      CountAppend(s.log, Session(e.user, e.at, true), Running(user));
      CountAppend(s.log, Session(e.user, e.at, true), StartedAfter(user, t));
    } else if e.Finish? && e.row < |s.log| {
      CountChanged(s.log, e.row, s.log[e.row].(running := false), Running(user));
      CountChanged(s.log, e.row, s.log[e.row].(running := false), StartedAfter(user, t));
    }
  }

  /** The stamp of a start is not before the clock readings of its own check. Clocks of different starts
      are not compared: they may go back between one start and the next. */
  predicate StampedAfterCheck(e: Event) { e.Start? ==> e.hourNow <= e.at && e.dayNow <= e.at }

  predicate NoMoreThan(limits: Limits, most: Limits) {
    limits.concurrent <= most.concurrent && limits.hourly <= most.hourly && limits.daily <= most.daily
  }

  /** Nothing in the run raises a limit above these. */
  predicate NeverRaised(e: Event, most: Limits) {
    e.Configure? ==> NoMoreThan(Configured(most, e.concurrent, e.hourly, e.daily), most)
  }

  ghost predicate Kept(log: seq<Session>, user: int, most: Limits) {
    && Count(log, Running(user)) <= most.concurrent
    && (forall x :: Count(log, StartedIn(user, x, HOUR)) <= most.hourly)
    && (forall x :: Count(log, StartedIn(user, x, DAY)) <= most.daily)
  }

  /** All that a start adds to a span it lies in was counted by a check that counts from `after` on. */
  lemma StartFitsTheSpan(log: seq<Session>, s: Session, after: int, x: int, span: int, limit: int)
    requires s.started - span >= after && Count(log, StartedAfter(s.user, after)) < limit
    requires Count(log, StartedIn(s.user, x, span)) <= limit
    ensures Count(log + [s], StartedIn(s.user, x, span)) <= limit
  {
    CountAppend(log, s, StartedIn(s.user, x, span));
    if x <= s.started < x + span {
      CountFewer(log, StartedIn(s.user, x, span), StartedAfter(s.user, after));
    }
  }

  lemma StepKeeps(s: State, e: Event, user: int, most: Limits)
    requires NoMoreThan(s.limits, most) && StampedAfterCheck(e) && NeverRaised(e, most) && Kept(s.log, user, most)
    ensures NoMoreThan(Step(s, e).limits, most) && Kept(Step(s, e).log, user, most)
  {
    var log := Step(s, e).log;
    if e.Finish? && e.row < |s.log| {
      var done := s.log[e.row].(running := false);
      CountChanged(s.log, e.row, done, Running(user));
      forall x, span ensures Count(log, StartedIn(user, x, span)) == Count(s.log, StartedIn(user, x, span)) {
        CountChanged(s.log, e.row, done, StartedIn(user, x, span));
      }
    } else if log != s.log {
      var started := Session(e.user, e.at, true);
      CountAppend(s.log, started, Running(user));
      forall x ensures Count(log, StartedIn(user, x, HOUR)) <= most.hourly {
        if e.user == user {
          StartFitsTheSpan(s.log, started, e.hourNow - HOUR, x, HOUR, most.hourly);
        } else {
          CountAppend(s.log, started, StartedIn(user, x, HOUR));
        }
      }
      forall x ensures Count(log, StartedIn(user, x, DAY)) <= most.daily {
        if e.user == user {
          StartFitsTheSpan(s.log, started, e.dayNow - DAY, x, DAY, most.daily);
        } else {
          CountAppend(s.log, started, StartedIn(user, x, DAY));
        }
      }
    }
  }

  /** From an empty log, over every run and every sequence of clock readings: no hour anywhere on the time
      line holds more than the hourly limit of one user's starts, no day more than the daily one, and
      never more than the concurrent limit run. */
  lemma {:induction false} EveryWindowIsBounded(s: State, events: seq<Event>, user: int, most: Limits)
    requires NoMoreThan(s.limits, most) && Kept(s.log, user, most)
    requires forall e :: e in events ==> StampedAfterCheck(e) && NeverRaised(e, most)
    ensures Kept(Run(s, events).log, user, most)
    decreases |events|
  {
    if events != [] {
      StepKeeps(s, events[0], user, most);
      EveryWindowIsBounded(Step(s, events[0]), events[1..], user, most);
    }
  }

  lemma DefaultsAreKept(events: seq<Event>, user: int, x: int)
    requires forall e :: e in events ==> StampedAfterCheck(e) && !e.Configure?
    ensures var log := Run(State(DEFAULTS, []), events).log;
            Count(log, StartedIn(user, x, 3_600_000_000)) <= 20 && Count(log, StartedIn(user, x, 86_400_000_000)) <= 100
              && Count(log, Running(user)) <= 5
  {
    EveryWindowIsBounded(State(DEFAULTS, []), events, user, DEFAULTS);
  }

  /** No span of this length anywhere holds more than the limit. */
  ghost predicate SpansKept(log: seq<Session>, user: int, span: int, limit: int) {
    forall x :: Count(log, StartedIn(user, x, span)) <= limit
  }

  /** Whatever rows there are, a start that passes its check and is stamped at this time keeps every hour. */
  ghost predicate KeepsHours(limits: Limits, user: int, hourNow: int, dayNow: int, at: int) {
    forall log :: SpansKept(log, user, HOUR, limits.hourly) && Check(limits, log, user, hourNow, dayNow) == Allowed ==>
      SpansKept(log + [Session(user, at, true)], user, HOUR, limits.hourly)
  }

  /** The same for every day. */
  ghost predicate KeepsDays(limits: Limits, user: int, hourNow: int, dayNow: int, at: int) {
    forall log :: SpansKept(log, user, DAY, limits.daily) && Check(limits, log, user, hourNow, dayNow) == Allowed ==>
      SpansKept(log + [Session(user, at, true)], user, DAY, limits.daily)
  }

  /** The check passes for somebody. */
  predicate Positive(limits: Limits) { limits.concurrent > 0 && limits.hourly > 0 && limits.daily > 0 }

  /** n finished audits started at the same time. */
  function Burst(user: int, started: int, n: nat): seq<Session> {
    if n == 0 then [] else Burst(user, started, n - 1) + [Session(user, started, false)]
  }

  lemma {:induction false} BurstCounts(user: int, started: int, n: nat, p: Session -> bool)
    ensures Count(Burst(user, started, n), p) == if p(Session(user, started, false)) then n else 0
  {
    if n > 0 {
      BurstCounts(user, started, n - 1, p);
      CountAppend(Burst(user, started, n - 1), Session(user, started, false), p);
    }
  }

  /** A full span that ends where the stamp is, and that neither count of the check sees. */
  lemma BurstPasses(limits: Limits, user: int, at: int, span: int, n: nat, hourNow: int, dayNow: int)
    requires Positive(limits) && n > 0 && span > 0
    requires at - span < hourNow - HOUR || n < limits.hourly
    requires at - span < dayNow - DAY || n < limits.daily
    ensures var log := Burst(user, at - span + 1, n);
            && SpansKept(log, user, span, n)
            && Check(limits, log, user, hourNow, dayNow) == Allowed
            && !SpansKept(log + [Session(user, at, true)], user, span, n)
  {
    var x, s := at - span + 1, Session(user, at, true);
    var log := Burst(user, x, n);
    forall y ensures Count(log, StartedIn(user, y, span)) <= n {
      BurstCounts(user, x, n, StartedIn(user, y, span));
    }
    BurstCounts(user, x, n, Running(user));
    BurstCounts(user, x, n, StartedAfter(user, hourNow - HOUR));
    BurstCounts(user, x, n, StartedAfter(user, dayNow - DAY));
    BurstCounts(user, x, n, StartedIn(user, x, span));
    CountAppend(log, s, StartedIn(user, x, span));
    assert Count(log + [s], StartedIn(user, x, span)) == n + 1;
  }

  /** A start that passes, and its end. */
  lemma OneAudit(limits: Limits, log: seq<Session>, user: int, at: int)
    requires Check(limits, log, user, at, at) == Allowed
    ensures Run(State(limits, log), [Start(user, at, at, at), Finish(|log|)]) ==
            State(limits, log + [Session(user, at, false)])
  {
    var first, last := Start(user, at, at, at), Finish(|log|);
    var s := Step(State(limits, log), first);
    assert [first, last][1..] == [last] && [last][1..] == [];
    assert s.log[|log| := Session(user, at, false)] == log + [Session(user, at, false)];
    assert Run(s, [last]) == Run(Step(s, last), []) == Step(s, last);
    assert Run(State(limits, log), [first, last]) == Run(s, [last]);
  }

  lemma BurstLeavesRoom(limits: Limits, user: int, at: int, n: nat)
    requires limits.concurrent > 0 && limits.hourly > n && limits.daily > n
    ensures Check(limits, Burst(user, at, n), user, at, at) == Allowed
  {
    BurstCounts(user, at, n, Running(user));
    BurstCounts(user, at, n, StartedAfter(user, at - HOUR));
    BurstCounts(user, at, n, StartedAfter(user, at - DAY));
  }

  lemma {:induction false} BurstIsRun(limits: Limits, user: int, at: int, n: nat) returns (events: seq<Event>)
    requires limits.concurrent > 0 && limits.hourly > n && limits.daily > n
    ensures Run(State(limits, []), events) == State(limits, Burst(user, at, n))
  {
    events := [];
    if n > 0 {
      var before := BurstIsRun(limits, user, at, n - 1);
      var log := Burst(user, at, n - 1);
      BurstLeavesRoom(limits, user, at, n - 1);
      OneAudit(limits, log, user, at);
      events := before + [Start(user, at, at, at), Finish(|log|)];
      RunAppend(State(limits, []), before, [Start(user, at, at, at), Finish(|log|)]);
    }
  }

  /** A burst is reached from no rows, whatever the limits are: with limits raised for a while. */
  lemma BurstIsReached(limits: Limits, user: int, at: int, n: nat) returns (events: seq<Event>)
    ensures Run(State(limits, []), events) == State(limits, Burst(user, at, n))
  {
    var high := Limits(1, n + 1, n + 1);
    var audits := BurstIsRun(high, user, at, n);
    var raise := [Event.Configure(Some(1), Some(n + 1), Some(n + 1))];
    var lower := [Event.Configure(Some(limits.concurrent), Some(limits.hourly), Some(limits.daily))];
    events := raise + audits + lower;
    RunAppend(State(limits, []), raise + audits, lower);
    RunAppend(State(limits, []), raise, audits);
    assert raise[1..] == [] && lower[1..] == [];
  }

  /** That the stamp follows the reading of the hourly count is what keeps the hours. With a clock set back
      between the two, an hour that is full, but that the check no longer sees, takes one start more; unless
      the daily count still sees it and its limit is no higher. */
  lemma HoursAreKeptIff(limits: Limits, user: int, hourNow: int, dayNow: int, at: int)
    ensures KeepsHours(limits, user, hourNow, dayNow, at) <==>
            !Positive(limits) || hourNow <= at || (dayNow - at <= DAY - HOUR && limits.daily <= limits.hourly)
  {
    var s, n := Session(user, at, true), limits.hourly;
    if !Positive(limits) || hourNow <= at || (dayNow - at <= DAY - HOUR && limits.daily <= n) {
      forall log | SpansKept(log, user, HOUR, n) && Check(limits, log, user, hourNow, dayNow) == Allowed
        ensures SpansKept(log + [s], user, HOUR, n)
      {
        forall x ensures Count(log + [s], StartedIn(user, x, HOUR)) <= n {
          if hourNow <= at {
            StartFitsTheSpan(log, s, hourNow - HOUR, x, HOUR, n);
          } else {
            StartFitsTheSpan(log, s, dayNow - DAY, x, HOUR, n);
          }
        }
      }
    } else {
      BurstPasses(limits, user, at, HOUR, n, hourNow, dayNow);
    }
  }

  /** And that it follows the reading of the daily count is what keeps the days, unless the hourly count sees
      a whole day back from the stamp and its limit is no higher. */
  lemma DaysAreKeptIff(limits: Limits, user: int, hourNow: int, dayNow: int, at: int)
    ensures KeepsDays(limits, user, hourNow, dayNow, at) <==>
            !Positive(limits) || dayNow <= at || (at - hourNow >= DAY - HOUR && limits.hourly <= limits.daily)
  {
    var s, n := Session(user, at, true), limits.daily;
    if !Positive(limits) || dayNow <= at || (at - hourNow >= DAY - HOUR && limits.hourly <= n) {
      forall log | SpansKept(log, user, DAY, n) && Check(limits, log, user, hourNow, dayNow) == Allowed
        ensures SpansKept(log + [s], user, DAY, n)
      {
        forall x ensures Count(log + [s], StartedIn(user, x, DAY)) <= n {
          if dayNow <= at {
            StartFitsTheSpan(log, s, dayNow - DAY, x, DAY, n);
          } else {
            StartFitsTheSpan(log, s, hourNow - HOUR, x, DAY, n);
          }
        }
      }
    } else {
      BurstPasses(limits, user, at, DAY, n, hourNow, dayNow);
    }
  }

  // ---------- refusals are deserved and pass ----------

  /** One user's audits never count against another. */
  lemma OthersDoNotCount(limits: Limits, log: seq<Session>, s: Session, user: int, hourNow: int, dayNow: int)
    requires s.user != user
    ensures Check(limits, log + [s], user, hourNow, dayNow) == Check(limits, log, user, hourNow, dayNow)
  {
    CountAppend(log, s, Running(user));
    CountAppend(log, s, StartedAfter(user, hourNow - HOUR));
    CountAppend(log, s, StartedAfter(user, dayNow - DAY));
  }

  lemma {:induction false} NoneCounted(log: seq<Session>, p: Session -> bool)
    requires forall s :: s in log ==> !p(s)
    ensures Count(log, p) == 0
  {
    if log != [] {
      NoneCounted(log[..|log| - 1], p);
    }
  }

  /** Nothing keeps a user out for good: with positive limits, a day after the last start and with nothing
      running, the check passes. */
  lemma QuotaComesBack(limits: Limits, log: seq<Session>, user: int, now: int)
    requires Positive(limits)
    requires forall s :: s in log && s.user == user ==> !s.running && s.started <= now - 86_400_000_000
    ensures Check(limits, log, user, now, now) == Allowed
  {
    NoneCounted(log, Running(user));
    NoneCounted(log, StartedAfter(user, now - HOUR));
    NoneCounted(log, StartedAfter(user, now - DAY));
  }

  /** Within the hour the right comes back start by start: the check that refuses on the hourly limit alone
      passes as soon as the clock has left the oldest counted start an hour behind. */
  lemma HourlyRightComesBackByOne(limits: Limits, log: seq<Session>, user: int, now: int, later: int, oldest: nat)
    requires now <= later && oldest < |log| && log[oldest].user == user
    requires now - 3_600_000_000 < log[oldest].started <= later - 3_600_000_000
    requires Check(limits, log, user, now, now) == HourlyExceeded
    requires Count(log, StartedAfter(user, now - HOUR)) == limits.hourly
    ensures Check(limits, log, user, later, later) in {Allowed, DailyExceeded}
  {
    var p, q := StartedAfter(user, later - HOUR), StartedAfter(user, now - HOUR);
    var aged := log[oldest].(started := now - HOUR);
    CountChanged(log, oldest, aged, p);
    CountChanged(log, oldest, aged, q);
    CountFewer(log[oldest := aged], p, q);
  }
}
