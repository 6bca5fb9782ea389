/** What a process grants as time passes: the plan, the pilot, nothing; across restarts; and only less
    and less until the next answer. */
module LicenseWindows {
  import opened Options
  import opened LicenseToken
  import opened LicenseModel
  import opened LicenseSystem

  /** The fields an entitlement is computed from. */
  predicate SameGrant(a: LicenseState, b: LicenseState) {
    && a.valid == b.valid
    && a.maxAssets == b.maxAssets
    && a.expiresAt == b.expiresAt
    && a.issuedAt == b.issuedAt
    && a.offlineLicense == b.offlineLicense
    && a.offlineUntil == b.offlineUntil
  }

  function Earliest(a: Time, b: Option<Time>): Time { if b.Some? && b.value < a then b.value else a }

  /** The licensing rule in one line per window, counted from the signed issue time: 48 hours the plan,
      30 more days at most the pilot's assets, then nothing; never past the expiry. */
  lemma Windows(setup: Setup, p: Proc, now: Time)
    requires Honest(setup, p) && p.state.valid && !p.state.offlineLicense && p.state.issuedAt.Some?
    requires !SetBack(p.maxSeen, now) && !SetBack(p.state.issuedAt, now)
    ensures var issued, day := p.state.issuedAt.value, 86_400_000_000;
            Entitlement(Get(p, now).0) ==
            if now <= Earliest(issued + 2 * day, p.state.expiresAt) then (true, p.state.maxAssets)
            else if now <= Earliest(issued + 32 * day, p.state.expiresAt)
                 then (true, Some(if p.state.maxAssets.Some? && p.state.maxAssets.value < 5 then p.state.maxAssets.value
                                  else 5))
            else (false, Some(0))
  {
  }

  /** A signed number is the limit (none below zero), null is unlimited, and anything else is the pilot's five. */
  predicate LimitAsSigned(limits: Limits, limit: Option<nat>) {
    var signed := if limits.Limits? then limits.maxAssets else Absent;
    && (signed.Null? <==> limit.None?)
    && (signed.Number? && signed.n >= 0 ==> limit == Some(signed.n))
    && (signed.Number? && signed.n < 0 ==> limit == Some(0))
    && (!signed.Null? && !signed.Number? ==> limit == Some(5))
  }

  /** The next signed answer gives the plan back in full, whatever the process had come down to: the limit is the
      signed one. */
  lemma NextAnswerRestoresThePlan(setup: Setup, p: Proc, st: Storage, s: SignedState, told: Time, seen: Time,
                                  ok: bool, now: Time)
    requires s.valid && !s.offlineLicense && UtcFromEpoch(s.issuedAt).Some?
    requires var p' := SetLicenseState(setup, p, st, s, told, seen, ok).0;
             !SetBack(p'.maxSeen, now) && !SetBack(p'.state.issuedAt, now)
    requires now <= Earliest(UtcFromEpoch(s.issuedAt).value + OFFLINE_GRACE, UtcFromEpoch(s.expiresAt))
    ensures var e := Entitlement(Get(SetLicenseState(setup, p, st, s, told, seen, ok).0, now).0);
            e.0 && LimitAsSigned(s.limits, e.1)
  {
  }

  /** What a page shows of that: the pilot marks, its end and its limit exactly in the pilot window, and all other
      fields as they are stored. */
  lemma SnapshotShowsTheWindow(p: Proc, now: Time)
    ensures var v, told, day := Get(p, now).0, Reference(p.state), 86_400_000_000;
            && (v.offlinePilot <==> v.valid && !p.state.offlineLicense && told.Some? && now > told.value + 2 * day)
            && v == p.state.(valid := v.valid, offlinePilot := v.offlinePilot,
                             offlinePilotUntil := if v.offlinePilot then Some(told.value + 32 * day) else None,
                             isPilotMode := v.offlinePilot || p.state.isPilotMode,
                             maxAssets := if v.offlinePilot then v.maxAssets else p.state.maxAssets)
            && (v.offlinePilot ==> v.maxAssets.Some? && v.maxAssets.value <= 5)
  {
  }

  // ---------- restart transparency ----------

  /** The entitlements a process answers at the given times. */
  function Entitlements(p: Proc, times: seq<Time>): (r: seq<(bool, Option<nat>)>)
    ensures |r| == |times|
    decreases |times|
  {
    if times == [] then []
    else [Entitlement(Get(p, times[0]).0)] + Entitlements(Get(p, times[0]).1, times[1..])
  }

  /** A clock that does not run back, from `start` on. */
  predicate Forward(start: Time, times: seq<Time>)
    decreases |times|
  {
    times == [] || (start <= times[0] && Forward(times[0], times[1..]))
  }

  predicate NotBehind(p: Proc, now: Time) { p.maxSeen.None? || p.maxSeen.value <= now }

  function Reference(state: LicenseState): Option<Time> {
    if state.issuedAt.Some? then state.issuedAt else state.lastValidatedAt
  }

  /** From `now` on, p is not licensed any more and never will be without an answer. */
  predicate Over(p: Proc, now: Time) {
    p.state.valid ==>
      || (p.state.expiresAt.Some? && now > p.state.expiresAt.value)
      || (p.state.offlineLicense && (p.state.offlineUntil.None? || now > p.state.offlineUntil.value))
      || (!p.state.offlineLicense && Reference(p.state).Some?
          && now > Reference(p.state).value + OFFLINE_GRACE + PILOT_FALLBACK)
  }

  lemma SameGrantSameAnswer(p: Proc, q: Proc, now: Time)
    requires SameGrant(p.state, q.state) && (p.state.valid ==> p.state.issuedAt.Some?)
    requires NotBehind(p, now) && NotBehind(q, now)
    ensures Entitlement(Get(p, now).0) == Entitlement(Get(q, now).0)
    ensures NotBehind(Get(p, now).1, now) && NotBehind(Get(q, now).1, now)
  {
  }

  lemma {:induction false} SameGrantSameAnswers(p: Proc, q: Proc, start: Time, times: seq<Time>)
    requires SameGrant(p.state, q.state) && (p.state.valid ==> p.state.issuedAt.Some?)
    requires NotBehind(p, start) && NotBehind(q, start) && Forward(start, times)
    ensures Entitlements(p, times) == Entitlements(q, times)
    decreases |times|
  {
    if times != [] {
      SameGrantSameAnswer(p, q, times[0]);
      SameGrantSameAnswers(Get(p, times[0]).1, Get(q, times[0]).1, times[0], times[1..]);
    }
  }

  /** The license file is still there, and the process's token is for the license in it. */
  predicate StillVerifies(setup: Setup, p: Proc, st: Storage) {
    p.signedToken.Some? && VerifyCached(setup, st, p.signedToken.value).Some?
  }

  /** The clock reads no earlier than the answer's (representable) issue time, less the tolerance. */
  predicate ClockIsPlausible(p: Proc, restart: Time) {
    p.state.issuedAt.Some? && restart >= p.state.issuedAt.value - CLOCK_ROLLBACK_TOLERANCE
  }

  /** The earliest time from `restart` on at which a clock that is right again would be believed. */
  function Believed(p: Proc, restart: Time): Time {
    if p.state.issuedAt.Some? && restart < p.state.issuedAt.value - CLOCK_ROLLBACK_TOLERANCE
    then p.state.issuedAt.value - CLOCK_ROLLBACK_TOLERANCE
    else restart
  }

  ghost predicate SameAnswersFrom(p: Proc, q: Proc, start: Time) {
    forall times :: Forward(start, times) ==> Entitlements(p, times) == Entitlements(q, times)
  }

  /** Until its issue time is plausible, and after its end, a process grants nothing. */
  lemma {:induction false} NothingToLose(p: Proc, start: Time, times: seq<Time>)
    requires Forward(start, times) && Over(p, Believed(p, start))
    ensures forall i :: 0 <= i < |times| ==> Entitlements(p, times)[i] == (false, Some(0))
    decreases |times|
  {
    if times != [] {
      NothingToLose(Get(p, times[0]).1, times[0], times[1..]);
    }
  }

  lemma LicensedOnceBelieved(p: Proc, restart: Time)
    requires p.state.valid && NotBehind(p, restart) && !Over(p, Believed(p, restart))
    ensures Forward(restart, [Believed(p, restart)]) && Entitlements(p, [Believed(p, restart)])[0].0
  {
    assert [Believed(p, restart)][1..] == [];
  }

  /** What the restarted process comes up with. */
  lemma RestoredGrant(setup: Setup, p: Proc, st: Storage, seen: Time, restart: Time)
    requires setup.cacheEnabled && p.attached && Honest(setup, p)
    requires NotBehind(Persist(setup, p, st, seen, true).0, restart)
    ensures var (p1, st1) := Persist(setup, p, st, seen, true);
            var p2 := RestoreCachedState(setup, Attach(FRESH, st1), st1, restart);
            && NotBehind(p2, restart) && p1.state == p.state
            && (p2.state.valid ==> SameGrant(p1.state, p2.state) && p.state.valid)
            && (p2.state.valid ==> ClockIsPlausible(p, restart) && StillVerifies(setup, p, st))
            && (!p2.state.valid && p.state.valid && ClockIsPlausible(p, restart) && StillVerifies(setup, p, st) ==>
                  Over(p1, restart))
  {
  }

  /** Restart transparency. Persist, restart and restore: with a clock that does not run back, the restarted
      process answers every later question as the process that never restarted would, in every window,
      exactly when there was no license, or the clock reads no earlier than the answer's issue time less
      the tolerance and the license file is still the one the token is for, or the license will have ended
      by the time the clock does. */
  lemma RestartIsTransparentIff(setup: Setup, p: Proc, st: Storage, seen: Time, restart: Time)
    requires setup.cacheEnabled && p.attached && Honest(setup, p)
    requires NotBehind(Persist(setup, p, st, seen, true).0, restart)
    ensures var (p1, st1) := Persist(setup, p, st, seen, true);
            var p2 := RestoreCachedState(setup, Attach(FRESH, st1), st1, restart);
            SameAnswersFrom(p2, p1, restart) <==>
              || !p.state.valid
              || (ClockIsPlausible(p, restart) && StillVerifies(setup, p, st))
              || Over(p, Believed(p, restart))
  {
    var (p1, st1) := Persist(setup, p, st, seen, true);
    var p2 := RestoreCachedState(setup, Attach(FRESH, st1), st1, restart);
    RestoredGrant(setup, p, st, seen, restart);
    if p2.state.valid {
      forall times | Forward(restart, times) ensures Entitlements(p2, times) == Entitlements(p1, times) {
        SameGrantSameAnswers(p1, p2, restart, times);
      }
    } else if !p.state.valid || (ClockIsPlausible(p, restart) && StillVerifies(setup, p, st)) ||
              Over(p, Believed(p, restart)) {
      assert Over(p1, Believed(p1, restart));
      forall times | Forward(restart, times) ensures Entitlements(p2, times) == Entitlements(p1, times) {
        NothingToLose(p1, restart, times);
        NothingToLose(p2, restart, times);
      }
    } else {
      var t := Believed(p1, restart);
      LicensedOnceBelieved(p1, restart);
      NothingToLose(p2, restart, [t]);
      assert Forward(restart, [t]) && Entitlements(p2, [t]) != Entitlements(p1, [t]);
    }
  }

  // ---------- only less without an answer ----------

  /** a's limit is at most b's; None is unlimited. */
  predicate AtMost(a: (bool, Option<nat>), b: (bool, Option<nat>)) {
    && (a.0 ==> b.0)
    && (b.1.None? || (a.1.Some? && a.1.value <= b.1.value))
  }

  ghost predicate Quiet(setup: Setup, s: System, events: seq<Event>, w: nat)
    requires w < |s.nodes|
    decreases |events|
  {
    events == [] ||
    (!((events[0].Boot? || events[0].Restore?) && events[0].w == w) && !TakesAnswer(setup, s, events[0], w) &&
     Quiet(setup, Step(setup, s, events[0]), events[1..], w))
  }

  /** A valid state is still the grant it was. */
  predicate Unchanged(a: LicenseState, b: LicenseState) {
    b.valid ==> SameGrant(a, b) && (a.issuedAt.None? ==> a.lastValidatedAt == b.lastValidatedAt)
  }

  lemma QuietEnd(setup: Setup, s: System, e: Event)
    requires e.End? && e.w < |s.nodes| && !TakesAnswer(setup, s, e, e.w)
    ensures Unchanged(s.nodes[e.w].proc.state, NodeStep(setup, s.nodes[e.w], s.store, e).0.proc.state)
  {
  }

  lemma QuietAnswer(setup: Setup, p: Proc, st: Storage, a: Answer, now: Time, seen: Time, ok: bool, read: Time)
    requires !a.Signed?
    ensures Unchanged(p.state, Refreshed(setup, p, st, a, now, seen, ok, read).0.state)
  {
  }

  lemma QuietRefresh(setup: Setup, s: System, e: Event)
    requires e.Refresh? && e.w < |s.nodes| && !TakesAnswer(setup, s, e, e.w)
    ensures Unchanged(s.nodes[e.w].proc.state, NodeStep(setup, s.nodes[e.w], s.store, e).0.proc.state)
  {
    if Running(s.nodes[e.w]) && e.a in s.nodes[e.w].answers {
      QuietAnswer(setup, s.nodes[e.w].proc, s.store, e.a, e.now, e.seen, e.ok, e.read);
    }
  }

  lemma QuietCall(setup: Setup, s: System, e: Event)
    requires !External(e) && e.w < |s.nodes| && !e.Boot? && !e.Restore? && !TakesAnswer(setup, s, e, e.w)
    ensures Unchanged(s.nodes[e.w].proc.state, NodeStep(setup, s.nodes[e.w], s.store, e).0.proc.state)
  {
    if e.End? {
      QuietEnd(setup, s, e);
    } else if e.Refresh? {
      QuietRefresh(setup, s, e);
    }
  }

  lemma QuietStep(setup: Setup, s: System, e: Event, w: nat)
    requires w < |s.nodes| && !((e.Boot? || e.Restore?) && e.w == w) && !TakesAnswer(setup, s, e, w)
    ensures var a, b := s.nodes[w].proc.state, Step(setup, s, e).nodes[w].proc.state;
            Unchanged(a, b)
  {
    if !External(e) && e.w == w {
      QuietCall(setup, s, e);
    }
  }

  lemma {:induction false} QuietRun(setup: Setup, s: System, events: seq<Event>, w: nat)
    requires w < |s.nodes| && Quiet(setup, s, events, w)
    ensures var a, b := s.nodes[w].proc.state, Run(setup, s, events).nodes[w].proc.state;
            Unchanged(a, b)
    decreases |events|
  {
    if events != [] {
      QuietStep(setup, s, events[0], w);
      QuietRun(setup, Step(setup, s, events[0]), events[1..], w);
    }
  }

  lemma LaterIsLess(p: Proc, p': Proc, now: Time, later: Time)
    requires !SetBack(p.maxSeen, now) && !SetBack(p.state.issuedAt, now) && now <= later
    requires Unchanged(p.state, p'.state)
    ensures AtMost(Entitlement(Get(p', later).0), Entitlement(Get(p, now).0))
  {
  }

  /** Over every run in which this worker gets no signed answer, and whatever else happens in it, in the
      other workers and to the files: what it grants later is at most what it grants at any earlier
      reading that is not itself set back. */
  lemma EntitlementOnlyShrinks(setup: Setup, s: System, events: seq<Event>, w: nat, now: Time, later: Time)
    requires w < |s.nodes| && Quiet(setup, s, events, w) && now <= later
    requires !SetBack(s.nodes[w].proc.maxSeen, now) && !SetBack(s.nodes[w].proc.state.issuedAt, now)
    ensures AtMost(Entitlement(Get(Run(setup, s, events).nodes[w].proc, later).0),
            Entitlement(Get(s.nodes[w].proc, now).0))
  {
    QuietRun(setup, s, events, w);
    LaterIsLess(s.nodes[w].proc, Run(setup, s, events).nodes[w].proc, now, later);
  }
}
