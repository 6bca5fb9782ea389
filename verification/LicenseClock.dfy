/** The clock adversary: an arbitrary clock, set back at will, cannot bring an ended token to life. */
module LicenseClock {
  import opened Options
  import opened LicenseToken
  import opened LicenseModel
  import opened LicenseSystem

  function Earlier(a: Option<Time>, b: Option<Time>): Option<Time> {
    if a.None? then b else if b.None? || a.value <= b.value then a else b
  }

  /** When a token ends: its expiry or, if earlier, the end of its windows (its own end for an offline file). */
  function TokenEnd(c: Claims): Option<Time> {
    var windows := if c.typ == "offline" then UtcFromEpoch(c.offlineUntil)
                   else if UtcFromEpoch(c.iat).None? then None
                   else Some(UtcFromEpoch(c.iat).value + OFFLINE_GRACE + PILOT_FALLBACK);
    Earlier(UtcFromEpoch(c.exp), windows)
  }

  /** The process knows the time `x` has passed. */
  predicate HasSeen(p: Proc, x: Time) { p.maxSeen.Some? && p.maxSeen.value >= x }

  /** The state the process runs on is the token's. */
  predicate RunsOn(p: Proc, token: Token) { p.signedToken == Some(token) }

  /** One reading is enough: past the end plus the tolerance, no clock reading makes the snapshot valid. */
  lemma EndedStaysEnded(setup: Setup, p: Proc, token: Token, c: Claims, now: Time)
    requires Honest(setup, p) && RunsOn(p, token) && setup.trust.signed(token) == Some(c)
    requires TokenEnd(c).Some? && HasSeen(p, TokenEnd(c).value + CLOCK_ROLLBACK_TOLERANCE + 1)
    ensures !Get(p, now).0.valid
  {
  }

  /** More than five minutes before the time seen. */
  predicate RunsBack(seen: Option<Time>, now: Time) { seen.Some? && now + 300_000_000 < seen.value }

  /** A clock set back by more than that shows: the snapshot is not valid while it reads so early. */
  lemma SetBackClockBlocks(p: Proc, now: Time)
    requires RunsBack(p.maxSeen, now) || RunsBack(p.state.issuedAt, now)
    ensures !Get(p, now).0.valid
  {
  }

  /** And the end is exact: with a clock that was not set back, the raw valid state of a token is in
      force up to its end, and not a microsecond longer. */
  lemma InForceExactlyUntilTheEnd(setup: Setup, p: Proc, token: Token, c: Claims, now: Time)
    requires Honest(setup, p) && p.state.valid && RunsOn(p, token) && setup.trust.signed(token) == Some(c)
    requires UtcFromEpoch(c.iat).Some? && !RunsBack(p.maxSeen, now) && !RunsBack(UtcFromEpoch(c.iat), now)
    ensures Get(p, now).0.valid <==>
            (c.typ == "offline" ==> UtcFromEpoch(c.offlineUntil).Some?) && now <= TokenEnd(c).value
    ensures (c.typ == "offline" ==> UtcFromEpoch(c.offlineUntil).Some?) ==> TokenEnd(c).Some?
  {
  }

  lemma CallRemembers(setup: Setup, n: Node, st: Storage, e: Event, x: Time)
    requires Running(n) && HasSeen(n.proc, x) && !e.Boot?
    ensures Running(NodeStep(setup, n, st, e).0) && HasSeen(NodeStep(setup, n, st, e).0.proc, x)
  {
  }

  /** What a process has seen it never forgets while it lives. */
  lemma {:induction false} SeenNeverDecreases(setup: Setup, s: System, events: seq<Event>, w: nat, x: Time)
    requires SystemInv(setup, s) && w < |s.nodes| && NoBoot(events, w)
    requires Running(s.nodes[w]) && HasSeen(s.nodes[w].proc, x)
    ensures Running(Run(setup, s, events).nodes[w]) && HasSeen(Run(setup, s, events).nodes[w].proc, x)
    decreases |events|
  {
    if events != [] {
      var s' := Step(setup, s, events[0]);
      StepInv(setup, s, events[0]);
      if !External(events[0]) && events[0].w == w {
        CallRemembers(setup, s.nodes[w], s.store, events[0], x);
      }
      SeenNeverDecreases(setup, s', events[1..], w, x);
    }
  }

  /** Over every run with arbitrary clock readings: once a worker has seen a time more than the
      tolerance past a token's end, none of its later answers on that token is "valid". */
  lemma EndedTokenNeverValidAgain(setup: Setup, s0: System, before: seq<Event>, after: seq<Event>,
                                  w: nat, token: Token, c: Claims, now: Time)
    requires Initial(s0) && w < |s0.nodes| && NoBoot(after, w)
    requires setup.trust.signed(token) == Some(c) && TokenEnd(c).Some?
    requires var n := Run(setup, s0, before).nodes[w];
             Running(n) && HasSeen(n.proc, TokenEnd(c).value + CLOCK_ROLLBACK_TOLERANCE + 1)
    ensures var p := Run(setup, s0, before + after).nodes[w].proc;
            RunsOn(p, token) ==> !Get(p, now).0.valid
  {
    RunAppend(setup, s0, before, after);
    RunInv(setup, s0, before);
    RunInv(setup, s0, before + after);
    var s := Run(setup, s0, before);
    SeenNeverDecreases(setup, s, after, w, TokenEnd(c).value + CLOCK_ROLLBACK_TOLERANCE + 1);
    var p := Run(setup, s, after).nodes[w].proc;
    if RunsOn(p, token) {
      EndedStaysEnded(setup, p, token, c, now);
    }
  }

  // ---------- the time recorded in the cache ----------

  /** The cache records a time of at least x. */
  predicate Records(st: Storage, x: Time) {
    var entry := Read(st.cache);
    entry.Some? && entry.value.lastSeen.Some? && entry.value.lastSeen.value >= x
  }

  /** The answers that are written to the cache. */
  predicate Answers(a: Answer) { a.Signed? || a.Rejected? || a.Unreachable? }

  /** The call of this process that e is writes the cache. */
  predicate Writes(setup: Setup, n: Node, st: Storage, e: Event) {
    && setup.cacheEnabled
    && match e
       case Refuse(_, _, _, ok) => Running(n) && ok
       case Lose(_, _, ok) => Running(n) && ok
       case Refresh(_, a, _, _, ok, _) => Running(n) && a in n.answers && Answers(a) && ok
       case End(_, reply, nonce, _, _, ok, _) =>
         && n.phase.Syncing?
         && n.phase.todo.Load?
         && n.phase.todo.licenseChanged
         && !n.phase.todo.licenseGone
         && IsOffline(st)
         && Answers(ClientValidate(setup, st, reply, nonce))
         && ok
       case _ => false
  }

  /** The clock reading a cache write records if it is the latest of its process. */
  function Reading(e: Event): Option<Time> {
    if e.Refuse? || e.Lose? || e.Refresh? || e.End? then Some(e.seen) else None
  }

  /** What lowers the recorded time below x: a write by a process that has not seen x, even if the file
      recorded it; a file put there or taken away from outside. */
  predicate Lowers(setup: Setup, s: System, e: Event, x: Time) {
    if External(e) then
      match e
      case Overwrite(entry) => !(entry.Some? && entry.value.lastSeen.Some? && entry.value.lastSeen.value >= x)
      case Remove(both) => both
      case _ => false
    else
      && e.w < |s.nodes|
      && Writes(setup, s.nodes[e.w], s.store, e)
      && !HasSeen(s.nodes[e.w].proc, x)
      && Reading(e).value < x
  }

  lemma WriteRecords(setup: Setup, n: Node, st: Storage, e: Event, x: Time)
    requires NodeInv(setup, n) && !External(e)
    ensures if Writes(setup, n, st, e)
            then Records(NodeStep(setup, n, st, e).1, x) <==> HasSeen(n.proc, x) || Reading(e).value >= x
            else NodeStep(setup, n, st, e).1 == st
  {
  }

  /** A step leaves the recorded time at x or above exactly if it is none of these. */
  lemma RecordIsLoweredIff(setup: Setup, s: System, e: Event, x: Time)
    requires SystemInv(setup, s) && Records(s.store, x)
    ensures Records(Step(setup, s, e).store, x) <==> !Lowers(setup, s, e, x)
  {
    if !External(e) && e.w < |s.nodes| {
      assert NodeInv(setup, s.nodes[e.w]);
      WriteRecords(setup, s.nodes[e.w], s.store, e, x);
    }
  }

  ghost predicate NeverLowers(setup: Setup, s: System, events: seq<Event>, x: Time)
    decreases |events|
  {
    events == [] || (!Lowers(setup, s, events[0], x) && NeverLowers(setup, Step(setup, s, events[0]), events[1..], x))
  }

  ghost predicate AlwaysRecords(setup: Setup, s: System, events: seq<Event>, x: Time)
    decreases |events|
  {
    Records(s.store, x) && (events == [] || AlwaysRecords(setup, Step(setup, s, events[0]), events[1..], x))
  }

  /** So over every run. */
  lemma {:induction false} RecordHoldsIff(setup: Setup, s: System, events: seq<Event>, x: Time)
    requires SystemInv(setup, s) && Records(s.store, x)
    ensures AlwaysRecords(setup, s, events, x) <==> NeverLowers(setup, s, events, x)
    decreases |events|
  {
    if events != [] {
      RecordIsLoweredIff(setup, s, events[0], x);
      StepInv(setup, s, events[0]);
      if !Lowers(setup, s, events[0], x) {
        RecordHoldsIff(setup, Step(setup, s, events[0]), events[1..], x);
      }
    }
  }

  // ---------- across restarts ----------

  /** The process has seen x, or it is not up and will read the cache before it answers. */
  predicate WillKnow(n: Node, x: Time) { n.phase.Down? || n.phase.Restoring? || HasSeen(n.proc, x) }

  lemma RestoreKnows(setup: Setup, p: Proc, st: Storage, now: Time, x: Time)
    requires setup.cacheEnabled && p.attached && Records(st, x)
    ensures HasSeen(RestoreCachedState(setup, p, st, now), x)
  {
  }

  lemma CallKnows(setup: Setup, n: Node, st: Storage, e: Event, x: Time)
    requires setup.cacheEnabled && NodeInv(setup, n) && WillKnow(n, x) && Records(st, x)
    ensures WillKnow(NodeStep(setup, n, st, e).0, x)
  {
    if e.Restore? && n.phase.Restoring? {
      RestoreKnows(setup, n.proc, st, e.now, x);
    } else if Running(n) && !e.Boot? {
      CallRemembers(setup, n, st, e, x);
    }
  }

  lemma {:induction false} StaysKnown(setup: Setup, s: System, events: seq<Event>, w: nat, x: Time)
    requires setup.cacheEnabled && SystemInv(setup, s) && w < |s.nodes| && WillKnow(s.nodes[w], x)
    requires Records(s.store, x) && NeverLowers(setup, s, events, x)
    ensures WillKnow(Run(setup, s, events).nodes[w], x)
    decreases |events|
  {
    if events != [] {
      var e := events[0];
      RecordIsLoweredIff(setup, s, e, x);
      StepInv(setup, s, e);
      if !External(e) && e.w == w {
        assert NodeInv(setup, s.nodes[w]);
        CallKnows(setup, s.nodes[w], s.store, e, x);
      }
      StaysKnown(setup, Step(setup, s, e), events[1..], w, x);
    }
  }

  /** With the time recorded in the cache, and never lowered there, the token stays ended in a worker that
      has seen the time or restarts, over any number of restarts of any of the workers, whatever their
      clocks say and whatever the others have seen. */
  lemma EndedTokenStaysDeadAcrossRestarts(setup: Setup, s0: System, before: seq<Event>, after: seq<Event>,
                                          w: nat, token: Token, c: Claims, now: Time)
    requires setup.cacheEnabled && Initial(s0) && w < |s0.nodes|
    requires setup.trust.signed(token) == Some(c) && TokenEnd(c).Some?
    requires var s, x := Run(setup, s0, before), TokenEnd(c).value + CLOCK_ROLLBACK_TOLERANCE + 1;
             Records(s.store, x) && NeverLowers(setup, s, after, x) && WillKnow(s.nodes[w], x)
    ensures var n := Run(setup, s0, before + after).nodes[w];
            RunsOn(n.proc, token) ==> !Get(n.proc, now).0.valid
  {
    RunAppend(setup, s0, before, after);
    RunInv(setup, s0, before);
    RunInv(setup, s0, before + after);
    StaysKnown(setup, Run(setup, s0, before), after, w, TokenEnd(c).value + CLOCK_ROLLBACK_TOLERANCE + 1);
    var n := Run(setup, s0, before + after).nodes[w];
    assert NodeInv(setup, n);
    if RunsOn(n.proc, token) && Running(n) {
      EndedStaysEnded(setup, n.proc, token, c, now);
    }
  }

  // ---------- exactly when a token has ended for good ----------

  /** Taking this answer shows the process the time x: it reads the clock to write the cache, and to answer. */
  predicate AnswerShows(setup: Setup, a: Answer, seen: Time, read: Time, x: Time) {
    (setup.cacheEnabled && Answers(a) && seen >= x) || (!a.Rejected? && !a.Failed? && read >= x)
  }

  /** The call shows the process the time x: a clock reading, or the record it restores. */
  predicate Shows(setup: Setup, n: Node, st: Storage, e: Event, x: Time) {
    match e
    case Restore(_, _) => n.phase.Restoring? && setup.cacheEnabled && Records(st, x)
    case Ask(_, now) => Running(n) && now >= x
    case Refuse(_, _, seen, _) => Running(n) && setup.cacheEnabled && seen >= x
    case Lose(_, seen, _) => Running(n) && setup.cacheEnabled && seen >= x
    case Refresh(_, a, _, seen, _, read) => Running(n) && a in n.answers && AnswerShows(setup, a, seen, read, x)
    case End(_, reply, nonce, _, seen, _, read) =>
      && n.phase.Syncing?
      && n.phase.todo.Load?
      && n.phase.todo.licenseChanged
      && !n.phase.todo.licenseGone
      && IsOffline(st)
      && AnswerShows(setup, ClientValidate(setup, st, reply, nonce), seen, read, x)
    case _ => false
  }

  lemma AnswerShowsIff(setup: Setup, p: Proc, st: Storage, a: Answer, now: Time, seen: Time, ok: bool, read: Time,
                       x: Time)
    requires p.attached
    ensures HasSeen(Refreshed(setup, p, st, a, now, seen, ok, read).0, x) <==>
            HasSeen(p, x) || AnswerShows(setup, a, seen, read, x)
  {
  }

  lemma CallShowsIff(setup: Setup, n: Node, st: Storage, e: Event, x: Time)
    requires NodeInv(setup, n) && !External(e)
    ensures HasSeen(NodeStep(setup, n, st, e).0.proc, x) <==>
            !e.Boot? && (HasSeen(n.proc, x) || Shows(setup, n, st, e, x))
  {
    if e.Refresh? && !n.phase.Down? {
      AnswerShowsIff(setup, n.proc, st, e.a, e.now, e.seen, e.ok, e.read, x);
    } else if e.End? && n.phase.Syncing? {
      AnswerShowsIff(setup, n.proc, st, ClientValidate(setup, st, e.reply, e.nonce), e.now, e.seen, e.ok, e.read, x);
    }
  }

  /** A call of worker w shows it the time x after its last start in the run, or `before` and no start. */
  ghost predicate ShownSinceStart(setup: Setup, s: System, events: seq<Event>, w: nat, x: Time, before: bool)
    requires w < |s.nodes|
    decreases |events|
  {
    if events == [] then before
    else
      var e := events[0];
      var after :=
        if External(e) || e.w != w then before
        else !e.Boot? && (before || Shows(setup, s.nodes[w], s.store, e, x));
      ShownSinceStart(setup, Step(setup, s, e), events[1..], w, x, after)
  }

  /** Over every run of any number of workers, with any restarts: what a worker has seen is what its calls since
      its last start have shown it. */
  lemma {:induction false} SeenIffShown(setup: Setup, s: System, events: seq<Event>, w: nat, x: Time)
    requires SystemInv(setup, s) && w < |s.nodes|
    ensures HasSeen(Run(setup, s, events).nodes[w].proc, x) <==>
            ShownSinceStart(setup, s, events, w, x, HasSeen(s.nodes[w].proc, x))
    decreases |events|
  {
    if events != [] {
      var e := events[0];
      StepInv(setup, s, e);
      if !External(e) && e.w == w {
        assert NodeInv(setup, s.nodes[w]);
        CallShowsIff(setup, s.nodes[w], s.store, e, x);
      }
      SeenIffShown(setup, Step(setup, s, e), events[1..], w, x);
    }
  }

  /** No clock reading makes the snapshot valid any more. */
  ghost predicate EndedForGood(p: Proc) { forall now :: !Get(p, now).0.valid }

  /** Having seen the end go by, the tolerance aside, is also needed: before that, a clock that reads the end
      makes the token valid. */
  lemma EndedForGoodIff(setup: Setup, p: Proc, token: Token, c: Claims)
    requires Honest(setup, p) && p.state.valid && RunsOn(p, token) && setup.trust.signed(token) == Some(c)
    requires UtcFromEpoch(c.iat).Some? && (c.typ == "offline" ==> UtcFromEpoch(c.offlineUntil).Some?)
    ensures var x := TokenEnd(c).value + CLOCK_ROLLBACK_TOLERANCE + 1;
            EndedForGood(p) <==> HasSeen(p, x) || UtcFromEpoch(c.iat).value >= x
  {
    var x := TokenEnd(c).value + CLOCK_ROLLBACK_TOLERANCE + 1;
    if HasSeen(p, x) {
      forall now ensures !Get(p, now).0.valid {
        EndedStaysEnded(setup, p, token, c, now);
      }
    } else if UtcFromEpoch(c.iat).value < x {
      InForceExactlyUntilTheEnd(setup, p, token, c, TokenEnd(c).value);
    }
  }

  /** So for a worker that runs on a token, it has ended for good exactly if the worker's calls since its last
      start have shown it a late enough time, be it by the record in the cache (or it was issued that late). */
  lemma EndedTokenStaysDeadIff(setup: Setup, s0: System, events: seq<Event>, w: nat, token: Token, c: Claims)
    requires Initial(s0) && w < |s0.nodes| && setup.trust.signed(token) == Some(c)
    requires var p := Run(setup, s0, events).nodes[w].proc; p.state.valid && RunsOn(p, token)
    requires UtcFromEpoch(c.iat).Some? && (c.typ == "offline" ==> UtcFromEpoch(c.offlineUntil).Some?)
    ensures var x := TokenEnd(c).value + CLOCK_ROLLBACK_TOLERANCE + 1;
            EndedForGood(Run(setup, s0, events).nodes[w].proc) <==>
              ShownSinceStart(setup, s0, events, w, x, false) || UtcFromEpoch(c.iat).value >= x
  {
    RunInv(setup, s0, events);
    EndedForGoodIff(setup, Run(setup, s0, events).nodes[w].proc, token, c);
    SeenIffShown(setup, s0, events, w, TokenEnd(c).value + CLOCK_ROLLBACK_TOLERANCE + 1);
  }

  /** A single worker lowers nothing: what the cache records it has seen, or reads when it starts. */
  lemma {:induction false} OneWorkerNeverLowers(setup: Setup, s: System, events: seq<Event>, x: Time)
    requires setup.cacheEnabled && SystemInv(setup, s) && |s.nodes| == 1 && WillKnow(s.nodes[0], x)
    requires Records(s.store, x)
    requires forall i :: 0 <= i < |events| ==> !events[i].Overwrite? && !(events[i].Remove? && events[i].both)
    ensures NeverLowers(setup, s, events, x)
    decreases |events|
  {
    if events != [] {
      var e := events[0];
      assert NodeInv(setup, s.nodes[0]);
      RecordIsLoweredIff(setup, s, e, x);
      StepInv(setup, s, e);
      if !External(e) && e.w == 0 {
        CallKnows(setup, s.nodes[0], s.store, e, x);
      }
      OneWorkerNeverLowers(setup, Step(setup, s, e), events[1..], x);
    }
  }

  /** And a successful write of its own records all it has seen. */
  lemma PersistRecords(setup: Setup, s: System, e: Event)
    requires SystemInv(setup, s) && !External(e) && e.w < |s.nodes| && Writes(setup, s.nodes[e.w], s.store, e)
    ensures Records(Step(setup, s, e).store, Reading(e).value)
    ensures s.nodes[e.w].proc.maxSeen.Some? ==> Records(Step(setup, s, e).store, s.nodes[e.w].proc.maxSeen.value)
  {
    var n := s.nodes[e.w];
    assert NodeInv(setup, n);
    WriteRecords(setup, n, s.store, e, Reading(e).value);
    if n.proc.maxSeen.Some? {
      WriteRecords(setup, n, s.store, e, n.proc.maxSeen.value);
    }
  }

  const EXAMPLE := Claims(1, "validate", "K", "F", None, Some(0), true, None, None, false, NotADict, None, None)
  const EXAMPLE_LICENSE := LicenseData("K", "F", false, "")

  /** A setup in which "t" is a signed token that says EXAMPLE. */
  predicate SignsExample(setup: Setup) {
    setup.cacheEnabled && setup.trust.signed("t") == Some(EXAMPLE) && setup.trust.fingerprint == "F"
  }

  /** The files of a machine with that license and token. */
  predicate Stores(st: Storage, seen: Option<Time>) {
    Read(st.license) == Some(EXAMPLE_LICENSE) && Read(st.cache) == Some(CacheEntry(Some("t"), seen))
  }

  lemma ExampleRestores(setup: Setup, st: Storage, seen: Option<Time>, now: Time)
    requires SignsExample(setup) && Stores(st, seen) && 0 <= now <= OFFLINE_GRACE && (seen.Some? ==> seen.value <= now)
    ensures var p := RestoreCachedState(setup, Attach(FRESH, st), st, now);
            p.attached && p.state.valid && RunsOn(p, "t") && p.maxSeen == seen && Get(p, now).0.valid
  {
    assert StoredAnswer(setup, st) == Some((ClaimsToState(EXAMPLE, "t"), 0));
  }

  lemma LosingRecords(setup: Setup, n: Node, st: Storage, w: nat, seen: Time)
    requires SignsExample(setup) && Read(st.license) == Some(EXAMPLE_LICENSE)
    requires Running(n) && n.proc.attached && n.proc.maxSeen == None && n.proc.state.valid && RunsOn(n.proc, "t")
    ensures var (n', st') := NodeStep(setup, n, st, Lose(w, seen, true));
            Stores(st', Some(seen)) && HasSeen(n'.proc, seen)
  {
  }

  /** Two workers start with the clock at 0; then the first one's clock reads `late`. */
  function LateRun(late: Time): seq<Event> { [Boot(0), Restore(0, 0), Boot(1), Restore(1, 0), Lose(0, late, true)] }

  /** Worker 1 is up on the token and has seen no time. */
  predicate SecondIsUp(s: System) {
    && |s.nodes| == 2
    && var n := s.nodes[1];
       Running(n) && n.proc.attached && n.proc.maxSeen == None && n.proc.state.valid && RunsOn(n.proc, "t")
  }

  lemma LateIsRecorded(setup: Setup, st: Storage, late: Time)
    requires SignsExample(setup) && Stores(st, None)
    ensures var s := Run(setup, System(st, [DOWN, DOWN]), LateRun(late));
            SecondIsUp(s) && Stores(s.store, Some(late)) && HasSeen(s.nodes[0].proc, late)
  {
    var up := Node(RestoreCachedState(setup, Attach(FRESH, st), st, 0), Idle, multiset{});
    ExampleRestores(setup, st, None, 0);
    var s := RunFive(setup, System(st, [DOWN, DOWN]), LateRun(late));
    LosingRecords(setup, up, st, 0, late);
    assert s.nodes[1] == up && (s.nodes[0], s.store) == NodeStep(setup, up, st, Lose(0, late, true));
  }

  lemma LoweredRecordRevives(setup: Setup, s: System, late: Time)
    requires SignsExample(setup) && SecondIsUp(s) && Stores(s.store, Some(late))
    ensures var n := Run(setup, s, [Lose(1, 0, true), Boot(0), Restore(0, 0)]).nodes[0];
            RunsOn(n.proc, "t") && Get(n.proc, 0).0.valid
  {
    var low := NodeStep(setup, s.nodes[1], s.store, Lose(1, 0, true)).1;
    LosingRecords(setup, s.nodes[1], s.store, 1, 0);
    var r := RunThree(setup, s, [Lose(1, 0, true), Boot(0), Restore(0, 0)]);
    ExampleRestores(setup, low, Some(0), 0);
    assert r.nodes[0].proc == RestoreCachedState(setup, Attach(FRESH, low), low, 0);
  }

  /** Why the record has to hold: with a second worker whose clock reads earlier, the cache forgets the late
      time the first one recorded, and a restart of the first brings the ended token back. */
  lemma AnEarlierClockLowersTheRecord(setup: Setup, late: Time) returns (s0: System)
    requires SignsExample(setup) && late == TokenEnd(EXAMPLE).value + CLOCK_ROLLBACK_TOLERANCE + 1
    ensures Initial(s0) && |s0.nodes| == 2
    ensures var s := Run(setup, s0, LateRun(late));
            Records(s.store, late) && HasSeen(s.nodes[0].proc, late) &&
            var n := Run(setup, s, [Lose(1, 0, true), Boot(0), Restore(0, 0)]).nodes[0];
            RunsOn(n.proc, "t") && Get(n.proc, 0).0.valid
  {
    var st := Storage(Some(Cell(1, Some(EXAMPLE_LICENSE))), Some(Cell(2, Some(CacheEntry(Some("t"), None)))), 2);
    s0 := System(st, [DOWN, DOWN]);
    LateIsRecorded(setup, st, late);
    LoweredRecordRevives(setup, Run(setup, s0, LateRun(late)), late);
  }

  /** A restart starts from the last recorded time, whatever becomes of the token. */
  lemma RestartResumesTheTimeSeen(setup: Setup, st: Storage, now: Time)
    requires setup.cacheEnabled && Read(st.cache).Some? && Read(st.cache).value.lastSeen.Some?
    ensures RestoreCachedState(setup, Attach(FRESH, st), st, now).maxSeen == Read(st.cache).value.lastSeen
  {
  }
}
