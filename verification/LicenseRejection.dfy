/** A "no" from the license server holds until the server says otherwise. */
module LicenseRejection {
  import opened Options
  import opened LicenseToken
  import opened LicenseModel
  import opened LicenseSystem
  import opened LicenseClock
  import opened LicenseSync

  /** Not valid, and knowing nothing older than `t`: what it was told last was a "no" at or after `t`. */
  predicate RefusedSince(p: Proc, t: Time) {
    !p.state.valid && Known(p.state).Some? && Known(p.state).value >= t
  }

  /** Taking this answer ends that: a signed "yes", or a "no" that says to be from before `t`. */
  predicate AnswerLifts(a: Answer, now: Time, t: Time) {
    match a
    case Signed(s) =>
      var issued := UtcFromEpoch(s.issuedAt);
      s.valid || (if issued.Some? then Max(issued.value, now) else now) < t
    case Rejected => now < t
    case _ => false
  }

  /** The calls of worker w that end its refusal: such an answer of its own; a cached "yes" of another worker
      that it adopts; a removed license file, if only the issue time of a signed "no" reached `t`. */
  predicate Lifts(setup: Setup, s: System, e: Event, w: nat, t: Time)
    requires w < |s.nodes|
  {
    var n := s.nodes[w];
    match e
    case Refuse(i, now, _, _) => i == w && AnswerLifts(Rejected, now, t)
    case Refresh(i, a, now, _, _, _) => i == w && a in n.answers && AnswerLifts(a, now, t)
    case End(i, reply, nonce, now, _, _, _) =>
      && i == w
      && n.phase.Syncing?
      && n.phase.todo.Load?
      && (if n.phase.todo.licenseChanged && n.phase.todo.licenseGone
          then !(n.proc.state.lastValidatedAt.Some? && n.proc.state.lastValidatedAt.value >= t)
          else if n.phase.todo.licenseChanged && IsOffline(s.store)
          then AnswerLifts(ClientValidate(setup, s.store, reply, nonce), now, t)
          else Adopts(setup, n.proc, s.store) && StoredAnswer(setup, s.store).value.0.valid)
    case _ => false
  }

  lemma AnswerLiftsIff(setup: Setup, p: Proc, st: Storage, a: Answer, now: Time, seen: Time, ok: bool, read: Time,
                       t: Time)
    requires RefusedSince(p, t)
    ensures RefusedSince(Refreshed(setup, p, st, a, now, seen, ok, read).0, t) <==> !AnswerLifts(a, now, t)
  {
  }

  lemma EndLiftsIff(setup: Setup, s: System, e: Event, t: Time)
    requires e.End? && e.w < |s.nodes| && s.nodes[e.w].phase.Syncing? && RefusedSince(s.nodes[e.w].proc, t)
    ensures RefusedSince(NodeStep(setup, s.nodes[e.w], s.store, e).0.proc, t) <==> !Lifts(setup, s, e, e.w, t)
  {
    var n := s.nodes[e.w];
    if n.phase.todo.Load? && n.phase.todo.licenseChanged && !n.phase.todo.licenseGone && IsOffline(s.store) {
      AnswerLiftsIff(setup, n.proc, s.store, ClientValidate(setup, s.store, e.reply, e.nonce), e.now, e.seen, e.ok,
        e.read, t);
    }
  }

  lemma CallLiftsIff(setup: Setup, s: System, e: Event, t: Time)
    requires !External(e) && e.w < |s.nodes| && !e.Boot? && Running(s.nodes[e.w]) && RefusedSince(s.nodes[e.w].proc, t)
    ensures Running(NodeStep(setup, s.nodes[e.w], s.store, e).0)
    ensures RefusedSince(NodeStep(setup, s.nodes[e.w], s.store, e).0.proc, t) <==> !Lifts(setup, s, e, e.w, t)
  {
    var n := s.nodes[e.w];
    if e.End? {
      if n.phase.Syncing? {
        EndLiftsIff(setup, s, e, t);
      }
    } else if e.Refresh? {
      AnswerLiftsIff(setup, n.proc, s.store, e.a, e.now, e.seen, e.ok, e.read, t);
    }
  }

  /** One step ends the refusal exactly if it is one of these. */
  lemma StepLiftsIff(setup: Setup, s: System, e: Event, w: nat, t: Time)
    requires w < |s.nodes| && !(e.Boot? && e.w == w) && Running(s.nodes[w]) && RefusedSince(s.nodes[w].proc, t)
    ensures Running(Step(setup, s, e).nodes[w])
    ensures RefusedSince(Step(setup, s, e).nodes[w].proc, t) <==> !Lifts(setup, s, e, w, t)
  {
    if !External(e) && e.w == w {
      CallLiftsIff(setup, s, e, t);
    }
  }

  ghost predicate AlwaysRefused(setup: Setup, s: System, events: seq<Event>, w: nat, t: Time)
    requires w < |s.nodes|
    decreases |events|
  {
    && RefusedSince(s.nodes[w].proc, t)
    && (events == [] || AlwaysRefused(setup, Step(setup, s, events[0]), events[1..], w, t))
  }

  ghost predicate NeverLifted(setup: Setup, s: System, events: seq<Event>, w: nat, t: Time)
    requires w < |s.nodes|
    decreases |events|
  {
    || events == []
    || (!Lifts(setup, s, events[0], w, t) && NeverLifted(setup, Step(setup, s, events[0]), events[1..], w, t))
  }

  /** After a "no" told at time t, over every run without a restart of this worker (other workers and the files
      do what they like): the worker stays refused throughout exactly if none of its calls lifts it. */
  lemma {:induction false} RejectionSticksIff(setup: Setup, s: System, events: seq<Event>, w: nat, t: Time)
    requires w < |s.nodes| && NoBoot(events, w) && Running(s.nodes[w]) && RefusedSince(s.nodes[w].proc, t)
    ensures AlwaysRefused(setup, s, events, w, t) <==> NeverLifted(setup, s, events, w, t)
    ensures NeverLifted(setup, s, events, w, t) ==> RefusedSince(Run(setup, s, events).nodes[w].proc, t)
    decreases |events|
  {
    if events != [] {
      StepLiftsIff(setup, s, events[0], w, t);
      if !Lifts(setup, s, events[0], w, t) {
        RejectionSticksIff(setup, Step(setup, s, events[0]), events[1..], w, t);
      }
    }
  }

  /** Offline marks lift nothing, and a sync that finds no license file removed and no changed offline license
      only with an answer of another worker that was issued after t. */
  lemma OnlyNewerAnswersAreAdopted(setup: Setup, s: System, e: Event, w: nat, t: Time)
    requires w < |s.nodes| && RefusedSince(s.nodes[w].proc, t) && Lifts(setup, s, e, w, t)
    ensures !e.Lose? && !External(e)
    ensures e.End? ==>
              var todo := s.nodes[w].phase.todo;
              || (todo.licenseChanged && (todo.licenseGone || IsOffline(s.store)))
              || (StoredAnswer(setup, s.store).Some? && StoredAnswer(setup, s.store).value.1 > t)
  {
  }

  /** mark_license_rejected puts a worker there. */
  lemma RefuseRefuses(setup: Setup, s: System, e: Event)
    requires e.Refuse? && e.w < |s.nodes| && Running(s.nodes[e.w])
    ensures RefusedSince(Step(setup, s, e).nodes[e.w].proc, e.now)
  {
  }

  /** Two refusals and another worker's write: worker 0 is idle, refused since the second, and has not looked. */
  lemma ForgottenRefusal(setup: Setup, st: Storage, entry: CacheEntry)
    requires setup.cacheEnabled
    ensures var s := Run(setup, System(st, [Node(Attach(FRESH, st), Idle, multiset{})]),
                         [Refuse(0, 100 * SECOND, 0, false), Refuse(0, 10 * SECOND, 0, false), Overwrite(Some(entry))]);
            var n := s.nodes[0];
            && |s.nodes| == 1 && n.phase.Idle? && n.proc.attached && n.proc.lastSync.None?
            && !n.proc.state.valid && n.proc.state.issuedAt.None? && n.proc.signedToken.None?
            && n.proc.state.lastValidatedAt == Some(10 * SECOND)
            && n.proc.licenseStamp == StampOf(st.license) && n.proc.stateStamp == StampOf(st.cache)
            && s.store == WriteCache(st, Some(entry))
  {
    var s := RunThree(setup, System(st, [Node(Attach(FRESH, st), Idle, multiset{})]),
                      [Refuse(0, 100 * SECOND, 0, false), Refuse(0, 10 * SECOND, 0, false), Overwrite(Some(entry))]);
  }

  /** The reading matters: a second "no" under a clock set back forgets the first, and an answer issued
      between the two readings is adopted. */
  lemma SecondRejectionUnderAClockSetBackForgets(setup: Setup, c: Claims) returns (s: System, events: seq<Event>)
    requires setup.cacheEnabled && setup.trust.fingerprint == "F" && setup.trust.signed("t") == Some(c)
    requires c == Claims(1, "validate", "K", "F", None, Some(50), true, None, None, false, NotADict, None, None)
    ensures SystemInv(setup, s) && |s.nodes| == 1 && Running(s.nodes[0])
    ensures events == [Refuse(0, 100 * SECOND, 0, false), Refuse(0, 10 * SECOND, 0, false),
            Overwrite(Some(CacheEntry(Some("t"), None)))]
                      + [Begin(0, 0), End(0, NoAnswer, "", 0, 0, true, 0)]
    ensures var p := Run(setup, s, events).nodes[0].proc; p.state.valid && p.state.issuedAt == Some(50 * SECOND)
  {
    var st := WriteLicense(Storage(None, None, 0), Some(LicenseData("K", "F", false, "")));
    var entry := CacheEntry(Some("t"), None);
    s := System(st, [Node(Attach(FRESH, st), Idle, multiset{})]);
    var first := [Refuse(0, 100 * SECOND, 0, false), Refuse(0, 10 * SECOND, 0, false), Overwrite(Some(entry))];
    var second := [Begin(0, 0), End(0, NoAnswer, "", 0, 0, true, 0)];
    events := first + second;
    ForgottenRefusal(setup, st, entry);
    RunAppend(setup, s, first, second);
    BothHalves(setup, Run(setup, s, first), 0, 0, NoAnswer, "", 0, 0, true, 0);
    assert StoredAnswer(setup, WriteCache(st, Some(entry))) == Some((ClaimsToState(c, "t"), 50 * SECOND));
  }

  // ---------- across restarts ----------

  /** The token verifies for the stored license as a "yes" issued at t or before. */
  predicate OldToken(setup: Setup, st: Storage, token: Option<Token>, t: Time) {
    && token.Some?
    && var s := VerifyCached(setup, st, token.value);
       && s.Some?
       && s.value.valid
       && UtcFromEpoch(s.value.issuedAt).Some?
       && UtcFromEpoch(s.value.issuedAt).value <= t
  }

  function CachedToken(st: Storage): Option<Token> {
    if Read(st.cache).Some? then Read(st.cache).value.signedToken else None
  }

  /** The cache holds no such token. */
  predicate Clean(setup: Setup, st: Storage, t: Time) { !OldToken(setup, st, CachedToken(st), t) }

  /** The token that is cached after this answer: a new "yes", or what the process ran on if the server was
      not reached. */
  function AnswerToken(p: Proc, a: Answer): Option<Token> {
    match a
    case Signed(s) => if s.valid then Some(s.signedToken) else None
    case Unreachable => if p.state.valid then p.signedToken else None
    case _ => None
  }

  /** The token a call puts into the cache if it writes it. */
  function WrittenToken(setup: Setup, n: Node, st: Storage, e: Event): Option<Token> {
    match e
    case Lose(_, _, _) => AnswerToken(n.proc, Unreachable)
    case Refresh(_, a, _, _, _, _) => AnswerToken(n.proc, a)
    case End(_, reply, nonce, _, _, _, _) => AnswerToken(n.proc, ClientValidate(setup, st, reply, nonce))
    case _ => None
  }

  predicate SoilsFromOutside(setup: Setup, st: Storage, e: Event, t: Time) {
    match e
    case Overwrite(entry) => entry.Some? && OldToken(setup, st, entry.value.signedToken, t)
    case Install(data) => OldToken(setup, WriteLicense(st, data), CachedToken(st), t)
    case _ => false
  }

  predicate SoilsByWriting(setup: Setup, n: Node, st: Storage, e: Event, t: Time) {
    Writes(setup, n, st, e) && OldToken(setup, st, WrittenToken(setup, n, st, e), t)
  }

  /** What brings such a token into the cache: a cache or a license file put there from outside; a write by a
      process that runs on it or was just given it. */
  predicate Soils(setup: Setup, s: System, e: Event, t: Time) {
    if External(e) then SoilsFromOutside(setup, s.store, e, t)
    else e.w < |s.nodes| && SoilsByWriting(setup, s.nodes[e.w], s.store, e, t)
  }

  lemma AnswerWrites(setup: Setup, p: Proc, st: Storage, a: Answer, now: Time, seen: Time, ok: bool, read: Time)
    requires p.attached && setup.cacheEnabled
    ensures var st' := Refreshed(setup, p, st, a, now, seen, ok, read).1;
            if Answers(a) && ok then st'.license == st.license && CachedToken(st') == AnswerToken(p, a) else st' == st
  {
  }

  lemma WriteWrites(setup: Setup, n: Node, st: Storage, e: Event)
    requires NodeInv(setup, n) && !External(e)
    ensures var st' := NodeStep(setup, n, st, e).1;
            if Writes(setup, n, st, e)
            then st'.license == st.license && CachedToken(st') == WrittenToken(setup, n, st, e)
            else st' == st
  {
    if e.Refresh? && setup.cacheEnabled && !n.phase.Down? {
      AnswerWrites(setup, n.proc, st, e.a, e.now, e.seen, e.ok, e.read);
    } else if e.End? && setup.cacheEnabled && n.phase.Syncing? {
      AnswerWrites(setup, n.proc, st, ClientValidate(setup, st, e.reply, e.nonce), e.now, e.seen, e.ok, e.read);
    }
  }

  /** A step leaves the cache without an old "yes" exactly if it is none of these. */
  lemma StepSoilsIff(setup: Setup, s: System, e: Event, t: Time)
    requires SystemInv(setup, s) && Clean(setup, s.store, t)
    ensures Clean(setup, Step(setup, s, e).store, t) <==> !Soils(setup, s, e, t)
  {
    if !External(e) && e.w < |s.nodes| {
      assert NodeInv(setup, s.nodes[e.w]);
      WriteWrites(setup, s.nodes[e.w], s.store, e);
    }
  }

  ghost predicate NeverSoils(setup: Setup, s: System, events: seq<Event>, t: Time)
    decreases |events|
  {
    events == [] || (!Soils(setup, s, events[0], t) && NeverSoils(setup, Step(setup, s, events[0]), events[1..], t))
  }

  ghost predicate AlwaysClean(setup: Setup, s: System, events: seq<Event>, t: Time)
    decreases |events|
  {
    Clean(setup, s.store, t) && (events == [] || AlwaysClean(setup, Step(setup, s, events[0]), events[1..], t))
  }

  /** So over every run. */
  lemma {:induction false} CacheStaysCleanIff(setup: Setup, s: System, events: seq<Event>, t: Time)
    requires SystemInv(setup, s) && Clean(setup, s.store, t)
    ensures AlwaysClean(setup, s, events, t) <==> NeverSoils(setup, s, events, t)
    decreases |events|
  {
    if events != [] {
      StepSoilsIff(setup, s, events[0], t);
      StepInv(setup, s, events[0]);
      if !Soils(setup, s, events[0], t) {
        CacheStaysCleanIff(setup, Step(setup, s, events[0]), events[1..], t);
      }
    }
  }

  /** The process is licensed, if at all, by an answer issued after t. */
  predicate OnlyNewer(p: Proc, t: Time) {
    p.state.valid ==> p.state.issuedAt.Some? && p.state.issuedAt.value > t
  }

  /** A "yes" that does not say it was issued after t. */
  predicate OldYes(a: Answer, t: Time) {
    a.Signed? && a.state.valid && !(UtcFromEpoch(a.state.issuedAt).Some? && UtcFromEpoch(a.state.issuedAt).value > t)
  }

  /** The process takes such an answer to a validation of its own. */
  predicate TakesOldYes(setup: Setup, n: Node, st: Storage, e: Event, t: Time) {
    match e
    case Refresh(_, a, _, _, _, _) => Running(n) && a in n.answers && OldYes(a, t)
    case End(_, reply, nonce, _, _, _, _) =>
      && n.phase.Syncing?
      && n.phase.todo.Load?
      && n.phase.todo.licenseChanged
      && !n.phase.todo.licenseGone
      && IsOffline(st)
      && OldYes(ClientValidate(setup, st, reply, nonce), t)
    case _ => false
  }

  /** The process takes such an answer from the cache: at its start or in a sync. */
  predicate LoadsOldYes(setup: Setup, n: Node, st: Storage, e: Event, t: Time) {
    && setup.cacheEnabled
    && !Clean(setup, st, t)
    && StoredAnswer(setup, st).Some?
    && match e
       case Restore(_, now) =>
         var (s, issued) := StoredAnswer(setup, st).value;
         n.phase.Restoring? && Restorable(s, issued, Read(st.cache).value.lastSeen, now)
       case End(_, _, _, _, _, _, _) =>
         && n.phase.Syncing?
         && n.phase.todo.Load?
         && !(n.phase.todo.licenseChanged && (n.phase.todo.licenseGone || IsOffline(st)))
         && Adopts(setup, n.proc, st)
       case _ => false
  }

  lemma AnswerKeepsIff(setup: Setup, p: Proc, st: Storage, a: Answer, now: Time, seen: Time, ok: bool, read: Time,
                       t: Time)
    requires OnlyNewer(p, t)
    ensures OnlyNewer(Refreshed(setup, p, st, a, now, seen, ok, read).0, t) <==> !OldYes(a, t)
  {
  }

  lemma LoadKeepsIff(setup: Setup, n: Node, st: Storage, e: Event, t: Time)
    requires NodeInv(setup, n) && OnlyNewer(n.proc, t) && (e.Restore? || e.End?)
    requires !(e.End? && n.phase.Syncing? && n.phase.todo.licenseChanged && IsOffline(st))
    ensures OnlyNewer(NodeStep(setup, n, st, e).0.proc, t) <==> !LoadsOldYes(setup, n, st, e, t)
  {
  }

  lemma CallKeepsIff(setup: Setup, n: Node, st: Storage, e: Event, t: Time)
    requires NodeInv(setup, n) && OnlyNewer(n.proc, t) && !External(e)
    ensures OnlyNewer(NodeStep(setup, n, st, e).0.proc, t) <==>
            !TakesOldYes(setup, n, st, e, t) && !LoadsOldYes(setup, n, st, e, t)
  {
    if e.Refresh? {
      AnswerKeepsIff(setup, n.proc, st, e.a, e.now, e.seen, e.ok, e.read, t);
    } else if e.End? && n.phase.Syncing? && n.phase.todo.licenseChanged && IsOffline(st) {
      AnswerKeepsIff(setup, n.proc, st, ClientValidate(setup, st, e.reply, e.nonce), e.now, e.seen, e.ok, e.read, t);
    } else if e.Restore? || e.End? {
      LoadKeepsIff(setup, n, st, e, t);
    }
  }

  ghost predicate AlwaysOnlyNewer(setup: Setup, s: System, events: seq<Event>, w: nat, t: Time)
    requires w < |s.nodes|
    decreases |events|
  {
    && OnlyNewer(s.nodes[w].proc, t)
    && (events == [] || AlwaysOnlyNewer(setup, Step(setup, s, events[0]), events[1..], w, t))
  }

  /** Worker w never takes an old "yes" of its own. */
  ghost predicate NeverToldOldYes(setup: Setup, s: System, events: seq<Event>, w: nat, t: Time)
    requires w < |s.nodes|
    decreases |events|
  {
    || events == []
    || (!(!External(events[0]) && events[0].w == w && TakesOldYes(setup, s.nodes[w], s.store, events[0], t))
        && NeverToldOldYes(setup, Step(setup, s, events[0]), events[1..], w, t))
  }

  /** Nor one out of the cache. */
  ghost predicate NeverLoadsOldYes(setup: Setup, s: System, events: seq<Event>, w: nat, t: Time)
    requires w < |s.nodes|
    decreases |events|
  {
    || events == []
    || (!(!External(events[0]) && events[0].w == w && LoadsOldYes(setup, s.nodes[w], s.store, events[0], t))
        && NeverLoadsOldYes(setup, Step(setup, s, events[0]), events[1..], w, t))
  }

  /** Any number of workers, over every run and any number of restarts: worker w is never licensed by an answer
      issued at t or before exactly if it neither takes one as its own nor loads one from the cache. */
  lemma {:induction false} OldAnswersStayOutIff(setup: Setup, s: System, events: seq<Event>, w: nat, t: Time)
    requires SystemInv(setup, s) && w < |s.nodes| && OnlyNewer(s.nodes[w].proc, t)
    ensures AlwaysOnlyNewer(setup, s, events, w, t) <==>
            NeverToldOldYes(setup, s, events, w, t) && NeverLoadsOldYes(setup, s, events, w, t)
    decreases |events|
  {
    if events != [] {
      var e := events[0];
      StepInv(setup, s, e);
      if !External(e) && e.w == w {
        assert NodeInv(setup, s.nodes[w]);
        CallKeepsIff(setup, s.nodes[w], s.store, e, t);
      }
      if OnlyNewer(Step(setup, s, e).nodes[w].proc, t) {
        OldAnswersStayOutIff(setup, Step(setup, s, e), events[1..], w, t);
      }
    }
  }

  lemma {:induction false} CleanLoadsNothing(setup: Setup, s: System, events: seq<Event>, w: nat, t: Time)
    requires w < |s.nodes| && AlwaysClean(setup, s, events, t)
    ensures NeverLoadsOldYes(setup, s, events, w, t)
    decreases |events|
  {
    if events != [] {
      CleanLoadsNothing(setup, Step(setup, s, events[0]), events[1..], w, t);
    }
  }

  /** So while nothing brings an old "yes" back into the cache, no restart of w does: only a "yes" of its own. */
  lemma RejectionSurvivesRestartsIff(setup: Setup, s: System, events: seq<Event>, w: nat, t: Time)
    requires SystemInv(setup, s) && w < |s.nodes| && OnlyNewer(s.nodes[w].proc, t)
    requires Clean(setup, s.store, t) && NeverSoils(setup, s, events, t)
    ensures AlwaysOnlyNewer(setup, s, events, w, t) <==> NeverToldOldYes(setup, s, events, w, t)
  {
    CacheStaysCleanIff(setup, s, events, t);
    CleanLoadsNothing(setup, s, events, w, t);
    OldAnswersStayOutIff(setup, s, events, w, t);
  }

  /** A rejection that reaches the cache leaves it clean, whatever t is, and its process unlicensed. */
  lemma RefuseCleans(setup: Setup, s: System, e: Event, t: Time)
    requires setup.cacheEnabled && SystemInv(setup, s) && e.Refuse? && e.ok && e.w < |s.nodes| && Running(s.nodes[e.w])
    ensures Clean(setup, Step(setup, s, e).store, t) && OnlyNewer(Step(setup, s, e).nodes[e.w].proc, t)
  {
    assert NodeInv(setup, s.nodes[e.w]);
  }

  /** A process that is not licensed by an old "yes", nor takes one, does not write one. */
  lemma NewerWritesNewer(setup: Setup, n: Node, st: Storage, e: Event, t: Time)
    requires NodeInv(setup, n) && OnlyNewer(n.proc, t) && !TakesOldYes(setup, n, st, e, t)
    ensures !SoilsByWriting(setup, n, st, e, t)
  {
    if e.End? {
      VerifiedIsGenuine(setup, st, e.reply, e.nonce);
    }
  }

  /** No worker is licensed by an old "yes", and the cache holds none. */
  ghost predicate AllClear(setup: Setup, s: System, t: Time) {
    Clean(setup, s.store, t) && forall w :: 0 <= w < |s.nodes| ==> OnlyNewer(s.nodes[w].proc, t)
  }

  /** An old "yes" comes in: to a worker that asked for it, or to the files from outside. */
  predicate BringsOldYes(setup: Setup, s: System, e: Event, t: Time) {
    if External(e) then SoilsFromOutside(setup, s.store, e, t)
    else e.w < |s.nodes| && TakesOldYes(setup, s.nodes[e.w], s.store, e, t)
  }

  lemma CallClearIff(setup: Setup, n: Node, st: Storage, e: Event, t: Time)
    requires NodeInv(setup, n) && OnlyNewer(n.proc, t) && Clean(setup, st, t) && !External(e)
    ensures var (n', st') := NodeStep(setup, n, st, e);
            OnlyNewer(n'.proc, t) && Clean(setup, st', t) <==> !TakesOldYes(setup, n, st, e, t)
  {
    CallKeepsIff(setup, n, st, e, t);
    if !TakesOldYes(setup, n, st, e, t) {
      NewerWritesNewer(setup, n, st, e, t);
      WriteWrites(setup, n, st, e);
    }
  }

  lemma StepClearIff(setup: Setup, s: System, e: Event, t: Time)
    requires SystemInv(setup, s) && AllClear(setup, s, t)
    ensures AllClear(setup, Step(setup, s, e), t) <==> !BringsOldYes(setup, s, e, t)
  {
    var s' := Step(setup, s, e);
    if External(e) {
      StepSoilsIff(setup, s, e, t);
      assert s'.nodes == s.nodes;
    } else if e.w < |s.nodes| {
      assert NodeInv(setup, s.nodes[e.w]) && OnlyNewer(s.nodes[e.w].proc, t);
      CallClearIff(setup, s.nodes[e.w], s.store, e, t);
      assert (s'.nodes[e.w], s'.store) == NodeStep(setup, s.nodes[e.w], s.store, e);
      assert forall w :: 0 <= w < |s.nodes| && w != e.w ==> s'.nodes[w] == s.nodes[w];
    }
  }

  ghost predicate AlwaysAllClear(setup: Setup, s: System, events: seq<Event>, t: Time)
    decreases |events|
  {
    AllClear(setup, s, t) && (events == [] || AlwaysAllClear(setup, Step(setup, s, events[0]), events[1..], t))
  }

  ghost predicate NeverBringsOldYes(setup: Setup, s: System, events: seq<Event>, t: Time)
    decreases |events|
  {
    || events == []
    || (!BringsOldYes(setup, s, events[0], t) && NeverBringsOldYes(setup, Step(setup, s, events[0]), events[1..], t))
  }

  /** Once every worker has heard of the rejection, or was not licensed, it holds for all of them and through
      all their restarts, exactly until an old "yes" comes in from the license server or from outside. */
  lemma {:induction false} HeardByAllHoldsForAllIff(setup: Setup, s: System, events: seq<Event>, t: Time)
    requires SystemInv(setup, s) && AllClear(setup, s, t)
    ensures AlwaysAllClear(setup, s, events, t) <==> NeverBringsOldYes(setup, s, events, t)
    decreases |events|
  {
    if events != [] {
      StepClearIff(setup, s, events[0], t);
      StepInv(setup, s, events[0]);
      if !BringsOldYes(setup, s, events[0], t) {
        HeardByAllHoldsForAllIff(setup, Step(setup, s, events[0]), events[1..], t);
      }
    }
  }

  const HUNDRED := 100 * SECOND

  /** Two workers start on a token issued at 0; then the first is told "no". */
  const TOLD_NO := [Boot(0), Restore(0, 0), Boot(1), Restore(1, 0), Refuse(0, HUNDRED, HUNDRED, true)]

  /** The second finds the server out of reach, and the first restarts. */
  const BACK_AGAIN := [Lose(1, HUNDRED, true), Boot(0), Restore(0, HUNDRED)]

  lemma ToldNo(setup: Setup, st: Storage)
    requires SignsExample(setup) && Stores(st, None)
    ensures var s := Run(setup, System(st, [DOWN, DOWN]), TOLD_NO);
            && SecondIsUp(s)
            && Read(s.store.license) == Some(EXAMPLE_LICENSE)
            && Read(s.store.cache) == Some(CacheEntry(None, Some(HUNDRED)))
            && RefusedSince(s.nodes[0].proc, HUNDRED)
  {
    var up := Node(RestoreCachedState(setup, Attach(FRESH, st), st, 0), Idle, multiset{});
    ExampleRestores(setup, st, None, 0);
    var s := RunFive(setup, System(st, [DOWN, DOWN]), TOLD_NO);
    assert s.nodes[1] == up && (s.nodes[0], s.store) == NodeStep(setup, up, st, TOLD_NO[4]);
  }

  lemma BackAgain(setup: Setup, s: System)
    requires SignsExample(setup) && SecondIsUp(s) && Read(s.store.license) == Some(EXAMPLE_LICENSE)
    ensures var p := Run(setup, s, BACK_AGAIN).nodes[0].proc; RunsOn(p, "t") && Get(p, HUNDRED).0.valid
  {
    var st := NodeStep(setup, s.nodes[1], s.store, BACK_AGAIN[0]).1;
    LosingRecords(setup, s.nodes[1], s.store, 1, HUNDRED);
    var r := RunThree(setup, s, BACK_AGAIN);
    ExampleRestores(setup, st, Some(HUNDRED), HUNDRED);
    assert r.nodes[0].proc == RestoreCachedState(setup, Attach(FRESH, st), st, HUNDRED);
  }

  /** Why the cache has to stay clean: a rejection is written to it, another worker that has not heard of it
      writes the old token back, and a restart licenses the rejected worker again. No clock is set back. */
  lemma AnotherWorkerUndoesTheRejection(setup: Setup) returns (s0: System)
    requires SignsExample(setup)
    ensures Initial(s0) && |s0.nodes| == 2
    ensures var s := Run(setup, s0, TOLD_NO);
            && RefusedSince(s.nodes[0].proc, HUNDRED)
            && Read(s.store.cache) == Some(CacheEntry(None, Some(HUNDRED)))
            && var p := Run(setup, s, BACK_AGAIN).nodes[0].proc;
               RunsOn(p, "t") && Get(p, HUNDRED).0.valid
  {
    var st := Storage(Some(Cell(1, Some(EXAMPLE_LICENSE))), Some(Cell(2, Some(CacheEntry(Some("t"), None)))), 2);
    s0 := System(st, [DOWN, DOWN]);
    ToldNo(setup, st);
    BackAgain(setup, Run(setup, s0, TOLD_NO));
  }

  // ---------- one worker ----------

  /** The process is not licensed and the cache holds no answer that could license it again. */
  ghost predicate Locked(s: System) {
    && |s.nodes| == 1
    && !s.nodes[0].proc.state.valid
    && (Read(s.store.cache).Some? ==> Read(s.store.cache).value.signedToken.None?)
  }

  lemma LockedAnswer(setup: Setup, p: Proc, st: Storage, a: Answer, now: Time, seen: Time, ok: bool, read: Time)
    requires !p.state.valid && !a.Signed? && (Read(st.cache).Some? ==> Read(st.cache).value.signedToken.None?)
    ensures var (p', st') := Refreshed(setup, p, st, a, now, seen, ok, read);
            !p'.state.valid && (Read(st'.cache).Some? ==> Read(st'.cache).value.signedToken.None?)
  {
  }

  lemma LockedRefresh(setup: Setup, s: System, e: Event)
    requires Locked(s) && NodeInv(setup, s.nodes[0]) && e.Refresh? && e.w == 0 && !TakesAnswer(setup, s, e, 0)
    requires StoredAnswer(setup, s.store).None?
    ensures var (n, st) := NodeStep(setup, s.nodes[0], s.store, e);
            !n.proc.state.valid && (Read(st.cache).Some? ==> Read(st.cache).value.signedToken.None?)
  {
    if e.a in s.nodes[0].answers && Running(s.nodes[0]) {
      LockedAnswer(setup, s.nodes[0].proc, s.store, e.a, e.now, e.seen, e.ok, e.read);
    }
  }

  lemma LockedEnd(setup: Setup, s: System, e: Event)
    requires Locked(s) && NodeInv(setup, s.nodes[0]) && e.End? && e.w == 0 && !TakesAnswer(setup, s, e, 0)
    requires StoredAnswer(setup, s.store).None?
    ensures var (n, st) := NodeStep(setup, s.nodes[0], s.store, e);
            !n.proc.state.valid && (Read(st.cache).Some? ==> Read(st.cache).value.signedToken.None?)
  {
  }

  lemma LockedCall(setup: Setup, s: System, e: Event)
    requires Locked(s) && NodeInv(setup, s.nodes[0]) && !External(e) && e.w == 0 && !TakesAnswer(setup, s, e, 0)
    requires StoredAnswer(setup, s.store).None?
    ensures var (n, st) := NodeStep(setup, s.nodes[0], s.store, e);
            !n.proc.state.valid && (Read(st.cache).Some? ==> Read(st.cache).value.signedToken.None?)
  {
    if e.Refresh? {
      LockedRefresh(setup, s, e);
    } else if e.End? {
      LockedEnd(setup, s, e);
    }
  }

  lemma LockedStep(setup: Setup, s: System, e: Event)
    requires SystemInv(setup, s) && Locked(s) && !TakesAnswer(setup, s, e, 0) && !e.Overwrite?
    ensures Locked(Step(setup, s, e))
  {
    if !External(e) && e.w < |s.nodes| {
      assert NodeInv(setup, s.nodes[0]);
      assert StoredAnswer(setup, s.store).None?;
      LockedCall(setup, s, e);
    }
  }

  /** With a single worker whose rejection reached the cache, the rejection also survives every restart:
      nothing but a new signed answer of its own licenses the product again. */
  lemma {:induction false} RejectionSurvivesRestarts(setup: Setup, s: System, events: seq<Event>)
    requires SystemInv(setup, s) && Locked(s) && forall i :: 0 <= i < |events| ==> !events[i].Overwrite?
    ensures Locked(Run(setup, s, events)) ||
            exists k :: 0 <= k < |events| && TakesAnswer(setup, Run(setup, s, events[..k]), events[k], 0)
    decreases |events|
  {
    if events != [] {
      if TakesAnswer(setup, s, events[0], 0) {
        assert Run(setup, s, events[..0]) == s;
      } else {
        LockedStep(setup, s, events[0]);
        StepInv(setup, s, events[0]);
        var s' := Step(setup, s, events[0]);
        RejectionSurvivesRestarts(setup, s', events[1..]);
        if k :| 0 <= k < |events| - 1 && TakesAnswer(setup, Run(setup, s', events[1..][..k]), events[1..][k], 0) {
          assert events[..k + 1][0] == events[0] && events[..k + 1][1..] == events[1..][..k];
          assert TakesAnswer(setup, Run(setup, s, events[..k + 1]), events[k + 1], 0);
        }
      }
    }
  }

  /** A rejection that reaches the cache locks. */
  lemma RefuseLocks(setup: Setup, s: System, e: Event)
    requires setup.cacheEnabled && SystemInv(setup, s) && |s.nodes| == 1 && Running(s.nodes[0])
    requires e.Refuse? && e.w == 0 && e.ok
    ensures Locked(Step(setup, s, e))
  {
    assert NodeInv(setup, s.nodes[0]);
  }
}
