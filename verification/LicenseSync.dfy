/** Several workers agree through the two files: no update is lost, adoption only goes forward, and the
    exchange comes to rest. */
module LicenseSync {
  import opened Options
  import opened LicenseToken
  import opened LicenseModel
  import opened LicenseSystem

  // ---------- adoption goes forward ----------

  /** What the process knows is at least as recent as the answer in the cache. */
  predicate UpToDate(setup: Setup, p: Proc, st: Storage) {
    var stored := StoredAnswer(setup, st);
    stored.Some? ==>
      p.signedToken == Some(stored.value.0.signedToken) ||
        (Known(p.state).Some? && Known(p.state).value >= stored.value.1)
  }

  /** Adoption happens exactly when the process was not up to date, makes it so, and strictly raises
      the time it knows. */
  lemma AdoptionRaisesKnown(setup: Setup, p: Proc, st: Storage)
    requires setup.cacheEnabled
    ensures Adopts(setup, p, st) <==> !UpToDate(setup, p, st)
    ensures UpToDate(setup, AdoptCachedAnswer(setup, p, st), st)
    ensures var p' := AdoptCachedAnswer(setup, p, st);
            if Adopts(setup, p, st)
            then Known(p'.state).Some? && (Known(p.state).Some? ==> Known(p'.state).value > Known(p.state).value)
            else p' == p
  {
  }

  // ---------- stamps ----------

  datatype File = LicenseFile | CacheFile

  function StampOn(st: Storage, f: File): Option<Stamp> {
    if f.LicenseFile? then StampOf(st.license) else StampOf(st.cache)
  }

  function Recorded(p: Proc, f: File): Option<Stamp> { if f.LicenseFile? then p.licenseStamp else p.stateStamp }

  predicate SameFile(a: Storage, b: Storage, f: File) {
    if f.LicenseFile? then a.license == b.license else a.cache == b.cache
  }

  /** What the process recorded are stamps of the past. */
  predicate Bounded(p: Proc, st: Storage) {
    && (p.licenseStamp.Some? ==> p.licenseStamp.value <= st.writes)
    && (p.stateStamp.Some? ==> p.stateStamp.value <= st.writes)
  }

  ghost predicate AllBounded(s: System) {
    forall w :: 0 <= w < |s.nodes| ==> Bounded(s.nodes[w].proc, s.store)
  }

  /** The files are left alone, or the cache is written anew. */
  predicate CacheWritten(st: Storage, st': Storage) {
    && st'.license == st.license
    && (st' == st || (st'.writes == st.writes + 1 && StampOf(st'.cache) == Some(st'.writes)))
  }

  /** Calls change no stamp but the sync's own, and leave the files or write the cache anew. */
  lemma CallFrame(setup: Setup, p: Proc, st: Storage, a: Answer, now: Time, seen: Time, ok: bool, read: Time)
    ensures var (p', st') := Refreshed(setup, p, st, a, now, seen, ok, read);
            p'.licenseStamp == p.licenseStamp && p'.stateStamp == p.stateStamp && CacheWritten(st, st')
  {
  }

  /** A call of worker w other than its start and the stamps of a sync records nothing. */
  predicate KeepsStamps(e: Event) { !e.Boot? && !e.Begin? }

  lemma EndFrame(setup: Setup, n: Node, st: Storage, e: Event)
    requires e.End?
    ensures var (n', st') := NodeStep(setup, n, st, e);
            n'.proc.licenseStamp == n.proc.licenseStamp && n'.proc.stateStamp == n.proc.stateStamp &&
              CacheWritten(st, st')
  {
    CallFrame(setup, n.proc, st, ClientValidate(setup, st, e.reply, e.nonce), e.now, e.seen, e.ok, e.read);
  }

  lemma StepFrame(setup: Setup, n: Node, st: Storage, e: Event)
    ensures CacheWritten(st, NodeStep(setup, n, st, e).1)
    ensures var p := NodeStep(setup, n, st, e).0.proc;
            if KeepsStamps(e) then p.licenseStamp == n.proc.licenseStamp && p.stateStamp == n.proc.stateStamp
            else || (p.licenseStamp == n.proc.licenseStamp && p.stateStamp == n.proc.stateStamp)
                 || (p.licenseStamp == StampOf(st.license) && p.stateStamp == StampOf(st.cache))
  {
    if e.Refresh? {
      CallFrame(setup, n.proc, st, e.a, e.now, e.seen, e.ok, e.read);
    } else if e.End? {
      EndFrame(setup, n, st, e);
    }
  }

  /** A file that is there keeps its stamp exactly when it is left alone. */
  lemma FilesMoveOn(setup: Setup, s: System, e: Event, f: File)
    requires SystemInv(setup, s)
    ensures var st, st' := s.store, Step(setup, s, e).store;
            && st.writes <= st'.writes
            && (SameFile(st, st', f) || StampOn(st', f).None? || StampOn(st', f).value > st.writes)
  {
    if !External(e) && e.w < |s.nodes| {
      StepFrame(setup, s.nodes[e.w], s.store, e);
    }
  }

  lemma BoundedStep(setup: Setup, s: System, e: Event)
    requires SystemInv(setup, s) && AllBounded(s)
    ensures AllBounded(Step(setup, s, e))
  {
    FilesMoveOn(setup, s, e, LicenseFile);
    if !External(e) && e.w < |s.nodes| {
      assert Bounded(s.nodes[e.w].proc, s.store);
      StepFrame(setup, s.nodes[e.w], s.store, e);
    }
  }

  lemma {:induction false} BoundedRun(setup: Setup, s: System, events: seq<Event>)
    requires SystemInv(setup, s) && AllBounded(s)
    ensures AllBounded(Run(setup, s, events))
    decreases |events|
  {
    if events != [] {
      BoundedStep(setup, s, events[0]);
      StepInv(setup, s, events[0]);
      BoundedRun(setup, Step(setup, s, events[0]), events[1..]);
    }
  }

  lemma Reached(setup: Setup, s0: System, events: seq<Event>, w: nat)
    requires Initial(s0) && w < |s0.nodes|
    ensures var s := Run(setup, s0, events);
            SystemInv(setup, s) && AllBounded(s) && NodeInv(setup, s.nodes[w]) && Bounded(s.nodes[w].proc, s.store)
  {
    RunInv(setup, s0, events);
    BoundedRun(setup, s0, events);
  }

  // ---------- no update is lost ----------

  /** The event has worker w load the files as they are: at its start, or in the second half of a sync. */
  predicate Loads(s: System, e: Event, w: nat)
    requires w < |s.nodes|
  {
    (e.Restore? && e.w == w && s.nodes[w].phase.Restoring?) || (e.End? && e.w == w && s.nodes[w].phase.Syncing?)
  }

  lemma IdleCallBefore(setup: Setup, n: Node, st: Storage, e: Event)
    requires NodeInv(setup, n) && !External(e) && NodeStep(setup, n, st, e).0.phase.Idle?
    requires !(e.Restore? && n.phase.Restoring?) && !(e.End? && n.phase.Syncing?)
    ensures var p' := NodeStep(setup, n, st, e).0.proc;
            n.phase.Idle? && !e.Boot? && p'.licenseStamp == n.proc.licenseStamp && p'.stateStamp == n.proc.stateStamp
  {
    StepFrame(setup, n, st, e);
  }

  /** Unless it loads, a worker that is idle after a step was idle before it, with the same stamps. */
  lemma IdleBefore(setup: Setup, s: System, e: Event, w: nat)
    requires SystemInv(setup, s) && w < |s.nodes| && !Loads(s, e, w) && Step(setup, s, e).nodes[w].phase.Idle?
    ensures var p, p' := s.nodes[w].proc, Step(setup, s, e).nodes[w].proc;
            s.nodes[w].phase.Idle? && p'.licenseStamp == p.licenseStamp && p'.stateStamp == p.stateStamp &&
              !(e.Boot? && e.w == w)
  {
    assert NodeInv(setup, s.nodes[w]);
    if !External(e) && e.w == w {
      IdleCallBefore(setup, s.nodes[w], s.store, e);
    }
  }

  /** Over every run of every number of workers: if the next sync of an idle worker would see nothing new about a
      file, then since its start it has loaded that file at a step k at which the file was what it is now.
      Writes that fall between the stamps and the load of a sync are no exception. */
  lemma {:induction false} NoUpdateIsLost(setup: Setup, s0: System, events: seq<Event>, w: nat, f: File)
      returns (k: nat)
    requires Initial(s0) && w < |s0.nodes|
    requires var s := Run(setup, s0, events);
             s.nodes[w].phase.Idle? && StampOn(s.store, f).Some? && Recorded(s.nodes[w].proc, f) == StampOn(s.store, f)
    ensures k < |events| && Loads(Run(setup, s0, events[..k]), events[k], w) && NoBoot(events[k..], w)
    ensures SameFile(Run(setup, s0, events[..k]).store, Run(setup, s0, events).store, f)
    decreases |events|
  {
    assert events != [];
    var n := |events| - 1;
    var init, e := events[..n], events[n];
    var s1 := Run(setup, s0, init);
    RunLast(setup, s0, events);
    Reached(setup, s0, init, w);
    FilesMoveOn(setup, s1, e, f);
    if Loads(s1, e, w) {
      k := n;
      StepFrame(setup, s1.nodes[w], s1.store, e);
    } else {
      IdleBefore(setup, s1, e, w);
      k := NoUpdateIsLost(setup, s0, init, w, f);
      assert init[..k] == events[..k] && events[k..] == init[k..] + [e];
    }
  }

  // ---------- when a worker that sees nothing new is up to date ----------

  /** When a signed answer was given, as far as the process will know: a "no" counts from when it was told. */
  function LearnedAt(s: SignedState, now: Time): Option<Time> {
    var issued := UtcFromEpoch(s.issuedAt);
    if s.valid then issued else if issued.Some? then Some(Max(issued.value, now)) else Some(now)
  }

  /** Whether a process that took this answer, and could not or need not write it, is up to date with what is
      stored; `before`: whether it was. */
  predicate AnswerKeepsUp(stored: Option<(SignedState, Time)>, state: LicenseState, a: Answer, now: Time,
                          before: bool) {
    stored.None? ||
    match a
    case Signed(s) =>
      || s.signedToken == stored.value.0.signedToken
      || (LearnedAt(s, now).Some? && LearnedAt(s, now).value >= stored.value.1)
    case Rejected => now >= stored.value.1
    case Unreachable => before
    case NotActivated => before || (state.lastValidatedAt.Some? && state.lastValidatedAt.value >= stored.value.1)
    case Failed => before || (state.lastValidatedAt.Some? && state.lastValidatedAt.value >= stored.value.1)
  }

  /** What each call of a worker does to its being up to date: a restore keeps up unless it refuses what is
      stored; a verdict of its own unless it is older than that; the load of a sync always does. */
  predicate CallKeepsUp(setup: Setup, n: Node, st: Storage, e: Event, before: bool) {
    var stored := StoredAnswer(setup, st);
    match e
    case Restore(_, now) =>
      if n.phase.Restoring?
      then stored.None? || Restorable(stored.value.0, stored.value.1, Read(st.cache).value.lastSeen, now)
      else before
    case Refuse(_, now, _, _) =>
      if Running(n) then AnswerKeepsUp(stored, n.proc.state, Rejected, now, before) else before
    case Refresh(_, a, now, _, _, _) =>
      if Running(n) && a in n.answers then AnswerKeepsUp(stored, n.proc.state, a, now, before) else before
    case End(_, reply, nonce, now, _, _, _) =>
      if !(n.phase.Syncing? && n.phase.todo.Load?) then before
      else if n.phase.todo.licenseChanged && IsOffline(st)
      then AnswerKeepsUp(stored, n.proc.state, ClientValidate(setup, st, reply, nonce), now, before)
      else true
    case _ => before
  }

  predicate KeepsUp(setup: Setup, s: System, events: seq<Event>, w: nat, before: bool)
    requires w < |s.nodes|
    decreases |events|
  {
    if events == [] then before
    else
      var e := events[0];
      KeepsUp(setup, Step(setup, s, e), events[1..], w,
              if !External(e) && e.w == w then CallKeepsUp(setup, s.nodes[w], s.store, e, before) else before)
  }

  /** Both files are there and the process has recorded them as they are. */
  predicate SeesNothingNew(p: Proc, st: Storage) {
    st.license.Some? && st.cache.Some? && p.licenseStamp == StampOf(st.license) && p.stateStamp == StampOf(st.cache)
  }

  /** If the next sync of the node, idle as it is, would load nothing, `up` tells whether it is up to date. */
  predicate Tracks(setup: Setup, n: Node, st: Storage, up: bool) {
    n.phase.Idle? && SeesNothingNew(n.proc, st) ==> (UpToDate(setup, n.proc, st) <==> up)
  }

  lemma AnswerTracks(setup: Setup, p: Proc, st: Storage, a: Answer, now: Time, seen: Time, ok: bool, read: Time,
                     before: bool)
    requires setup.cacheEnabled && p.attached && Bounded(p, st) && WellStamped(st)
    requires SeesNothingNew(p, st) && (a.Unreachable? || a.NotActivated? || a.Failed?) ==>
             (UpToDate(setup, p, st) <==> before)
    ensures var (p', st') := Refreshed(setup, p, st, a, now, seen, ok, read);
            SeesNothingNew(p', st') ==>
              (UpToDate(setup, p', st') <==> AnswerKeepsUp(StoredAnswer(setup, st), p.state, a, now, before))
  {
  }

  lemma RestoreTracks(setup: Setup, n: Node, st: Storage, e: Event, before: bool)
    requires setup.cacheEnabled && NodeInv(setup, n) && n.phase.Restoring? && e.Restore?
    ensures Tracks(setup, NodeStep(setup, n, st, e).0, st, CallKeepsUp(setup, n, st, e, before))
  {
  }

  lemma EndTracks(setup: Setup, n: Node, st: Storage, e: Event, before: bool)
    requires setup.cacheEnabled && NodeInv(setup, n) && WellStamped(st) && Bounded(n.proc, st) && n.phase.Syncing?
    requires e.End?
    ensures Tracks(setup, NodeStep(setup, n, st, e).0, NodeStep(setup, n, st, e).1,
            CallKeepsUp(setup, n, st, e, before))
  {
    if n.phase.todo.licenseChanged && n.phase.todo.licenseGone {
      EndFrame(setup, n, st, e);
    } else if n.phase.todo.licenseChanged && IsOffline(st) {
      AnswerTracks(setup, n.proc, st, ClientValidate(setup, st, e.reply, e.nonce), e.now, e.seen, e.ok, e.read, before);
    } else {
      AdoptionRaisesKnown(setup, n.proc, st);
    }
  }

  lemma SmallCallTracks(setup: Setup, n: Node, st: Storage, e: Event, before: bool)
    requires setup.cacheEnabled && NodeInv(setup, n) && WellStamped(st) && Bounded(n.proc, st)
    requires Tracks(setup, n, st, before)
    requires e.Boot? || e.Ask? || e.Validate? || e.Lose? || e.Begin?
    ensures Tracks(setup, NodeStep(setup, n, st, e).0, NodeStep(setup, n, st, e).1,
            CallKeepsUp(setup, n, st, e, before))
  {
  }

  lemma CallTracks(setup: Setup, n: Node, st: Storage, e: Event, before: bool)
    requires setup.cacheEnabled && NodeInv(setup, n) && WellStamped(st) && Bounded(n.proc, st)
    requires Tracks(setup, n, st, before)
    requires !External(e)
    ensures Tracks(setup, NodeStep(setup, n, st, e).0, NodeStep(setup, n, st, e).1,
            CallKeepsUp(setup, n, st, e, before))
  {
    if e.Restore? {
      if n.phase.Restoring? {
        RestoreTracks(setup, n, st, e, before);
      }
    } else if e.End? {
      if n.phase.Syncing? {
        EndTracks(setup, n, st, e, before);
      }
    } else if e.Refuse? {
      if n.phase.Idle? {
        AnswerTracks(setup, n.proc, st, Rejected, e.now, e.seen, e.ok, 0, before);
      }
    } else if e.Refresh? {
      if n.phase.Idle? {
        AnswerTracks(setup, n.proc, st, e.a, e.now, e.seen, e.ok, e.read, before);
      }
    } else {
      SmallCallTracks(setup, n, st, e, before);
    }
  }

  /** What others do to the files either leaves them alone or shows. */
  lemma OthersTrack(setup: Setup, s: System, e: Event, w: nat, before: bool)
    requires SystemInv(setup, s) && AllBounded(s) && w < |s.nodes| && Tracks(setup, s.nodes[w], s.store, before)
    requires External(e) || e.w != w
    ensures Tracks(setup, Step(setup, s, e).nodes[w], Step(setup, s, e).store, before)
  {
    assert Bounded(s.nodes[w].proc, s.store);
    FilesMoveOn(setup, s, e, LicenseFile);
    FilesMoveOn(setup, s, e, CacheFile);
  }

  lemma {:induction false} RunTracks(setup: Setup, s: System, events: seq<Event>, w: nat, before: bool)
    requires setup.cacheEnabled && SystemInv(setup, s) && AllBounded(s) && w < |s.nodes|
    requires Tracks(setup, s.nodes[w], s.store, before)
    ensures Tracks(setup, Run(setup, s, events).nodes[w], Run(setup, s, events).store,
            KeepsUp(setup, s, events, w, before))
    decreases |events|
  {
    if events != [] {
      var e := events[0];
      StepInv(setup, s, e);
      BoundedStep(setup, s, e);
      if !External(e) && e.w == w {
        assert NodeInv(setup, s.nodes[w]) && Bounded(s.nodes[w].proc, s.store);
        CallTracks(setup, s.nodes[w], s.store, e, before);
        RunTracks(setup, Step(setup, s, e), events[1..], w, CallKeepsUp(setup, s.nodes[w], s.store, e, before));
      } else {
        OthersTrack(setup, s, e, w, before);
        RunTracks(setup, Step(setup, s, e), events[1..], w, before);
      }
    }
  }

  /** Over every run of every number of workers, an idle worker whose next sync would see nothing new holds the
      stored answer, or knows something at least as recent, exactly when a file is missing or its last calls
      kept it up: no restore refused what is stored, and no verdict of its own that could not be written
      was older, without a later load of these files. */
  lemma UpToDateIff(setup: Setup, s0: System, events: seq<Event>, w: nat)
    requires setup.cacheEnabled && Initial(s0) && w < |s0.nodes|
    requires var s := Run(setup, s0, events);
             && s.nodes[w].phase.Idle?
             && s.nodes[w].proc.licenseStamp == StampOf(s.store.license)
             && s.nodes[w].proc.stateStamp == StampOf(s.store.cache)
    ensures var s := Run(setup, s0, events);
            UpToDate(setup, s.nodes[w].proc, s.store) <==>
            s.store.license.None? || s.store.cache.None? || KeepsUp(setup, s0, events, w, true)
  {
    RunTracks(setup, s0, events, w, true);
  }

  predicate Throttled(p: Proc, mono: Time) {
    p.state.valid && p.lastSync.Some? && mono - p.lastSync.value < SYNC_INTERVAL
  }

  /** What one unthrottled sync leaves, when nobody writes between its halves. */
  lemma SyncLeaves(setup: Setup, p: Proc, st: Storage, mono: Time, reply: Reply, nonce: string, now: Time, seen: Time,
                   ok: bool, read: Time)
    requires setup.cacheEnabled && p.attached && !Throttled(p, mono)
    ensures var (p1, todo) := SyncBegin(p, st, mono);
            var p2 := SyncEnd(setup, p1, st, todo, reply, nonce, now, seen, ok, read).0;
            var licenseChanged, cacheChanged :=
              p.licenseStamp != StampOf(st.license), p.stateStamp != StampOf(st.cache);
            && (licenseChanged && st.license.None? ==> !p2.state.valid)
            && (licenseChanged && IsOffline(st) ==>
                  p2.state == Take(setup, p, st, ClientValidate(setup, st, reply, nonce), now, seen, ok).0.state)
            && ((licenseChanged || cacheChanged) && !(licenseChanged && IsOffline(st)) ==> UpToDate(setup, p2, st))
            && (!licenseChanged && !cacheChanged ==> p2 == p.(lastSync := Some(mono)))
  {
    AdoptionRaisesKnown(setup, SyncBegin(p, st, mono).0, st);
  }

  /** Both halves, one after the other. */
  lemma BothHalves(setup: Setup, s: System, w: nat, mono: Time, reply: Reply, nonce: string, now: Time, seen: Time,
                   ok: bool, read: Time)
    requires w < |s.nodes| && s.nodes[w].phase.Idle? && s.nodes[w].proc.attached
    ensures var n' := Run(setup, s, [Begin(w, mono), End(w, reply, nonce, now, seen, ok, read)]).nodes[w];
            var (p, todo) := SyncBegin(s.nodes[w].proc, s.store, mono);
            n'.phase.Idle? && n'.proc == SyncEnd(setup, p, s.store, todo, reply, nonce, now, seen, ok, read).0
  {
    var e1, e2 := Begin(w, mono), End(w, reply, nonce, now, seen, ok, read);
    assert [e1, e2][1..] == [e2] && [e2][1..] == [];
    assert Run(setup, Step(setup, s, e1), [e2]) == Step(setup, Step(setup, s, e1), e2);
  }

  /** Once writes stop, one unthrottled sync of an idle worker is enough, and more would change nothing: if it
      sees a change, the worker has the changed offline license's answer, no license when the file is gone, or
      the stored answer unless it knows something as recent; if it sees none, the worker is up to date exactly
      if its calls before kept it up. */
  lemma OneSyncCatchesUp(setup: Setup, s0: System, before: seq<Event>, w: nat, mono: Time,
                         reply: Reply, nonce: string, now: Time, seen: Time, ok: bool, read: Time)
    requires setup.cacheEnabled && Initial(s0) && w < |s0.nodes|
    requires var n := Run(setup, s0, before).nodes[w]; n.phase.Idle? && !Throttled(n.proc, mono)
    ensures var s := Run(setup, s0, before);
            var n := s.nodes[w];
            var n' := Run(setup, s, [Begin(w, mono), End(w, reply, nonce, now, seen, ok, read)]).nodes[w];
            var licenseChanged, cacheChanged :=
              n.proc.licenseStamp != StampOf(s.store.license), n.proc.stateStamp != StampOf(s.store.cache);
            && n'.phase.Idle?
            && (licenseChanged && s.store.license.None? ==> !n'.proc.state.valid)
            && (licenseChanged && IsOffline(s.store) ==>
                  n'.proc.state == Take(setup, n.proc, s.store, ClientValidate(setup, s.store, reply, nonce), now,
                    seen, ok).0.state)
            && (!(licenseChanged && IsOffline(s.store)) ==>
                  (UpToDate(setup, n'.proc, s.store) <==>
                   || licenseChanged || cacheChanged
                   || s.store.license.None? || s.store.cache.None?
                   || KeepsUp(setup, s0, before, w, true)))
  {
    var s := Run(setup, s0, before);
    var n := s.nodes[w];
    Reached(setup, s0, before, w);
    BothHalves(setup, s, w, mono, reply, nonce, now, seen, ok, read);
    SyncLeaves(setup, n.proc, s.store, mono, reply, nonce, now, seen, ok, read);
    if n.proc.licenseStamp == StampOf(s.store.license) && n.proc.stateStamp == StampOf(s.store.cache) {
      UpToDateIff(setup, s0, before, w);
    }
  }

  /** That a worker is left behind does happen: the clock is wrong when it starts, so it refuses the stored
      answer, but has recorded the files; put right, it sees nothing new and stays without the license
      that a restart would take up. */
  lemma ARefusedRestoreStaysBehind(setup: Setup, mono: Time) returns (s0: System, events: seq<Event>)
    requires setup.cacheEnabled && setup.trust.fingerprint == "F"
    requires setup.trust.signed("t") == Some(Claims(1, "validate", "K", "F", None, Some(1000), true, None, None,
             false, NotADict, None, None))
    ensures Initial(s0) && |s0.nodes| == 1 && events == [Boot(0), Restore(0, 0), Begin(0, mono)]
    ensures var s := Run(setup, s0, events);
            var stored := StoredAnswer(setup, s.store);
            && s.nodes[0].phase.Idle? && SeesNothingNew(s.nodes[0].proc, s.store)
            && !s.nodes[0].proc.state.valid && !UpToDate(setup, s.nodes[0].proc, s.store)
            && stored.Some? && Restorable(stored.value.0, stored.value.1, None, 1000 * SECOND)
  {
    var st := Storage(Some(Cell(1, Some(LicenseData("K", "F", false, "")))),
      Some(Cell(2, Some(CacheEntry(Some("t"), None)))), 2);
    s0 := System(st, [DOWN]);
    events := [Boot(0), Restore(0, 0), Begin(0, mono)];
    var s := RunThree(setup, s0, events);
    var c := setup.trust.signed("t").value;
    assert StoredAnswer(setup, st) == Some((ClaimsToState(c, "t"), 1000 * SECOND));
    assert s.store == st && s.nodes[0].proc.state == NO_LICENSE;
  }

  // ---------- a removed license file ----------

  /** The exact condition: an unthrottled sync after the license file was deleted ends the license in
      a worker if that worker had recorded the file; a worker that had not keeps whatever it has. */
  lemma RemovalIsNoticedIffTheFileWasKnown(setup: Setup, p: Proc, st: Storage, mono: Time,
                                           reply: Reply, nonce: string, now: Time, seen: Time, ok: bool, read: Time)
    requires p.attached && st.license.None? && !Throttled(p, mono)
    ensures var (p1, todo) := SyncBegin(p, st, mono);
            var p2 := SyncEnd(setup, p1, st, todo, reply, nonce, now, seen, ok, read).0;
            p2.state.valid <==> p.licenseStamp.None? && p.state.valid
  {
  }

  lemma ActivatedAndValidated(setup: Setup, s: System, c: Claims) returns (events: seq<Event>)
    requires setup.cacheEnabled && setup.trust.fingerprint == "F" && setup.trust.signed("t") == Some(c)
    requires c == Claims(1, "validate", "K", "F", Some("n"), Some(0), true, None, None, false, NotADict, None, None)
    requires s == System(Storage(None, None, 0), [Node(Attach(FRESH, Storage(None, None, 0)), Idle, multiset{})])
    ensures |events| == 3 && events[0].Install? && events[1].Validate? && events[2].Refresh?
    ensures var n := Run(setup, s, events).nodes[0];
            && n.phase.Idle? && n.proc.attached && n.proc.licenseStamp.None? && n.proc.lastSync.None?
            && n.proc.state.valid && Get(n.proc, 0).0.valid
  {
    var answer := Signed(ClaimsToState(c, "t"));
    events := [Install(Some(LicenseData("K", "F", false, ""))), Validate(0, Response("t"), "n"),
      Refresh(0, answer, 0, 0, true, 0)];
    assert ClientValidate(setup, Step(setup, s, events[0]).store, Response("t"), "n") == answer;
    var s3 := RunThree(setup, s, events);
  }

  lemma RemovedAndSynced(setup: Setup, s: System, events: seq<Event>)
    requires |s.nodes| == 1 && s.nodes[0].phase.Idle? && s.nodes[0].proc.attached && s.nodes[0].proc.licenseStamp.None?
    requires s.nodes[0].proc.lastSync.None? && s.nodes[0].proc.state.valid
    requires events == [Remove(false), Begin(0, SECOND), End(0, NoAnswer, "", 0, 0, true, 0)]
    ensures var s', p := Run(setup, s, events), s.nodes[0].proc;
            s'.store.license.None? && s'.nodes[0].phase.Idle? && s'.nodes[0].proc.state == p.state &&
              s'.nodes[0].proc.maxSeen == p.maxSeen
  {
    var r := RunThree(setup, s, events);
  }

  /** And that happens: activated elsewhere, validated here by the heartbeat, removed before this worker's
      next sync, the license stays valid here although no license file is left. */
  lemma ARemovalCanBeMissed(setup: Setup, s: System, c: Claims) returns (events: seq<Event>)
    requires setup.cacheEnabled && setup.trust.fingerprint == "F" && setup.trust.signed("t") == Some(c)
    requires c == Claims(1, "validate", "K", "F", Some("n"), Some(0), true, None, None, false, NotADict, None, None)
    requires s == System(Storage(None, None, 0), [Node(Attach(FRESH, Storage(None, None, 0)), Idle, multiset{})])
    ensures |events| == 6 && events[0].Install? && events[1].Validate? && events[2].Refresh?
    ensures events[3] == Remove(false) && events[4].Begin? && events[5].End?
    ensures var s' :=
            Run(setup, s, events); s'.store.license.None? && s'.nodes[0].phase.Idle? && Get(s'.nodes[0].proc, 0).0.valid
  {
    var first := ActivatedAndValidated(setup, s, c);
    var second := [Remove(false), Begin(0, SECOND), End(0, NoAnswer, "", 0, 0, true, 0)];
    RemovedAndSynced(setup, Run(setup, s, first), second);
    RunAppend(setup, s, first, second);
    events := first + second;
  }

  // ---------- the exchange comes to rest ----------

  /** How many cache writes the license-file changes a worker has not dealt with can still cause. */
  function Debt(n: Node, st: Storage): nat {
    (if n.phase == Syncing(Load(true, true)) || n.phase == Syncing(Load(true, false)) then 1 else 0) +
    (if n.proc.licenseStamp != StampOf(st.license) then 1 else 0)
  }

  function TotalDebt(nodes: seq<Node>, st: Storage): nat {
    if nodes == [] then 0 else Debt(nodes[0], st) + TotalDebt(nodes[1..], st)
  }

  lemma {:induction false} TotalDebtUpdate(nodes: seq<Node>, st: Storage, w: nat, n: Node)
    requires w < |nodes|
    ensures TotalDebt(nodes[w := n], st) == TotalDebt(nodes, st) - Debt(nodes[w], st) + Debt(n, st)
  {
    if w == 0 {
      assert nodes[w := n][1..] == nodes[1..];
    } else {
      assert nodes[w := n][1..] == nodes[1..][w - 1 := n];
      TotalDebtUpdate(nodes[1..], st, w - 1, n);
    }
  }

  lemma {:induction false} TotalDebtLicenseOnly(nodes: seq<Node>, st: Storage, st': Storage)
    requires st.license == st'.license
    ensures TotalDebt(nodes, st) == TotalDebt(nodes, st')
  {
    if nodes != [] {
      TotalDebtLicenseOnly(nodes[1..], st, st');
    }
  }

  predicate SyncOnly(e: Event) { e.Begin? || e.End? || e.Ask? }

  lemma SyncCallPaysItsWrites(setup: Setup, n: Node, st: Storage, e: Event)
    requires SyncOnly(e)
    ensures var (n', st') := NodeStep(setup, n, st, e);
            st'.license == st.license && st'.writes + Debt(n', st) <= st.writes + Debt(n, st)
  {
    StepFrame(setup, n, st, e);
  }

  lemma SyncStepPaysItsWrites(setup: Setup, s: System, e: Event)
    requires SyncOnly(e)
    ensures var s' := Step(setup, s, e);
            && s'.store.license == s.store.license
            && s'.store.writes + TotalDebt(s'.nodes, s'.store) <= s.store.writes + TotalDebt(s.nodes, s.store)
  {
    if e.w < |s.nodes| {
      var n := s.nodes[e.w];
      var (n', st') := NodeStep(setup, n, s.store, e);
      SyncCallPaysItsWrites(setup, n, s.store, e);
      TotalDebtUpdate(s.nodes, s.store, e.w, n');
      TotalDebtLicenseOnly(s.nodes[e.w := n'], s.store, st');
    }
  }

  /** While only syncs run, however many and in whatever order, the cache is written at most as often
      as there were license-file changes still to be dealt with. */
  lemma {:induction false} SyncsComeToRest(setup: Setup, s: System, events: seq<Event>)
    requires forall i :: 0 <= i < |events| ==> SyncOnly(events[i])
    ensures var s' := Run(setup, s, events);
            s'.store.writes + TotalDebt(s'.nodes, s'.store) <= s.store.writes + TotalDebt(s.nodes, s.store)
    decreases |events|
  {
    if events != [] {
      SyncStepPaysItsWrites(setup, s, events[0]);
      SyncsComeToRest(setup, Step(setup, s, events[0]), events[1..]);
    }
  }

  lemma {:induction false} DebtOfOneChange(nodes: seq<Node>, st: Storage, st': Storage)
    requires TotalDebt(nodes, st) == 0
    ensures TotalDebt(nodes, st') <= |nodes|
  {
    if nodes != [] {
      DebtOfOneChange(nodes[1..], st, st');
    }
  }

  /** One license-file change, in a system at rest, costs at most one cache write per worker. */
  lemma OneChangeOneWritePerWorker(setup: Setup, s: System, change: Event, events: seq<Event>)
    requires TotalDebt(s.nodes, s.store) == 0 && (change.Install? || change.Remove?)
    requires forall i :: 0 <= i < |events| ==> SyncOnly(events[i])
    ensures Run(setup, Step(setup, s, change), events).store.writes <= Step(setup, s, change).store.writes + |s.nodes|
  {
    var s' := Step(setup, s, change);
    DebtOfOneChange(s.nodes, s.store, s'.store);
    SyncsComeToRest(setup, s', events);
  }
}
