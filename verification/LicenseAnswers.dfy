/** What a validation comes to, from the reply of the license server to the fields of the state: every condition
    is on the claims a trusted key signed, every result on the fields. */
module LicenseAnswers {
  import opened Options
  import opened LicenseToken
  import opened LicenseModel
  import opened LicenseSystem
  import opened LicenseWindows
  import opened PyText
  import LicenseWorker

  // ---------- which tokens count ----------

  /** The token says this, in the supported version, for this license key and this machine, with an issue time. */
  predicate Says(trust: Trust, token: Token, key: string, c: Claims) {
    && token != ""
    && trust.signed(token) == Some(c)
    && c.version == 1
    && c.licenseKey == key
    && c.fingerprint == trust.fingerprint
    && c.iat.Some?
  }

  /** A state field by field as the claims say. */
  predicate Describes(s: SignedState, c: Claims, token: Token) {
    && s.valid == c.valid
    && s.planCode == c.plan
    && s.planName == c.planName
    && s.isPilotMode == c.pilot
    && s.limits == c.limits
    && s.expiresAt == c.exp
    && s.issuedAt == c.iat
    && (s.offlineLicense <==> c.typ == "offline")
    && s.offlineUntil == c.offlineUntil
    && s.signedToken == token
  }

  predicate OnlineLicense(st: Storage) { Read(st.license).Some? && !Read(st.license).value.offlineMode }

  function LicenseKey(st: Storage): string
    requires Read(st.license).Some?
  {
    Read(st.license).value.licenseKey
  }

  /** The response answers this very request: it says so for the stored key, and carries the nonce that was sent. */
  predicate AnswersTheRequest(setup: Setup, st: Storage, token: Token, nonce: string, c: Claims)
    requires Read(st.license).Some?
  {
    Says(setup.trust, token, LicenseKey(st), c) && c.typ == "validate" && c.nonce == Some(nonce)
  }

  /** A response is taken exactly if it does; no answer, a 4xx and a missing license are told apart from it. */
  lemma ResponseIsTakenIff(setup: Setup, st: Storage, token: Token, nonce: string)
    requires OnlineLicense(st)
    ensures var a := ClientValidate(setup, st, Response(token), nonce);
            && (a.Signed? <==> exists c :: AnswersTheRequest(setup, st, token, nonce, c))
            && (a.Signed? || a == Rejected)
            && forall c :: AnswersTheRequest(setup, st, token, nonce, c) && a.Signed? ==> Describes(a.state, c, token)
    ensures ClientValidate(setup, st, NoAnswer, nonce) == Unreachable
    ensures ClientValidate(setup, st, ClientError, nonce) == Failed
  {
    if ClientValidate(setup, st, Response(token), nonce).Signed? {
      assert AnswersTheRequest(setup, st, token, nonce, setup.trust.signed(token).value);
    }
  }

  /** The token of an offline license file that grants a license here. */
  predicate GrantsOffline(setup: Setup, data: LicenseData, c: Claims) {
    && data.fingerprint == setup.trust.fingerprint
    && Says(setup.trust, data.offlineToken, data.licenseKey, c)
    && c.typ == "offline"
    && c.valid
    && c.offlineUntil.Some?
  }

  /** An offline license file is judged by itself, whatever the network does. */
  lemma OfflineFileIsTakenIff(setup: Setup, st: Storage, reply: Reply, nonce: string)
    requires Read(st.license).Some? && Read(st.license).value.offlineMode
    ensures var data, a := Read(st.license).value, ClientValidate(setup, st, reply, nonce);
            && (a.Signed? <==> exists c :: GrantsOffline(setup, data, c))
            && (a.Signed? || a == Rejected)
            && forall c :: GrantsOffline(setup, data, c) && a.Signed? ==> Describes(a.state, c, data.offlineToken)
  {
    var data := Read(st.license).value;
    if ClientValidate(setup, st, reply, nonce).Signed? {
      assert GrantsOffline(setup, data, setup.trust.signed(data.offlineToken).value);
    }
  }

  /** The cached token counts: it says so for the license key stored now, and its issue time is a date. */
  predicate CacheSays(setup: Setup, st: Storage, c: Claims) {
    && Read(st.cache).Some?
    && Read(st.cache).value.signedToken.Some?
    && Read(st.license).Some?
    && Says(setup.trust, Read(st.cache).value.signedToken.value, LicenseKey(st), c)
    && -62_135_596_800 <= c.iat.value <= 253_402_300_799
  }

  lemma CacheCountsIff(setup: Setup, st: Storage)
    ensures StoredAnswer(setup, st).Some? <==> exists c :: CacheSays(setup, st, c)
    ensures forall c :: CacheSays(setup, st, c) && StoredAnswer(setup, st).Some? ==>
              && Describes(StoredAnswer(setup, st).value.0, c, Read(st.cache).value.signedToken.value)
              && StoredAnswer(setup, st).value.1 == c.iat.value * 1_000_000
  {
    if StoredAnswer(setup, st).Some? {
      assert CacheSays(setup, st, setup.trust.signed(Read(st.cache).value.signedToken.value).value);
    }
  }

  // ---------- an offline license file ----------

  lemma TwoLinesJoined(a: string, b: string)
    ensures JoinLines([a, b]) == a + "\n" + b
  {
    assert [a, b][1..] == [b];
  }

  lemma NoneIsBlank(a: string, b: string)
    requires Strip(a) == a != "" && Strip(b) == b != ""
    ensures NonBlank([a, b]) == [a, b] && NonBlank([a]) == [a]
  {
    assert [a, b][1..] == [b] && [b][1..] == [] && [a][1..] == [];
    assert NonBlank([b]) == [b];
  }

  lemma JoinedIsTrimmed(a: string, b: string)
    requires Trimmed(a) && Trimmed(b)
    ensures Trimmed(a + "\n" + b)
  {
    var s := a + "\n" + b;
    assert s[0] == a[0] && s[|s| - 1] == b[|b| - 1];
  }

  /** What is left of the file when blanks are cut off. */
  lemma FileStripped(a: string, b: string)
    requires Trimmed(a) && Trimmed(b)
    ensures Strip(Unlines([a, b])) == JoinLines([a, b]) && |Unlines([a, b])| == |a| + |b| + 2
    ensures Strip(Unlines([a])) == JoinLines([a])
  {
    JoinedIsTrimmed(a, b);
    TwoLinesJoined(a, b);
    JoinedIsWritten([a, b]);
    JoinedIsWritten([a]);
    TrimmedIsStripped(JoinLines([a, b]));
    TrimmedIsStripped(a);
  }

  /** A file of two lines is an offline license exactly if the first is the header and it is not too long. */
  lemma OfflineFileIsHeaderAndToken(header: string, token: Token)
    requires Trimmed(header) && Trimmed(token) && OneLine(header) && OneLine(token)
    ensures OfflineToken(Unlines([header, token])) ==
            if header == "NGCORION-OFFLINE-LICENSE-1" && |header| + |token| + 2 <= 16384 then Some(token) else None
    ensures OfflineToken(Unlines([header])) == None
  {
    FileStripped(header, token);
    SplitLinesOfJoined([header, token]);
    SplitLinesOfJoined([header]);
    TrimmedIsStripped(header);
    TrimmedIsStripped(token);
    NoneIsBlank(header, token);
  }

  /** The token says so, and the end it names is not reached. */
  predicate GrantsUntilLater(trust: Trust, token: Token, key: string, now: int, c: Claims) {
    && Says(trust, token, key, c)
    && c.typ == "offline"
    && c.valid
    && c.offlineUntil.Some?
    && c.offlineUntil.value > now
  }

  /** A file can be installed exactly if its token grants a license on this machine for the key it names, and has
      not ended. */
  lemma InstallableIff(setup: Setup, text: string, keyIn: Token -> Option<string>, now: int)
    ensures LicenseWorker.Installable(setup, text, keyIn, now) <==>
            && OfflineToken(text).Some?
            && keyIn(OfflineToken(text).value).Some?
            && exists c :: GrantsUntilLater(setup.trust, OfflineToken(text).value,
                                            keyIn(OfflineToken(text).value).value, now, c)
  {
    if OfflineToken(text).Some? && keyIn(OfflineToken(text).value).Some? {
      TokenIsInstallableIff(setup, OfflineToken(text).value, keyIn(OfflineToken(text).value).value, now);
    }
  }

  lemma TokenIsInstallableIff(setup: Setup, token: Token, key: string, now: int)
    ensures var answer := OfflineState(setup, LicenseData(key, setup.trust.fingerprint, true, token));
            answer.Signed? && answer.state.offlineUntil.value > now <==>
              exists c :: GrantsUntilLater(setup.trust, token, key, now, c)
  {
    var answer := OfflineState(setup, LicenseData(key, setup.trust.fingerprint, true, token));
    if answer.Signed? && answer.state.offlineUntil.value > now {
      assert GrantsUntilLater(setup.trust, token, key, now, setup.trust.signed(token).value);
    }
  }

  // ---------- what a state grants ----------

  predicate PacksAsSigned(limits: Limits, packs: int) {
    packs == 0 || (limits.Limits? && limits.addonPacks == Number(packs))
  }

  /** A number of seconds is a time if it is a date from the year 1 to 9999. */
  predicate TimeAsSigned(seconds: Option<int>, time: Option<Time>) {
    && (time.Some? <==> seconds.Some? && -62_135_596_800 <= seconds.value <= 253_402_300_799)
    && (time.Some? ==> time.value == seconds.value * 1_000_000)
  }

  /** Every field an entitlement or a page is made from is what the claims say. */
  predicate GrantedBy(state: LicenseState, c: Claims) {
    && state.valid == c.valid
    && state.planCode == c.plan
    && state.planName == c.planName
    && state.isPilotMode == c.pilot
    && LimitAsSigned(c.limits, state.maxAssets)
    && PacksAsSigned(c.limits, state.addonPacks)
    && (c.limits.Limits? && c.limits.addonPacks.Number? ==> state.addonPacks == c.limits.addonPacks.n)
    && TimeAsSigned(c.exp, state.expiresAt)
    && (state.offlineLicense <==> c.typ == "offline")
    && TimeAsSigned(c.offlineUntil, state.offlineUntil)
  }

  /** No plan, no assets, no date is left. */
  predicate NothingGranted(state: LicenseState) {
    && !state.valid
    && state.planCode.None?
    && state.planName.None?
    && !state.isPilotMode
    && state.maxAssets.None?
    && state.addonPacks == 0
    && state.expiresAt.None?
    && !state.offlineLicense
    && state.offlineUntil.None?
  }

  /** The cache holds this token and the latest time of the process, if it could be written; else the files are
      as they were. */
  predicate CacheAfter(setup: Setup, st: Storage, st': Storage, ok: bool, token: Option<Token>, seen: Time,
                       before: Option<Time>) {
    if !ok || !setup.cacheEnabled then st' == st
    else
      var latest := if before.Some? && before.value > seen then before.value else seen;
      st'.license == st.license && Read(st'.cache) == Some(CacheEntry(token, Some(latest)))
  }

  // ---------- the outcomes of a refresh ----------

  /** An answer that counts becomes the state, and is cached if it says yes. */
  lemma AnswerIsTheState(setup: Setup, p: Proc, st: Storage, token: Token, nonce: string, c: Claims, now: Time,
                         seen: Time, ok: bool, read: Time)
    requires p.attached && OnlineLicense(st) && AnswersTheRequest(setup, st, token, nonce, c)
    ensures var a := ClientValidate(setup, st, Response(token), nonce);
            var (p', st') := Refreshed(setup, p, st, a, now, seen, ok, read);
            && GrantedBy(p'.state, c)
            && TimeAsSigned(c.iat, p'.state.issuedAt)
            && !p'.state.offline
            && p'.state.lastValidatedAt == Some(now)
            && p'.signedToken == Some(token)
            && CacheAfter(setup, st, st', ok, if c.valid then Some(token) else None, seen, p.maxSeen)
  {
  }

  /** A response that does not count ends the license, here and in the cache. */
  lemma ForeignResponseEndsTheLicense(setup: Setup, p: Proc, st: Storage, token: Token, nonce: string, now: Time,
                                      seen: Time, ok: bool, read: Time)
    requires p.attached && OnlineLicense(st) && forall c :: !AnswersTheRequest(setup, st, token, nonce, c)
    ensures var a := ClientValidate(setup, st, Response(token), nonce);
            var (p', st') := Refreshed(setup, p, st, a, now, seen, ok, read);
            && NothingGranted(p'.state)
            && p'.state.issuedAt.None?
            && !p'.state.offline
            && p'.state.lastValidatedAt == Some(now)
            && p'.signedToken.None?
            && CacheAfter(setup, st, st', ok, None, seen, p.maxSeen)
  {
    ResponseIsTakenIff(setup, st, token, nonce);
  }

  /** Without an answer only the offline mark changes; a cache that is written holds the process's own token. */
  lemma NoAnswerChangesNothing(setup: Setup, p: Proc, st: Storage, nonce: string, now: Time, seen: Time, ok: bool,
                               read: Time)
    requires p.attached && OnlineLicense(st)
    ensures var a := ClientValidate(setup, st, NoAnswer, nonce);
            var (p', st') := Refreshed(setup, p, st, a, now, seen, ok, read);
            && p'.state == p.state.(offline := true)
            && p'.signedToken == p.signedToken
            && CacheAfter(setup, st, st', ok, if p.state.valid then p.signedToken else None, seen, p.maxSeen)
  {
  }

  /** A refused request ends the license in this process, and leaves its token and the files as they are. */
  lemma RefusedRequestEndsTheLicense(setup: Setup, p: Proc, st: Storage, nonce: string, now: Time, seen: Time,
                                     ok: bool, read: Time)
    requires OnlineLicense(st)
    ensures var a := ClientValidate(setup, st, ClientError, nonce);
            Refreshed(setup, p, st, a, now, seen, ok, read) ==
            (p.(state := p.state.(valid := false, offline := false)), st)
  {
  }

  /** Without a license file nothing is granted, whatever comes back; the files and the token stay. */
  lemma NoLicenseFileGrantsNothing(setup: Setup, p: Proc, st: Storage, reply: Reply, nonce: string, now: Time,
                                   seen: Time, ok: bool, read: Time)
    requires Read(st.license).None?
    ensures var a := ClientValidate(setup, st, reply, nonce);
            var (p', st') := Refreshed(setup, p, st, a, now, seen, ok, read);
            && NothingGranted(p'.state)
            && !p'.state.offline
            && p'.state.issuedAt == p.state.issuedAt
            && p'.state.lastValidatedAt == p.state.lastValidatedAt
            && p'.signedToken == p.signedToken
            && st' == st
  {
  }

  /** A sync that finds the license file removed grants nothing either, and forgets the token and its time. */
  lemma RemovedFileEndsTheLicense(setup: Setup, p: Proc, st: Storage, reply: Reply, nonce: string, now: Time,
                                  seen: Time, ok: bool, read: Time)
    ensures var (p', st') := SyncEnd(setup, p, st, Load(true, true), reply, nonce, now, seen, ok, read);
            && NothingGranted(p'.state)
            && !p'.state.offline
            && p'.state.issuedAt.None?
            && p'.state.lastValidatedAt == p.state.lastValidatedAt
            && p'.signedToken.None?
            && p'.maxSeen == p.maxSeen
            && st' == st
  {
  }

  /** An offline license file becomes the state if it grants one, and ends the license if not. */
  lemma OfflineFileIsTheState(setup: Setup, p: Proc, st: Storage, reply: Reply, nonce: string, now: Time, seen: Time,
                              ok: bool, read: Time)
    requires p.attached && Read(st.license).Some? && Read(st.license).value.offlineMode
    ensures var data, a := Read(st.license).value, ClientValidate(setup, st, reply, nonce);
            var (p', st') := Refreshed(setup, p, st, a, now, seen, ok, read);
            && (forall c :: GrantsOffline(setup, data, c) ==>
                  && GrantedBy(p'.state, c) && p'.state.valid && p'.state.offlineLicense
                  && p'.signedToken == Some(data.offlineToken)
                  && CacheAfter(setup, st, st', ok, Some(data.offlineToken), seen, p.maxSeen))
            && ((forall c :: !GrantsOffline(setup, data, c)) ==>
                  && NothingGranted(p'.state) && p'.signedToken.None?
                  && CacheAfter(setup, st, st', ok, None, seen, p.maxSeen))
  {
    OfflineFileIsTakenIff(setup, st, reply, nonce);
  }

  // ---------- the cached answer ----------

  /** The cached token counts, the clock was not set back by more than five minutes, and the answer has not run out:
      an offline license at its end, any other 32 days after its issue. */
  predicate RestorableNow(setup: Setup, st: Storage, c: Claims, now: Time) {
    && CacheSays(setup, st, c)
    && c.iat.value * 1_000_000 <= now + 300_000_000
    && (Read(st.cache).value.lastSeen.Some? ==> Read(st.cache).value.lastSeen.value <= now + 300_000_000)
    && (if c.typ == "offline" && c.offlineUntil.Some? && -62_135_596_800 <= c.offlineUntil.value <= 253_402_300_799
        then now <= c.offlineUntil.value * 1_000_000
        else now <= c.iat.value * 1_000_000 + 32 * 86_400_000_000)
  }

  /** The state is what these claims say, as of their issue. */
  predicate TakenFromCache(p: Proc, st: Storage, c: Claims)
    requires Read(st.cache).Some?
  {
    && GrantedBy(p.state, c)
    && c.iat.Some?
    && p.state.issuedAt == Some(c.iat.value * 1_000_000) == p.state.lastValidatedAt
    && p.signedToken == Read(st.cache).value.signedToken
  }

  lemma CacheIsRestorable(setup: Setup, st: Storage, c: Claims, now: Time)
    requires CacheSays(setup, st, c)
    ensures StoredAnswer(setup, st).Some?
    ensures var (s, issued) := StoredAnswer(setup, st).value;
            Restorable(s, issued, Read(st.cache).value.lastSeen, now) <==> RestorableNow(setup, st, c, now)
  {
    CacheCountsIff(setup, st);
  }

  /** A new process comes up on the cached answer exactly if it can be restored now; else without a license. */
  lemma RestartTakesTheCacheIff(setup: Setup, st: Storage, now: Time)
    requires setup.cacheEnabled
    ensures var p := RestoreCachedState(setup, Attach(FRESH, st), st, now);
            && (forall c :: RestorableNow(setup, st, c, now) ==> TakenFromCache(p, st, c) && p.state.offline)
            && ((forall c :: !RestorableNow(setup, st, c, now)) ==>
                  && NothingGranted(p.state) && p.state.issuedAt.None? && p.state.lastValidatedAt.None?
                  && !p.state.offline && !p.state.offlinePilot && p.state.offlinePilotUntil.None?
                  && p.signedToken.None?)
  {
    CacheCountsIff(setup, st);
    forall c | CacheSays(setup, st, c)
      ensures var (s, issued) := StoredAnswer(setup, st).value;
              Restorable(s, issued, Read(st.cache).value.lastSeen, now) <==> RestorableNow(setup, st, c, now)
    {
      CacheIsRestorable(setup, st, c, now);
    }
  }

  /** A sync that adopts the cached answer leaves every field as it says, and the offline mark off. */
  lemma AdoptionTakesTheCache(setup: Setup, p: Proc, st: Storage)
    requires Adopts(setup, p, st)
    ensures var p' := AdoptCachedAnswer(setup, p, st);
            exists c :: CacheSays(setup, st, c) && TakenFromCache(p', st, c) && !p'.state.offline
  {
    CacheCountsIff(setup, st);
    var c :| CacheSays(setup, st, c);
    assert TakenFromCache(AdoptCachedAnswer(setup, p, st), st, c);
  }

  /** Such an event does hand the worker an answer: it then holds a token and is not marked offline. */
  lemma TakenAnswerIsHeld(setup: Setup, s: System, e: Event, w: nat)
    requires w < |s.nodes| && TakesAnswer(setup, s, e, w)
    ensures (e.Refresh? || e.End?) && e.w == w
    ensures var p := Step(setup, s, e).nodes[w].proc; p.signedToken.Some? && !p.state.offline
  {
    assert Step(setup, s, e).nodes[w] == NodeStep(setup, s.nodes[w], s.store, e).0;
  }

  /** And each answer is taken once. */
  lemma AnswersAreTakenOnce(setup: Setup, n: Node, st: Storage, e: Event)
    requires e.Refresh? && Running(n) && e.a in n.answers
    ensures |NodeStep(setup, n, st, e).0.answers| == |n.answers| - 1
  {
  }

  /** What the outside does to the files. */
  lemma OutsideChanges(setup: Setup, s: System, e: Event)
    requires External(e)
    ensures var st := Step(setup, s, e).store;
            && (e.Install? ==> Read(st.license) == e.data && st.cache == s.store.cache)
            && (e.Overwrite? ==> Read(st.cache) == e.entry && st.license == s.store.license)
            && (e.Remove? ==> st.license.None? && st.cache == if e.both then None else s.store.cache)
    ensures Step(setup, s, e).nodes == s.nodes
  {
  }

  // ---------- an outage ----------

  /** The latest time seen, as far as readings from `start` on can tell. */
  function SeenFrom(p: Proc, start: Time): Time {
    if p.maxSeen.Some? && p.maxSeen.value > start then p.maxSeen.value else start
  }

  lemma {:induction false} SameButOffline(p: Proc, q: Proc, start: Time, times: seq<Time>)
    requires p.state == q.state.(offline := p.state.offline) && SeenFrom(p, start) == SeenFrom(q, start)
    requires Forward(start, times)
    ensures Entitlements(p, times) == Entitlements(q, times)
    decreases |times|
  {
    if times != [] {
      SameButOffline(Get(p, times[0]).1, Get(q, times[0]).1, times[0], times[1..]);
    }
  }

  /** A validation that times out costs nothing: every entitlement afterwards is the one without the call. */
  lemma NoAnswerCostsNothing(setup: Setup, p: Proc, st: Storage, nonce: string, now: Time, seen: Time, ok: bool,
                             read: Time, start: Time, times: seq<Time>)
    requires OnlineLicense(st) && seen <= start && read <= start && Forward(start, times)
    ensures var a := ClientValidate(setup, st, NoAnswer, nonce);
            Entitlements(Refreshed(setup, p, st, a, now, seen, ok, read).0, times) == Entitlements(p, times)
  {
    var a := ClientValidate(setup, st, NoAnswer, nonce);
    SameButOffline(Refreshed(setup, p, st, a, now, seen, ok, read).0, p, start, times);
  }

  /** The process is up and holds no answer but "unreachable". */
  ghost predicate Waiting(n: Node) {
    && Running(n)
    && (n.phase.Syncing? ==> n.phase.todo.Load? && !n.phase.todo.licenseGone)
    && forall a :: a in n.answers ==> a == Unreachable
  }

  /** It is what it was, but for the offline mark and the times seen. */
  predicate Unharmed(p: Proc, p': Proc) {
    p'.state == p.state.(offline := p'.state.offline) && p'.signedToken == p.signedToken
  }

  /** The call tells the process nothing: its validation times out, its sync finds nothing newer. */
  predicate TellsNothing(setup: Setup, n: Node, st: Storage, e: Event) {
    match e
    case Boot(_) => false
    case Refuse(_, _, _, _) => false
    case Validate(_, reply, _) => reply == NoAnswer
    case End(_, _, _, _, _, _, _) => !Adopts(setup, n.proc, st)
    case _ => true
  }

  /** No reply reaches worker w, nobody tells it "no", and nothing newer is in the cache for it; the license file
      stays. What the other workers do and what else happens to the cache is open. */
  ghost predicate Outage(setup: Setup, s: System, events: seq<Event>, w: nat)
    requires w < |s.nodes|
    decreases |events|
  {
    || events == []
    || (&& !events[0].Install?
        && !events[0].Remove?
        && (!External(events[0]) && events[0].w == w ==> TellsNothing(setup, s.nodes[w], s.store, events[0]))
        && Outage(setup, Step(setup, s, events[0]), events[1..], w))
  }

  lemma RefreshInOutage(setup: Setup, n: Node, st: Storage, e: Event)
    requires Waiting(n) && e.Refresh?
    ensures var n' := NodeStep(setup, n, st, e).0; Waiting(n') && Unharmed(n.proc, n'.proc)
  {
    if e.a in n.answers {
      assert e.a == Unreachable;
    }
  }

  lemma EndInOutage(setup: Setup, n: Node, st: Storage, e: Event)
    requires OnlineLicense(st) && Waiting(n) && e.End? && !Adopts(setup, n.proc, st)
    ensures var n' := NodeStep(setup, n, st, e).0; Waiting(n') && Unharmed(n.proc, n'.proc)
  {
  }

  lemma CallInOutage(setup: Setup, n: Node, st: Storage, e: Event)
    requires OnlineLicense(st) && Waiting(n) && !External(e) && TellsNothing(setup, n, st, e)
    ensures var n' := NodeStep(setup, n, st, e).0; Waiting(n') && Unharmed(n.proc, n'.proc)
  {
    if e.Refresh? {
      RefreshInOutage(setup, n, st, e);
    } else if e.End? {
      EndInOutage(setup, n, st, e);
    } else if e.Validate? {
      assert ClientValidate(setup, st, e.reply, e.nonce) == Unreachable;
    }
  }

  lemma CallsKeepTheFile(setup: Setup, n: Node, st: Storage, e: Event)
    requires !External(e)
    ensures NodeStep(setup, n, st, e).1.license == st.license
  {
  }

  /** Over every run of an outage, however long, the state and the token stay as they were. */
  lemma {:induction false} AnOutageEndsNothing(setup: Setup, s: System, events: seq<Event>, w: nat)
    requires w < |s.nodes| && OnlineLicense(s.store) && Waiting(s.nodes[w]) && Outage(setup, s, events, w)
    ensures Unharmed(s.nodes[w].proc, Run(setup, s, events).nodes[w].proc)
    decreases |events|
  {
    if events != [] {
      var e := events[0];
      if !External(e) && e.w < |s.nodes| {
        CallsKeepTheFile(setup, s.nodes[e.w], s.store, e);
        if e.w == w {
          CallInOutage(setup, s.nodes[w], s.store, e);
        }
      }
      AnOutageEndsNothing(setup, Step(setup, s, e), events[1..], w);
    }
  }

  /** What the product grants is then up to the windows alone: at any reading not set back, the same as if the
      time had just passed. */
  lemma AnOutageCostsNothing(setup: Setup, s: System, events: seq<Event>, w: nat, later: Time)
    requires w < |s.nodes| && OnlineLicense(s.store) && Waiting(s.nodes[w]) && Outage(setup, s, events, w)
    requires !SetBack(s.nodes[w].proc.maxSeen, later) && !SetBack(Run(setup, s, events).nodes[w].proc.maxSeen, later)
    ensures Entitlement(Get(Run(setup, s, events).nodes[w].proc, later).0) ==
            Entitlement(Get(s.nodes[w].proc, later).0)
  {
    AnOutageEndsNothing(setup, s, events, w);
  }

  // ---------- which license a token is for ----------

  /** The keys of the license files there were in the run. */
  ghost function StoredKeys(setup: Setup, s: System, events: seq<Event>): set<string>
    decreases |events|
  {
    (if Read(s.store.license).Some? then {LicenseKey(s.store)} else {}) +
    if events == [] then {} else StoredKeys(setup, Step(setup, s, events[0]), events[1..])
  }

  /** The token is signed for one of these keys, and this machine. */
  predicate ForOneOf(trust: Trust, token: Token, keys: set<string>) {
    trust.signed(token).Some? && trust.signed(token).value.licenseKey in keys
    && trust.signed(token).value.fingerprint == trust.fingerprint
  }

  /** All that the process holds is. */
  ghost predicate HoldsOnly(trust: Trust, n: Node, keys: set<string>) {
    && (n.proc.signedToken.Some? ==> ForOneOf(trust, n.proc.signedToken.value, keys))
    && (forall a :: a in n.answers && a.Signed? ==> ForOneOf(trust, a.state.signedToken, keys))
  }

  /** A sync or a start takes a token only for the license file of that moment. */
  lemma LoadedTokenIsForTheStoredKey(setup: Setup, n: Node, st: Storage, e: Event)
    requires e.Restore? || e.End?
    ensures var t := NodeStep(setup, n, st, e).0.proc.signedToken;
            t.Some? && t != n.proc.signedToken ==>
              Read(st.license).Some? && ForOneOf(setup.trust, t.value, {LicenseKey(st)})
  {
  }

  lemma AnswerIsForTheStoredKey(setup: Setup, st: Storage, reply: Reply, nonce: string)
    ensures var a := ClientValidate(setup, st, reply, nonce);
            a.Signed? ==> Read(st.license).Some? && ForOneOf(setup.trust, a.state.signedToken, {LicenseKey(st)})
  {
  }

  lemma AnswerToken(setup: Setup, p: Proc, st: Storage, a: Answer, now: Time, seen: Time, ok: bool, read: Time)
    ensures var t := Refreshed(setup, p, st, a, now, seen, ok, read).0.signedToken;
            t == (if a.Signed? then Some(a.state.signedToken) else if a.Rejected? then None else p.signedToken)
  {
  }

  lemma RefreshHoldsOnly(setup: Setup, n: Node, st: Storage, e: Event, keys: set<string>)
    requires e.Refresh? && HoldsOnly(setup.trust, n, keys)
    ensures HoldsOnly(setup.trust, NodeStep(setup, n, st, e).0, keys)
  {
    AnswerToken(setup, n.proc, st, e.a, e.now, e.seen, e.ok, e.read);
  }

  lemma LoadHoldsOnly(setup: Setup, n: Node, st: Storage, e: Event, keys: set<string>)
    requires (e.Restore? || e.End?) && HoldsOnly(setup.trust, n, keys)
    requires Read(st.license).Some? ==> LicenseKey(st) in keys
    ensures HoldsOnly(setup.trust, NodeStep(setup, n, st, e).0, keys)
  {
    LoadedTokenIsForTheStoredKey(setup, n, st, e);
    var n' := NodeStep(setup, n, st, e).0;
    assert n'.answers == n.answers;
  }

  lemma CallHoldsOnly(setup: Setup, n: Node, st: Storage, e: Event, keys: set<string>)
    requires !External(e) && HoldsOnly(setup.trust, n, keys)
    requires Read(st.license).Some? ==> LicenseKey(st) in keys
    ensures HoldsOnly(setup.trust, NodeStep(setup, n, st, e).0, keys)
  {
    if e.Restore? || e.End? {
      LoadHoldsOnly(setup, n, st, e, keys);
    } else if e.Refresh? {
      RefreshHoldsOnly(setup, n, st, e, keys);
    } else if e.Validate? {
      AnswerIsForTheStoredKey(setup, st, e.reply, e.nonce);
    }
  }

  lemma {:induction false} RunHoldsOnly(setup: Setup, s: System, events: seq<Event>, w: nat, keys: set<string>)
    requires w < |s.nodes| && HoldsOnly(setup.trust, s.nodes[w], keys) && StoredKeys(setup, s, events) <= keys
    ensures HoldsOnly(setup.trust, Run(setup, s, events).nodes[w], keys)
    decreases |events|
  {
    if events != [] {
      var e := events[0];
      if !External(e) && e.w == w {
        CallHoldsOnly(setup, s.nodes[w], s.store, e, keys);
      }
      RunHoldsOnly(setup, Step(setup, s, e), events[1..], w, keys);
    }
  }

  /** Over every run, from a moment at which a worker holds nothing (its start, say): the token it runs on is
      signed for the key of a license file that was stored since, and for this machine. */
  lemma EveryTokenIsForAStoredKey(setup: Setup, s: System, events: seq<Event>, w: nat)
    requires w < |s.nodes| && s.nodes[w].proc.signedToken.None? && s.nodes[w].answers == multiset{}
    ensures var t := Run(setup, s, events).nodes[w].proc.signedToken;
            t.Some? ==> ForOneOf(setup.trust, t.value, StoredKeys(setup, s, events))
  {
    RunHoldsOnly(setup, s, events, w, StoredKeys(setup, s, events));
  }

  /** And over every run from an initial state a valid state is field by field what the token it runs on says. */
  lemma EveryGrantIsSigned(setup: Setup, s: System, events: seq<Event>, w: nat)
    requires Initial(s) && w < |s.nodes|
    ensures var p := Run(setup, s, events).nodes[w].proc;
            p.state.valid ==>
              && p.signedToken.Some?
              && setup.trust.signed(p.signedToken.value).Some?
              && var c := setup.trust.signed(p.signedToken.value).value;
                 && c.version == 1
                 && c.fingerprint == setup.trust.fingerprint
                 && GrantedBy(p.state, c)
                 && TimeAsSigned(c.iat, p.state.issuedAt)
  {
    NothingUnsignedBecomesALicense(setup, s, events, w);
  }
}
