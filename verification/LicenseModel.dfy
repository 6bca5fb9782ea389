/** The license state of one worker process (app/core/license_state.py) and the license storage the
    workers share (SecureStorage in app/core/license_client.py): every function that changes them,
    as a function from the old values, the clock readings and the stored files to the new values.

    The class LicenseWorker is the imperative form, proved against these functions. */
module LicenseModel {
  import opened Options
  import opened PyText
  import opened LicenseToken

  const OFFLINE_GRACE: Time := 48 * 3600 * SECOND
  const PILOT_FALLBACK: Time := 30 * 86400 * SECOND
  const PILOT_FALLBACK_ASSETS: nat := 5
  const CLOCK_ROLLBACK_TOLERANCE: Time := 300 * SECOND
  const SYNC_INTERVAL: Time := SECOND

  /** maxAssets None: unlimited. */
  datatype LicenseState = LicenseState(
    valid: bool, planCode: Option<string>, planName: Option<string>, isPilotMode: bool,
    maxAssets: Option<nat>, addonPacks: int, expiresAt: Option<Time>,
    lastValidatedAt: Option<Time>, offline: bool, issuedAt: Option<Time>,
    offlinePilot: bool, offlinePilotUntil: Option<Time>,
    offlineLicense: bool, offlineUntil: Option<Time>)

  const NO_LICENSE := LicenseState(false, None, None, false, None, 0, None, None, false, None, false, None, false, None)

  type Stamp = nat

  /** The module globals of one process. `attached`: attach_state_cache was called with the
      storage, the verifier and the client, as app/main.py does. lastSync None is minus infinity. */
  datatype Proc = Proc(
    state: LicenseState, signedToken: Option<Token>, maxSeen: Option<Time>, attached: bool,
    licenseStamp: Option<Stamp>, stateStamp: Option<Stamp>, lastSync: Option<Time>)

  const FRESH := Proc(NO_LICENSE, None, None, false, None, None, None)

  // ---------- the storage ----------

  datatype LicenseData = LicenseData(licenseKey: string, fingerprint: string, offlineMode: bool, offlineToken: Token)
  datatype CacheEntry = CacheEntry(signedToken: Option<Token>, lastSeen: Option<Time>)

  /** A file: its stamp changes whenever it is written; content None is a file that cannot be read. */
  datatype Cell<T> = Cell(stamp: Stamp, content: Option<T>)

  /** `writes` counts the writes so far and numbers the stamps. */
  datatype Storage = Storage(license: Option<Cell<LicenseData>>, cache: Option<Cell<CacheEntry>>, writes: nat)

  function StampOf<T>(cell: Option<Cell<T>>): Option<Stamp> {
    if cell.Some? then Some(cell.value.stamp) else None
  }

  function Read<T>(cell: Option<Cell<T>>): Option<T> {
    if cell.Some? then cell.value.content else None
  }

  function WriteCache(st: Storage, content: Option<CacheEntry>): Storage {
    st.(cache := Some(Cell(st.writes + 1, content)), writes := st.writes + 1)
  }

  function WriteLicense(st: Storage, content: Option<LicenseData>): Storage {
    st.(license := Some(Cell(st.writes + 1, content)), writes := st.writes + 1)
  }

  datatype Setup = Setup(trust: Trust, cacheEnabled: bool)

  // ---------- answers ----------

  /** What client.validate() comes to: a verified state, or one of the exceptions refresh_license_state tells apart. */
  datatype Answer = Signed(state: SignedState) | Rejected | Unreachable | NotActivated | Failed

  /** What the network gives: a response carrying a token, nothing usable, or a 4xx status. */
  datatype Reply = Response(token: Token) | NoAnswer | ClientError

  function IsOffline(st: Storage): bool {
    var data := Read(st.license);
    data.Some? && data.value.offlineMode
  }

  const OFFLINE_LICENSE_HEADER := "NGCORION-OFFLINE-LICENSE-1"
  const MAX_OFFLINE_FILE := 16384

  function NonBlank(lines: seq<string>): seq<string> {
    if lines == [] then [] else (if Strip(lines[0]) == "" then [] else [Strip(lines[0])]) + NonBlank(lines[1..])
  }

  /** LicenseClient._offline_token: the header and one more line, blanks and empty lines aside. */
  function OfflineToken(text: string): Option<Token> {
    var lines := NonBlank(SplitLines(Strip(text)));
    if text == "" || |text| > MAX_OFFLINE_FILE || |lines| != 2 || lines[0] != OFFLINE_LICENSE_HEADER
    then None
    else Some(lines[1])
  }

  /** LicenseClient._offline_state: the installed offline license file, verified again. */
  function OfflineState(setup: Setup, data: LicenseData): Answer {
    match VerifyToken(setup.trust, data.offlineToken, data.licenseKey, Some("offline"), None)
    case None => Rejected
    case Some(c) => if !c.valid || c.offlineUntil.None? then Rejected else Signed(ClaimsToState(c, data.offlineToken))
  }

  /** LicenseClient.validate, for a license stored for this machine. */
  function ClientValidate(setup: Setup, st: Storage, reply: Reply, nonce: string): Answer {
    match Read(st.license)
    case None => NotActivated
    case Some(data) =>
      if data.offlineMode then
        if data.fingerprint != setup.trust.fingerprint then Rejected else OfflineState(setup, data)
      else match reply
        case NoAnswer => Unreachable
        case ClientError => Failed
        case Response(token) =>
          match VerifyToken(setup.trust, token, data.licenseKey, Some("validate"), Some(nonce))
          case None => Rejected
          case Some(c) => Signed(ClaimsToState(c, token))
  }

  /** LicenseClient.verify_cached_token. */
  function VerifyCached(setup: Setup, st: Storage, token: Token): Option<SignedState> {
    match Read(st.license)
    case None => None
    case Some(data) =>
      match VerifyToken(setup.trust, token, data.licenseKey, None, None)
      case None => None
      case Some(c) => Some(ClaimsToState(c, token))
  }

  // ---------- applying a state ----------

  function MaxAssets(limits: Limits): Option<nat> {
    match limits
    case NotADict => Some(PILOT_FALLBACK_ASSETS)
    case Limits(Absent, _) => Some(PILOT_FALLBACK_ASSETS)
    case Limits(Null, _) => None
    case Limits(Number(n), _) => Some(if n < 0 then 0 else n)
    case Limits(Unreadable, _) => Some(PILOT_FALLBACK_ASSETS)
  }

  function AddonPacks(limits: Limits): int {
    if limits.Limits? && limits.addonPacks.Number? then limits.addonPacks.n else 0
  }

  function Apply(state: LicenseState, s: SignedState): LicenseState {
    state.(valid := s.valid, planCode := s.planCode, planName := s.planName, isPilotMode := s.isPilotMode,
           maxAssets := MaxAssets(s.limits), addonPacks := AddonPacks(s.limits),
           expiresAt := UtcFromEpoch(s.expiresAt), offlineLicense := s.offlineLicense,
           offlineUntil := UtcFromEpoch(s.offlineUntil))
  }

  function ClearEntitlement(state: LicenseState): LicenseState {
    state.(planCode := None, planName := None, isPilotMode := false, maxAssets := None, addonPacks := 0,
           expiresAt := None, offlineLicense := false, offlineUntil := None)
  }

  // ---------- clock, cache ----------

  /** The latest time seen, after also seeing `now`. */
  function Seen(maxSeen: Option<Time>, now: Time): (r: Option<Time>)
    ensures r.Some? && r.value >= now && (maxSeen.Some? ==> r.value >= maxSeen.value)
    ensures r == Some(now) || r == maxSeen
  {
    if maxSeen.None? || now > maxSeen.value then Some(now) else maxSeen
  }

  /** _persist_state; `ok` tells whether the file could be written. */
  function Persist(setup: Setup, p: Proc, st: Storage, now: Time, ok: bool): (Proc, Storage) {
    if !p.attached || !setup.cacheEnabled then (p, st)
    else
      var p' := p.(maxSeen := Seen(p.maxSeen, now));
      var entry := CacheEntry(if p.state.valid then p.signedToken else None, p'.maxSeen);
      (p', if ok then WriteCache(st, Some(entry)) else st)
  }

  // ---------- get_license_state ----------

  function SetBack(maxSeen: Option<Time>, now: Time): bool {
    maxSeen.Some? && now < maxSeen.value - CLOCK_ROLLBACK_TOLERANCE
  }

  /** The snapshot get_license_state returns, from the state, the latest time seen before, and now. */
  function View(state: LicenseState, maxSeen: Option<Time>, now: Time): LicenseState {
    var current := state.(offlinePilot := false, offlinePilotUntil := None);
    var reference := if state.issuedAt.Some? then state.issuedAt else state.lastValidatedAt;
    if !current.valid then current
    else if SetBack(maxSeen, now) then current.(valid := false)
    else if SetBack(current.issuedAt, now) then current.(valid := false)
    else if current.expiresAt.Some? && now > current.expiresAt.value then current.(valid := false)
    else if current.offlineLicense then
      if current.offlineUntil.None? || now > current.offlineUntil.value then current.(valid := false) else current
    else if reference.None? || now - reference.value <= OFFLINE_GRACE then current
    else
      var fallbackUntil := reference.value + OFFLINE_GRACE + PILOT_FALLBACK;
      if now > fallbackUntil then current.(valid := false)
      else current.(offlinePilot := true, offlinePilotUntil := Some(fallbackUntil), isPilotMode := true,
                    maxAssets := Some(if current.maxAssets.None? || current.maxAssets.value > PILOT_FALLBACK_ASSETS
                                      then PILOT_FALLBACK_ASSETS else current.maxAssets.value))
  }

  function Get(p: Proc, now: Time): (LicenseState, Proc) {
    (View(p.state, p.maxSeen, now), p.(maxSeen := Seen(p.maxSeen, now)))
  }

  /** asset_entitlement.entitlement(): licensed, and the asset limit (None: unlimited). */
  function Entitlement(view: LicenseState): (bool, Option<nat>) {
    (view.valid, if view.valid then view.maxAssets else Some(0))
  }

  // ---------- the writers ----------

  function SetLicenseState(setup: Setup, p: Proc, st: Storage, s: SignedState, now: Time, seen: Time,
                           ok: bool): (Proc, Storage) {
    var state :=
      Apply(p.state, s).(lastValidatedAt := Some(now), issuedAt := UtcFromEpoch(s.issuedAt), offline := false);
    Persist(setup, p.(state := state, signedToken := Some(s.signedToken)), st, seen, ok)
  }

  function MarkOffline(setup: Setup, p: Proc, st: Storage, seen: Time, ok: bool): (Proc, Storage) {
    Persist(setup, p.(state := p.state.(offline := true)), st, seen, ok)
  }

  function MarkRejected(setup: Setup, p: Proc, st: Storage, now: Time, seen: Time, ok: bool): (Proc, Storage) {
    var state :=
      ClearEntitlement(p.state.(valid := false, offline := false)).(lastValidatedAt := Some(now), issuedAt := None);
    Persist(setup, p.(state := state, signedToken := None), st, seen, ok)
  }

  function NoLicense(p: Proc): Proc {
    p.(state := ClearEntitlement(p.state.(valid := false, offline := false)).(issuedAt := None), signedToken := None)
  }

  /** refresh_license_state, up to the state it leaves. */
  function Take(setup: Setup, p: Proc, st: Storage, a: Answer, now: Time, seen: Time, ok: bool): (Proc, Storage) {
    match a
    case Signed(s) => SetLicenseState(setup, p, st, s, now, seen, ok)
    case Rejected => MarkRejected(setup, p, st, now, seen, ok)
    case Unreachable => MarkOffline(setup, p, st, seen, ok)
    case NotActivated => (p.(state := ClearEntitlement(p.state.(valid := false, offline := false))), st)
    case Failed => (p.(state := p.state.(valid := false, offline := false)), st)
  }

  /** All of refresh_license_state: where it does not raise, it ends by reading the state. */
  function Refreshed(setup: Setup, p: Proc, st: Storage, a: Answer, now: Time, seen: Time, ok: bool,
                     read: Time): (Proc, Storage) {
    var (p', st') := Take(setup, p, st, a, now, seen, ok);
    (if a.Rejected? || a.Failed? then p' else Get(p', read).1, st')
  }

  // ---------- several worker processes ----------

  function Max(a: Time, b: Time): Time { if a > b then a else b }

  /** When this process last learned something: its answer's issue time, or when it was told "no". */
  function Known(state: LicenseState): Option<Time> {
    if !state.valid && state.lastValidatedAt.Some? then
      if state.issuedAt.Some?
      then Some(Max(state.issuedAt.value, state.lastValidatedAt.value))
      else state.lastValidatedAt
    else state.issuedAt
  }

  /** The answer in the cache, when there is one that verifies and has an issue time. */
  function StoredAnswer(setup: Setup, st: Storage): Option<(SignedState, Time)> {
    var cached := Read(st.cache);
    if cached.None? || cached.value.signedToken.None? then None
    else
      var s := VerifyCached(setup, st, cached.value.signedToken.value);
      if s.None? then None
      else
        var issued := UtcFromEpoch(s.value.issuedAt);
        if issued.None? then None else Some((s.value, issued.value))
  }

  function Adopted(p: Proc, s: SignedState, issued: Time): Proc {
    p.(state := Apply(p.state, s).(lastValidatedAt := Some(issued), issuedAt := Some(issued), offline := false),
       signedToken := Some(s.signedToken))
  }

  /** Whether _adopt_cached_answer takes the cached answer. */
  function Adopts(setup: Setup, p: Proc, st: Storage): bool {
    var stored := StoredAnswer(setup, st);
    setup.cacheEnabled && stored.Some? && p.signedToken != Some(stored.value.0.signedToken) &&
    (Known(p.state).None? || stored.value.1 > Known(p.state).value)
  }

  function AdoptCachedAnswer(setup: Setup, p: Proc, st: Storage): Proc {
    if Adopts(setup, p, st) then Adopted(p, StoredAnswer(setup, st).value.0, StoredAnswer(setup, st).value.1) else p
  }

  /** What sync_with_storage still has to do after taking the stamps. */
  datatype Pending = Nothing | Load(licenseChanged: bool, licenseGone: bool)

  /** sync_with_storage up to the stamps: they are taken and recorded before any content is read. */
  function SyncBegin(p: Proc, st: Storage, mono: Time): (Proc, Pending) {
    if !p.attached then (p, Nothing)
    else if p.state.valid && p.lastSync.Some? && mono - p.lastSync.value < SYNC_INTERVAL then (p, Nothing)
    else
      var license, cache := StampOf(st.license), StampOf(st.cache);
      var p' := p.(lastSync := Some(mono));
      if license == p.licenseStamp && cache == p.stateStamp then (p', Nothing)
      else (p'.(licenseStamp := license, stateStamp := cache), Load(license != p.licenseStamp, license.None?))
  }

  /** The rest of sync_with_storage: load what changed, from the files as they are now. */
  function SyncEnd(setup: Setup, p: Proc, st: Storage, todo: Pending, reply: Reply, nonce: string,
                   now: Time, seen: Time, ok: bool, read: Time): (Proc, Storage)
  {
    if todo.Nothing? then (p, st)
    else if todo.licenseChanged && todo.licenseGone then (NoLicense(p), st)
    else if todo.licenseChanged && IsOffline(st) then
      Refreshed(setup, p, st, ClientValidate(setup, st, reply, nonce), now, seen, ok, read)
    else (AdoptCachedAnswer(setup, p, st), st)
  }

  // ---------- start ----------

  /** A new process: module globals, then attach_state_cache. */
  function Attach(p: Proc, st: Storage): Proc {
    p.(attached := true, licenseStamp := StampOf(st.license), stateStamp := StampOf(st.cache), lastSync := None)
  }

  /** The cached answer is still worth restoring: the clock was not set back and the answer has not run out. */
  function Restorable(s: SignedState, issued: Time, lastSeen: Option<Time>, now: Time): bool {
    var until := if s.offlineLicense then UtcFromEpoch(s.offlineUntil) else None;
    && !(now < issued - CLOCK_ROLLBACK_TOLERANCE || SetBack(lastSeen, now))
    && (if until.Some? then now <= until.value else now - issued <= OFFLINE_GRACE + PILOT_FALLBACK)
  }

  function RestoreCachedState(setup: Setup, p: Proc, st: Storage, now: Time): Proc {
    var cached := Read(st.cache);
    if !p.attached || !setup.cacheEnabled || cached.None? then p
    else
      var seen := cached.value.lastSeen;
      var p' := if seen.Some? then p.(maxSeen := Seen(p.maxSeen, seen.value)) else p;
      var stored := StoredAnswer(setup, st);
      if stored.None? || !Restorable(stored.value.0, stored.value.1, seen, now) then p'
      else
        var a := Adopted(p', stored.value.0, stored.value.1);
        a.(state := a.state.(offline := true))
  }
}
