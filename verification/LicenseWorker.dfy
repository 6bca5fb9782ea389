/** One worker process, in the form app/core/license_state.py has: module globals that each function
    updates in place. Every method is proved equal to its function in LicenseModel.

    Clock readings (`now`, `seen`, `mono`), network replies and the outcome of a file write (`ok`) are
    parameters. A lock makes each method one step; sync_with_storage is two, TakeStamps and LoadChange. */
module LicenseWorker {
  import opened Options
  import opened LicenseToken
  import opened LicenseModel

  /** The text holds an offline license for this machine that grants a license and has not ended. */
  predicate Installable(setup: Setup, text: string, keyIn: Token -> Option<string>, now: int) {
    var token := OfflineToken(text);
    token.Some? && keyIn(token.value).Some? &&
    var answer :=
      OfflineState(setup, LicenseData(keyIn(token.value).value, setup.trust.fingerprint, true, token.value));
    answer.Signed? && answer.state.offlineUntil.value > now
  }

  /** The two files. A write goes to a temporary file renamed into place, so it happens whole or not at all. */
  class SecureStorage {
    var licenseFile: Option<Cell<LicenseData>>
    var stateFile: Option<Cell<CacheEntry>>
    var writes: nat

    function Contents(): Storage
      reads this
    {
      Storage(licenseFile, stateFile, writes)
    }

    constructor ()
      ensures Contents() == Storage(None, None, 0)
    {
      licenseFile, stateFile, writes := None, None, 0;
    }

    method SaveState(entry: CacheEntry, ok: bool)
      modifies this
      ensures Contents() == if ok then WriteCache(old(Contents()), Some(entry)) else old(Contents())
    {
      if ok {
        writes := writes + 1;
        stateFile := Some(Cell(writes, Some(entry)));
      }
    }

    method SaveLicense(data: LicenseData, ok: bool)
      modifies this
      ensures Contents() == if ok then WriteLicense(old(Contents()), Some(data)) else old(Contents())
    {
      if ok {
        writes := writes + 1;
        licenseFile := Some(Cell(writes, Some(data)));
      }
    }

    /** LicenseClient.install_offline_license: stores nothing unless the file verifies for its own key and
        this machine, grants a license and has not ended (`now` in seconds). `keyIn` reads the license key a
        token claims, unverified; None is one of the exceptions, also of the write. */
    method InstallOfflineLicense(setup: Setup, text: string, keyIn: Token -> Option<string>, now: int, ok: bool)
      returns (installed: Option<SignedState>)
      modifies this
      ensures installed.Some? <==> ok && Installable(setup, text, keyIn, now)
      ensures installed.Some? ==>
              Genuine(setup.trust, installed.value) && installed.value.valid && installed.value.offlineLicense
      ensures installed.None? ==> Contents() == old(Contents())
      ensures installed.Some? ==>
                forall reply, nonce :: ClientValidate(setup, Contents(), reply, nonce) == Signed(installed.value)
    {
      var token := OfflineToken(text);
      if token.None? || keyIn(token.value).None? {
        return None;
      }
      var data := LicenseData(keyIn(token.value).value, setup.trust.fingerprint, true, token.value);
      var answer := OfflineState(setup, data);
      if !answer.Signed? {
        return None;
      }
      var state := answer.state;
      if state.offlineUntil.value <= now {
        return None;
      }
      SaveLicense(data, ok);
      if !ok {
        return None;
      }
      installed := Some(state);
    }
  }

  class Worker {
    var state: LicenseState
    var signedToken: Option<Token>
    var maxSeen: Option<Time>
    var attached: bool
    var licenseStamp: Option<Stamp>
    var stateStamp: Option<Stamp>
    var lastSync: Option<Time>
    const setup: Setup
    const store: SecureStorage

    function Globals(): Proc
      reads this
    {
      Proc(state, signedToken, maxSeen, attached, licenseStamp, stateStamp, lastSync)
    }

    constructor (setup: Setup, store: SecureStorage)
      ensures Globals() == FRESH && this.setup == setup && this.store == store
    {
      this.setup, this.store := setup, store;
      state, signedToken, maxSeen, attached := NO_LICENSE, None, None, false;
      licenseStamp, stateStamp, lastSync := None, None, None;
    }

    method AttachStateCache()
      modifies this
      ensures Globals() == Attach(old(Globals()), store.Contents())
    {
      attached := true;
      licenseStamp := StampOf(store.licenseFile);
      stateStamp := StampOf(store.stateFile);
      lastSync := None;
    }

    method SeenNow(now: Time)
      modifies this`maxSeen
      ensures maxSeen == Seen(old(maxSeen), now)
    {
      if maxSeen.None? || now > maxSeen.value {
        maxSeen := Some(now);
      }
    }

    method PersistState(seen: Time, ok: bool)
      modifies this`maxSeen, store
      ensures (Globals(), store.Contents()) == Persist(setup, old(Globals()), old(store.Contents()), seen, ok)
    {
      if !attached || !setup.cacheEnabled {
        return;
      }
      SeenNow(seen);
      store.SaveState(CacheEntry(if state.valid then signedToken else None, maxSeen), ok);
    }

    method ApplyState(s: SignedState)
      modifies this`state
      ensures state == Apply(old(state), s)
    {
      state := state.(valid := s.valid, planCode := s.planCode, planName := s.planName);
      state := state.(isPilotMode := s.isPilotMode);
      state := state.(maxAssets := MaxAssets(s.limits), addonPacks := AddonPacks(s.limits));
      state := state.(expiresAt := UtcFromEpoch(s.expiresAt));
      state := state.(offlineLicense := s.offlineLicense, offlineUntil := UtcFromEpoch(s.offlineUntil));
    }

    method ClearEntitlementFields()
      modifies this`state
      ensures state == ClearEntitlement(old(state))
    {
      state := state.(planCode := None, planName := None, isPilotMode := false);
      state := state.(maxAssets := None, addonPacks := 0, expiresAt := None);
      state := state.(offlineLicense := false, offlineUntil := None);
    }

    method GetLicenseState(now: Time) returns (current: LicenseState)
      modifies this`maxSeen
      ensures (current, Globals()) == Get(old(Globals()), now)
    {
      current := state.(offlinePilot := false, offlinePilotUntil := None);
      var reference := if state.issuedAt.Some? then state.issuedAt else state.lastValidatedAt;
      var previousMax := maxSeen;
      SeenNow(now);
      if !current.valid {
        return;
      }
      if previousMax.Some? && now < previousMax.value - CLOCK_ROLLBACK_TOLERANCE {
        current := current.(valid := false);
        return;
      }
      if current.issuedAt.Some? && now < current.issuedAt.value - CLOCK_ROLLBACK_TOLERANCE {
        current := current.(valid := false);
        return;
      }
      if current.expiresAt.Some? && now > current.expiresAt.value {
        current := current.(valid := false);
        return;
      }
      if current.offlineLicense {
        if current.offlineUntil.None? || now > current.offlineUntil.value {
          current := current.(valid := false);
        }
        return;
      }
      if reference.None? || now - reference.value <= OFFLINE_GRACE {
        return;
      }
      var fallbackUntil := reference.value + OFFLINE_GRACE + PILOT_FALLBACK;
      if now > fallbackUntil {
        current := current.(valid := false);
        return;
      }
      current := current.(offlinePilot := true, offlinePilotUntil := Some(fallbackUntil), isPilotMode := true);
      if current.maxAssets.None? || current.maxAssets.value > PILOT_FALLBACK_ASSETS {
        current := current.(maxAssets := Some(PILOT_FALLBACK_ASSETS));
      }
    }

    method StoreAnswer(s: SignedState, now: Time, seen: Time, ok: bool)
      modifies this, store
      ensures (Globals(), store.Contents()) ==
              SetLicenseState(setup, old(Globals()), old(store.Contents()), s, now, seen, ok)
    {
      ApplyState(s);
      state := state.(lastValidatedAt := Some(now));
      state := state.(issuedAt := UtcFromEpoch(s.issuedAt), offline := false);
      signedToken := Some(s.signedToken);
      PersistState(seen, ok);
    }

    method MarkLicenseServerOffline(seen: Time, ok: bool)
      modifies this, store
      ensures (Globals(), store.Contents()) == MarkOffline(setup, old(Globals()), old(store.Contents()), seen, ok)
    {
      state := state.(offline := true);
      PersistState(seen, ok);
    }

    method MarkLicenseRejected(now: Time, seen: Time, ok: bool)
      modifies this, store
      ensures (Globals(), store.Contents()) == MarkRejected(setup, old(Globals()), old(store.Contents()), now, seen, ok)
    {
      state := state.(valid := false, offline := false);
      ClearEntitlementFields();
      state := state.(lastValidatedAt := Some(now), issuedAt := None);
      signedToken := None;
      PersistState(seen, ok);
    }

    /** None: it raises. */
    method RefreshLicenseState(reply: Reply, nonce: string, now: Time, seen: Time, ok: bool, read: Time)
      returns (current: Option<LicenseState>)
      modifies this, store
      ensures var answer := ClientValidate(setup, old(store.Contents()), reply, nonce);
              && (Globals(), store.Contents()) ==
                Refreshed(setup, old(Globals()), old(store.Contents()), answer, now, seen, ok, read)
              && (current.None? <==> answer.Rejected? || answer.Failed?)
              && (current.Some? ==>
                    var taken := Take(setup, old(Globals()), old(store.Contents()), answer, now, seen, ok).0;
                    current.value == Get(taken, read).0)
    {
      match ClientValidate(setup, store.Contents(), reply, nonce) {
        case Signed(s) => StoreAnswer(s, now, seen, ok);
        case Rejected =>
          MarkLicenseRejected(now, seen, ok);
          return None;
        case Unreachable => MarkLicenseServerOffline(seen, ok);
        case NotActivated =>
          state := state.(valid := false, offline := false);
          ClearEntitlementFields();
        case Failed =>
          state := state.(valid := false, offline := false);
          return None;
      }
      var snapshot := GetLicenseState(read);
      current := Some(snapshot);
    }

    method AdoptCached()
      modifies this
      ensures Globals() == AdoptCachedAnswer(setup, old(Globals()), store.Contents())
    {
      var stored := StoredAnswer(setup, store.Contents());
      if !setup.cacheEnabled || stored.None? || Some(stored.value.0.signedToken) == signedToken {
        return;
      }
      var (s, issued) := stored.value;
      var known := state.issuedAt;
      if !state.valid && state.lastValidatedAt.Some? {
        known := if known.Some? then Some(Max(known.value, state.lastValidatedAt.value)) else state.lastValidatedAt;
      }
      if known.Some? && issued <= known.value {
        return;
      }
      ApplyState(s);
      state := state.(lastValidatedAt := Some(issued), issuedAt := Some(issued), offline := false);
      signedToken := Some(s.signedToken);
    }

    /** sync_with_storage up to the stamps. What follows is LoadChange, with whatever other processes and
        other threads of this one did in between. */
    method TakeStamps(mono: Time) returns (todo: Pending)
      modifies this
      ensures (Globals(), todo) == SyncBegin(old(Globals()), store.Contents(), mono)
    {
      if !attached {
        return Nothing;
      }
      if state.valid && lastSync.Some? && mono - lastSync.value < SYNC_INTERVAL {
        return Nothing;
      }
      lastSync := Some(mono);
      var license, cache := StampOf(store.licenseFile), StampOf(store.stateFile);
      if license == licenseStamp && cache == stateStamp {
        return Nothing;
      }
      todo := Load(license != licenseStamp, license.None?);
      licenseStamp, stateStamp := license, cache;
    }

    method LoadChange(todo: Pending, reply: Reply, nonce: string, now: Time, seen: Time, ok: bool, read: Time)
      modifies this, store
      ensures (Globals(), store.Contents()) ==
              SyncEnd(setup, old(Globals()), old(store.Contents()), todo, reply, nonce, now, seen, ok, read)
    {
      if todo.Nothing? {
        return;
      }
      if todo.licenseChanged && todo.licenseGone {
        state := state.(valid := false, offline := false);
        ClearEntitlementFields();
        state := state.(issuedAt := None);
        signedToken := None;
      } else if todo.licenseChanged && IsOffline(store.Contents()) {
        var _ := RefreshLicenseState(reply, nonce, now, seen, ok, read);
      } else {
        AdoptCached();
      }
    }

    method RestoreCached(now: Time) returns (restored: bool)
      modifies this
      ensures Globals() == RestoreCachedState(setup, old(Globals()), store.Contents(), now)
      ensures restored ==> signedToken.Some? && state.offline
    {
      restored := false;
      var cached := Read(store.stateFile);
      if !attached || !setup.cacheEnabled || cached.None? {
        return;
      }
      var seen := cached.value.lastSeen;
      if seen.Some? {
        SeenNow(seen.value);
      }
      var stored := StoredAnswer(setup, store.Contents());
      if stored.None? {
        return;
      }
      var (s, issued) := stored.value;
      if now < issued - CLOCK_ROLLBACK_TOLERANCE || (seen.Some? && now < seen.value - CLOCK_ROLLBACK_TOLERANCE) {
        return;
      }
      var until := if s.offlineLicense then UtcFromEpoch(s.offlineUntil) else None;
      if until.Some? {
        if now > until.value {
          return;
        }
      } else if now - issued > OFFLINE_GRACE + PILOT_FALLBACK {
        return;
      }
      ApplyState(s);
      state := state.(lastValidatedAt := Some(issued), issuedAt := Some(issued));
      signedToken := Some(s.signedToken);
      state := state.(offline := true);
      restored := true;
    }
  }
}
