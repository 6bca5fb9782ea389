/** Signed license answers (app/core/license_token.py): which tokens are believed, and what they say.

    The cryptography is not modelled. `Trust.signed` is any function that tells, for a token, the
    claims a trusted key signed (None: malformed, unknown key or bad signature). */
module LicenseToken {
  import opened Options

  type Token = string

  /** Microseconds since the epoch, as Python's datetime counts. */
  type Time = int

  const SECOND: Time := 1_000_000
  const TOKEN_VERSION := 1

  /** The seconds that datetime.utcfromtimestamp accepts: years 1 to 9999. */
  const MIN_EPOCH := -62_135_596_800
  const MAX_EPOCH := 253_402_300_799

  /** A JSON value where a number is expected: missing, null, a number, or something int() refuses. */
  datatype Field = Absent | Null | Number(n: int) | Unreadable

  datatype Limits = NotADict | Limits(maxAssets: Field, addonPacks: Field)

  datatype Claims = Claims(
    version: int, typ: string, licenseKey: string, fingerprint: string, nonce: Option<string>,
    iat: Option<int>, valid: bool, plan: Option<string>, planName: Option<string>, pilot: bool,
    limits: Limits, exp: Option<int>, offlineUntil: Option<int>)

  /** What claims_to_state returns: the state a verified token describes. */
  datatype SignedState = SignedState(
    valid: bool, planCode: Option<string>, planName: Option<string>, isPilotMode: bool,
    limits: Limits, expiresAt: Option<int>, issuedAt: Option<int>,
    offlineLicense: bool, offlineUntil: Option<int>, signedToken: Token)

  datatype Trust = Trust(signed: Token -> Option<Claims>, fingerprint: string)

  function VerifyToken(trust: Trust, token: Token, licenseKey: string,
                       typ: Option<string>, nonce: Option<string>): Option<Claims>
  {
    if token == "" then None
    else match trust.signed(token)
      case None => None
      case Some(c) =>
        if c.version != TOKEN_VERSION then None
        else if typ.Some? && c.typ != typ.value then None
        else if c.licenseKey != licenseKey then None
        else if c.fingerprint != trust.fingerprint then None
        else if nonce.Some? && c.nonce != nonce then None
        else if c.iat.None? then None
        else Some(c)
  }

  function ClaimsToState(c: Claims, token: Token): SignedState {
    SignedState(c.valid, c.plan, c.planName, c.pilot, c.limits, c.exp, c.iat,
                c.typ == "offline", c.offlineUntil, token)
  }

  /** The state really is what a trusted key signed in that token, for this machine and in the
      supported version. */
  ghost predicate Genuine(trust: Trust, s: SignedState) {
    var c := trust.signed(s.signedToken);
    && c.Some?
    && c.value.version == TOKEN_VERSION
    && c.value.fingerprint == trust.fingerprint
    && s == ClaimsToState(c.value, s.signedToken)
  }

  function UtcFromEpoch(seconds: Option<int>): Option<Time> {
    if seconds.Some? && MIN_EPOCH <= seconds.value <= MAX_EPOCH then Some(seconds.value * SECOND) else None
  }
}
