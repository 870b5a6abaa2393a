/** The driver's global variables, and the effect of each atomic access to them. */
module DriverState {
  import opened Common

  // Times are in the 100-ns units of the system clock.
  const SECOND: int := 10_000_000
  const WINDOW: int := 600 * SECOND
  const NONCE_TTL: int := 60 * SECOND
  const GRACE: int := 2 * SECOND
  const RETRY_INTERVAL: int := 10 * SECOND

  const NONCE_LEN: nat := 32
  const VERIFIER_LEN: nat := 32
  const SALT_MAX_LEN: nat := 64
  const WORD: int := 0x1_0000_0000

  datatype Shared = Shared(
    permissive: bool,
    expires: int,
    nonceValid: bool,
    pendingNonce: Bytes,
    nonceIssuedAt: int,
    tamper: nat,
    heartbeat: int,
    verifierLoaded: bool,
    salt: Bytes,
    saltLen: nat,
    iterations: nat,
    verifier: Bytes,
    lastRetry: int)

  const ZEROED: Shared := Shared(
    false, 0, false, Zeros(NONCE_LEN), 0, 0, 0,
    false, Zeros(SALT_MAX_LEN), 0, 0, Zeros(VERIFIER_LEN), 0)

  predicate WellFormed(s: Shared) {
    |s.salt| == SALT_MAX_LEN && |s.verifier| == VERIFIER_LEN && s.tamper < WORD
  }

  // -------- permissive window --------

  /** The section under gPermissiveLock that opens the window for a clock sample `now`. */
  function EnterSection(s: Shared, now: int): Shared {
    s.(permissive := true, expires := now + WINDOW)
  }

  predicate ActiveAt(s: Shared, now: int) {
    s.permissive && now < s.expires
  }

  /** The section under gPermissiveLock of one check with clock sample `now`. */
  function CheckSection(s: Shared, now: int): Shared {
    if ActiveAt(s, now) then s.(expires := Max(s.expires, now + GRACE))
    else if s.permissive then s.(permissive := false, expires := 0)
    else s
  }

  // -------- nonce --------

  function InstallNonce(s: Shared, nonce: Bytes, now: int): Shared {
    s.(pendingNonce := nonce, nonceValid := true, nonceIssuedAt := now)
  }

  function TakeNonce(s: Shared): Shared {
    if s.nonceValid then s.(nonceValid := false, pendingNonce := Zeros(NONCE_LEN)) else s
  }

  // -------- interlocked cells --------

  function RecordTamper(s: Shared): Shared {
    s.(tamper := (s.tamper + 1) % WORD)
  }

  function CasRetry(s: Shared, now: int, last: int): Shared {
    if s.lastRetry == last then s.(lastRetry := now) else s
  }

  // -------- recovery verifier --------

  /** A registry read into the salt buffer: None when the query failed or the value is too long. */
  function StoreSalt(s: Shared, read: Option<Bytes>): Option<Shared>
    requires WellFormed(s)
  {
    if read.None? || |read.value| > SALT_MAX_LEN then None
    else Some(s.(salt := Overlay(read.value, s.salt), saltLen := |read.value|))
  }

  /** A registry read into the verifier buffer. A short value still overwrites the front of it. */
  function StoreVerifier(s: Shared, read: Option<Bytes>): Option<Shared>
    requires WellFormed(s)
  {
    if read.None? || |read.value| > VERIFIER_LEN then None
    else Some(s.(verifier := Overlay(read.value, s.verifier)))
  }

  function LoadVerifierFrom(s: Shared, read: Option<Bytes>): Shared
    requires WellFormed(s)
  {
    var r := StoreVerifier(s, read);
    if r.None? then s
    else if |read.value| == VERIFIER_LEN then r.value.(verifierLoaded := true)
    else r.value
  }

  /** One whole load from the registry; a failed read ends it, with what was stored so far left in place. */
  function LoadFrom(s: Shared, keyOpen: bool, salt: Option<Bytes>, iterations: Option<nat>, verifier: Option<Bytes>): Shared
    requires WellFormed(s)
  {
    if !keyOpen then s
    else
      var r := StoreSalt(s, salt);
      if r.None? then s
      else if iterations.None? then r.value
      else LoadVerifierFrom(r.value.(iterations := iterations.value), verifier)
  }
}
