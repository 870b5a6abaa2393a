/** The recovery client against the driver: what --recover needs, and what --set-password changes. */
module Client {
  import opened Common
  import opened DriverState
  import opened DriverMachine
  import opened DriverHandlers
  import opened DriverObject
  import opened Wire

  /** PBKDF2 as a foreign function of password, salt and iteration count. */
  type Kdf = (Bytes, Bytes, nat) -> Bytes

  datatype Password = Password(salt: Bytes, iterations: nat, verifier: Bytes)

  datatype RecoverResult =
    | RegistryError
    | PromptError
    | WrongPassword             // the client's own check against the registry
    | OpenError
    | NonceError
    | UnlockError
    | Answered(o: Outcome)      // the driver's answer to the unlock request

  /** The NTSTATUS an unlock outcome is completed with; the two errors of foreign calls stand for any error status. */
  function NtStatus(o: Outcome): bv32 {
    match o
    case Unlocked => 0
    case Refused(StaleNonce) => 0x0000_0102  // STATUS_TIMEOUT
    case Refused(_) => 0xC000_0022           // STATUS_ACCESS_DENIED
    case Failed(BufferTooSmall) => 0xC000_0023
    case _ => 0xC000_0001
  }

  /** The NT_SUCCESS macro; DeviceIoControl reports an error exactly when it is false. */
  predicate NtSuccess(status: bv32) {
    status & 0x8000_0000 == 0
  }

  /** The client prints that the driver is unlocked. */
  predicate ReportsUnlocked(r: RecoverResult) {
    r.Answered? && NtSuccess(NtStatus(r.o))
  }

  predicate Accepts(cfg: Config, kdf: Kdf, p: Password, pw: Bytes) {
    cfg.hmac(kdf(pw, p.salt, p.iterations), LABEL) == p.verifier
  }

  /** The driver, after its own reload, holds the verifier the client's key was checked against, and its crypto works. */
  predicate DriverAgrees(s: Shared, stored: Password, env: Env) {
    s.verifierLoaded && s.verifier == stored.verifier && env.keyCrypto && env.answerCrypto
  }

  /** An unlock that answers the nonce just issued, with a key the registry's verifier accepts. */
  lemma AnswerToFreshNonce(cfg: Config, s: Shared, derived: Bytes, stored: Password, env: Env)
    requires WellFormed(s) && env.random.Some? && cfg.hmac(derived, LABEL) == stored.verifier
    ensures var s1 := TryReload(s, env);
      var (issued, answer) := Handle(cfg, s, GetNonce(NONCE_LEN), env);
      var (s2, o) := Handle(cfg, issued, Unlock(UNLOCK_REQUEST_LEN, cfg.hmac(derived, env.random.value), derived), env);
      && answer == NonceIssued(env.random.value)
      && (o == Refused(StaleNonce) <==> env.ageNow - env.nonceNow > NONCE_TTL)
      && (o == Unlocked <==> env.ageNow - env.nonceNow <= NONCE_TTL && DriverAgrees(s1, stored, env))
      && (if o == Unlocked then s2.permissive && s2.expires == env.enterNow + WINDOW
          else s2.permissive == s1.permissive && s2.expires == s1.expires)
  {
  }

  /** Whether the device can be opened, and whether each call to it reaches the driver. */
  datatype Device = Device(opens: bool, nonceCall: bool, unlockCall: bool)

  /** doRecover's exchange with the driver, once the client's own check has accepted the key and the device is open. */
  method Exchange(driver: Driver, ghost stored: Password, derived: Bytes, device: Device, env: Env) returns (r: RecoverResult)
    requires driver.Valid() && (env.random.Some? ==> |env.random.value| == NONCE_LEN)
    requires |derived| == 32 && driver.cfg.hmac(derived, LABEL) == stored.verifier
    modifies driver, driver.pendingNonce, driver.installSalt, driver.storedVerifier
    ensures driver.Valid() && (r.NonceError? || r.UnlockError? || r.Answered?)
    ensures r.NonceError? <==> !device.nonceCall || env.random.None?
    ensures r.UnlockError? <==> device.nonceCall && env.random.Some? && !device.unlockCall
    ensures r == Answered(Unlocked) <==>
      && device.nonceCall && device.unlockCall
      && env.random.Some? && env.ageNow - env.nonceNow <= NONCE_TTL && DriverAgrees(TryReload(old(driver.Snapshot()), env), stored, env)
    ensures if r == Answered(Unlocked) then driver.permissive && driver.permissiveExpires == env.enterNow + WINDOW
      else driver.permissive == old(driver.permissive) && driver.permissiveExpires == old(driver.permissiveExpires)
    ensures r == Answered(Refused(StaleNonce)) <==>
      device.nonceCall && device.unlockCall && env.random.Some? && env.ageNow - env.nonceNow > NONCE_TTL
  {
    if !device.nonceCall { return NonceError; }
    ghost var s := driver.Snapshot();
    var nonceOutcome := driver.HandleGetNonce(NONCE_LEN, env);
    ReloadKeepsWindow(driver.cfg, s, env);
    if !nonceOutcome.NonceIssued? { return NonceError; }
    var response := driver.cfg.hmac(derived, nonceOutcome.nonce);
    var buffer := UnlockBuffer(response, derived);
    if !device.unlockCall { return UnlockError; }
    AnswerToFreshNonce(driver.cfg, s, derived, stored, env);
    var o := driver.HandleUnlock(buffer.value, env);
    r := Answered(o);
  }

  lemma ReloadKeepsWindow(cfg: Config, s: Shared, env: Env)
    requires WellFormed(s)
    ensures var (s1, o) := Handle(cfg, s, GetNonce(NONCE_LEN), env);
      s1.permissive == s.permissive && s1.expires == s.expires && (o.NonceIssued? <==> env.random.Some?)
  {
  }

  /** The client has a password that the registry's record accepts. */
  predicate Knows(cfg: Config, kdf: Kdf, stored: Option<Password>, pw: Option<Bytes>) {
    stored.Some? && pw.Some? && Accepts(cfg, kdf, stored.value, pw.value)
  }

  /**
   * doRecover: derive the key from the registry's salt, check it against the registry's verifier, then answer a
   * fresh nonce. `stored` is the registry record and `pw` the password typed, None when reading them fails. The driver decides by its own loaded copy of the verifier.
   */
  method Recover(driver: Driver, kdf: Kdf, stored: Option<Password>, pw: Option<Bytes>, device: Device, env: Env)
    returns (r: RecoverResult)
    requires driver.Valid() && (env.random.Some? ==> |env.random.value| == NONCE_LEN)
    requires forall p, salt, n :: |kdf(p, salt, n)| == 32
    modifies driver, driver.pendingNonce, driver.installSalt, driver.storedVerifier
    ensures driver.Valid()
    // the exits, in their order
    ensures r == RegistryError <==> stored.None?
    ensures r == PromptError <==> stored.Some? && pw.None?
    ensures r == WrongPassword <==> stored.Some? && pw.Some? && !Accepts(driver.cfg, kdf, stored.value, pw.value)
    ensures r == OpenError <==> Knows(driver.cfg, kdf, stored, pw) && !device.opens
    ensures r == NonceError <==> Knows(driver.cfg, kdf, stored, pw) && device.opens && (!device.nonceCall || env.random.None?)
    ensures r == UnlockError <==>
      Knows(driver.cfg, kdf, stored, pw) && device.opens && device.nonceCall && env.random.Some? && !device.unlockCall
    ensures !r.NonceError? && !r.UnlockError? && !r.Answered? ==> driver.Snapshot() == old(driver.Snapshot())
    // the driver opens the window
    ensures r == Answered(Unlocked) <==>
      && Knows(driver.cfg, kdf, stored, pw) && device == Device(true, true, true) && env.random.Some?
      && env.ageNow - env.nonceNow <= NONCE_TTL && DriverAgrees(TryReload(old(driver.Snapshot()), env), stored.value, env)
    ensures if r == Answered(Unlocked) then driver.permissive && driver.permissiveExpires == env.enterNow + WINDOW
      else driver.permissive == old(driver.permissive) && driver.permissiveExpires == old(driver.permissiveExpires)
    // the client says so; of a nonce that went stale it says so too
    ensures ReportsUnlocked(r) <==>
      || r == Answered(Unlocked)
      || (Knows(driver.cfg, kdf, stored, pw) && device == Device(true, true, true) && env.random.Some? && env.ageNow - env.nonceNow > NONCE_TTL)
  {
    if stored.None? { return RegistryError; }
    if pw.None? { return PromptError; }
    var derived := kdf(pw.value, stored.value.salt, stored.value.iterations);
    var computed := driver.cfg.hmac(derived, LABEL);
    if computed != stored.value.verifier { return WrongPassword; }
    if !device.opens { return OpenError; }
    r := Exchange(driver, stored.value, derived, device, env);
    OnlyTheseSucceed(r);
  }

  /** Of the answers to an unlock, the client takes two for a success. */
  lemma OnlyTheseSucceed(r: RecoverResult)
    ensures ReportsUnlocked(r) <==> r == Answered(Unlocked) || r == Answered(Refused(StaleNonce))
  {
  }

  /** HKLM\SYSTEM\Lockguard\Recovery. */
  class Registry {
    var current: Password

    constructor (p: Password)
      ensures current == p
    {
      current := p;
    }
  }

  /** The registry callback on one write under the recovery key, and whether it lets the write through. */
  function SetValue(cfg: Config, s: Shared, key: Option<Names.Name>, env: Env): (r: (Shared, bool))
    requires WellFormed(s)
    ensures WellFormed(r.0)
    ensures r.1 <==> !(KeyChange(cfg, SetValueKey) && KeyHit(cfg, key)) || ActiveAt(s, env.checkNow)
  {
    var (s', o) := Handle(cfg, s, RegistryOp(SetValueKey, key), env);
    (s', o == Pass)
  }

  /**
   * The three gated writes of doSetPassword. `envs` supplies the clock each one's registry callback samples, `opens`
   * says whether the key can be opened, and `works` whether each write let through then succeeds.
   */
  method StorePassword(driver: Driver, reg: Registry, key: Option<Names.Name>, p: Password, opens: bool, envs: seq<Env>, works: seq<bool>)
    returns (ok: bool)
    requires driver.Valid() && |envs| == |works| == 3
    modifies reg, driver`permissive, driver`permissiveExpires, driver`tamperCount
    ensures driver.Valid()
    ensures driver.verifierLoaded == old(driver.verifierLoaded) && driver.storedVerifier[..] == old(driver.storedVerifier[..])
    ensures var s0 := old(driver.Snapshot());
      var (s1, a) := SetValue(driver.cfg, s0, key, envs[0]);
      var (s2, b) := SetValue(driver.cfg, s1, key, envs[1]);
      var (_, c) := SetValue(driver.cfg, s2, key, envs[2]);
      && ok == (opens && a && works[0] && b && works[1] && c && works[2])
      && reg.current ==
           if !opens || !a || !works[0] then old(reg.current)
           else if !b || !works[1] then old(reg.current).(salt := p.salt)
           else if !c || !works[2] then old(reg.current).(salt := p.salt, iterations := p.iterations)
           else p
  {
    if !opens { return false; }
    var o := driver.RegistryCallback(SetValueKey, key, envs[0]);
    if o != Pass || !works[0] { return false; }
    reg.current := reg.current.(salt := p.salt);
    o := driver.RegistryCallback(SetValueKey, key, envs[1]);
    if o != Pass || !works[1] { return false; }
    reg.current := reg.current.(iterations := p.iterations);
    o := driver.RegistryCallback(SetValueKey, key, envs[2]);
    if o != Pass || !works[2] { return false; }
    reg.current := reg.current.(verifier := p.verifier);
    return true;
  }

  /** A store that failed past its first write leaves the new salt with the old verifier. */
  predicate Torn(before: Password, p: Password, now: Password) {
    now == before.(salt := p.salt) || now == before.(salt := p.salt, iterations := p.iterations)
  }

  /**
   * What a torn record accepts: a password whose key under the new salt has the old verifier. So the old password is
   * refused, and the new one too, unless two different derivations come to one verifier.
   */
  lemma TornRecordAccepts(cfg: Config, kdf: Kdf, before: Password, p: Password, now: Password, pw: Bytes)
    requires Torn(before, p, now)
    ensures Accepts(cfg, kdf, now, pw) <==> cfg.hmac(kdf(pw, p.salt, now.iterations), LABEL) == before.verifier
    ensures Accepts(cfg, kdf, before, pw) ==> (Accepts(cfg, kdf, now, pw) <==>
      cfg.hmac(kdf(pw, p.salt, now.iterations), LABEL) == cfg.hmac(kdf(pw, before.salt, before.iterations), LABEL))
    ensures Accepts(cfg, kdf, p, pw) && now.iterations == p.iterations ==> (Accepts(cfg, kdf, now, pw) <==> p.verifier == before.verifier)
  {
  }

  /**
   * A password change against a driver that has its verifier. Once the change is stored the client itself accepts
   * only passwords for the new record, and then the driver opens exactly if the new verifier is the one it loaded
   * before. So until the next boot neither the old nor the new password opens the window, unless the two are equal.
   */
  method ChangeThenRecover(driver: Driver, kdf: Kdf, reg: Registry, key: Option<Names.Name>, newPw: Bytes, newSalt: Bytes, newIter: nat,
                           envs: seq<Env>, works: seq<bool>, pw: Bytes, env: Env)
    returns (stored: bool, r: RecoverResult)
    requires driver.Valid() && |envs| == |works| == 3 && (env.random.Some? ==> |env.random.value| == NONCE_LEN)
    requires forall p, salt, n :: |kdf(p, salt, n)| == 32
    requires driver.verifierLoaded
    modifies reg, driver, driver.pendingNonce, driver.installSalt, driver.storedVerifier
    ensures driver.Valid()
    ensures stored ==> reg.current == Password(newSalt, newIter, driver.cfg.hmac(kdf(newPw, newSalt, newIter), LABEL))
    ensures r == WrongPassword <==> !Accepts(driver.cfg, kdf, reg.current, pw)
    ensures !stored && reg.current != old(reg.current) ==>
      (r == WrongPassword <==> driver.cfg.hmac(kdf(pw, newSalt, reg.current.iterations), LABEL) != old(reg.current).verifier)
    ensures stored ==> (r == Answered(Unlocked) <==>
      && Accepts(driver.cfg, kdf, reg.current, pw)
      && env.random.Some? && env.ageNow - env.nonceNow <= NONCE_TTL && env.keyCrypto && env.answerCrypto
      && driver.cfg.hmac(kdf(newPw, newSalt, newIter), LABEL) == old(driver.storedVerifier[..]))
  {
    var derived := kdf(newPw, newSalt, newIter);
    var verifier := driver.cfg.hmac(derived, LABEL);
    stored := StorePassword(driver, reg, key, Password(newSalt, newIter, verifier), true, envs, works);
    r := Recover(driver, kdf, Some(reg.current), Some(pw), Device(true, true, true), env);
  }
}
