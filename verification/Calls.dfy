/**
 * What each call of the driver does when it runs alone, said without the handlers' own predicates: the numbers,
 * bits and cases are those of the headers and of the source's comparisons, written out.
 */
module Calls {
  import opened Common
  import opened Names
  import opened DriverState
  import opened DriverMachine
  import opened DriverHandlers

  /** The constants of lockguard.h in the clock's 100-ns units and in bytes, and the label the verifier is made with. */
  lemma HeaderConstants()
    ensures WINDOW == 6_000_000_000 && NONCE_TTL == 600_000_000 && GRACE == 20_000_000 && RETRY_INTERVAL == 100_000_000
    ensures NONCE_LEN == 32 && VERIFIER_LEN == 32 && SALT_MAX_LEN == 64
    ensures UNLOCK_REQUEST_LEN == 64 && STATUS_REPLY_LEN == 32 && WORD == 0x1_0000_0000
    ensures LABEL == [0x4C, 0x4F, 0x43, 0x4B, 0x47, 0x55, 0x41, 0x52, 0x44, 0x2D, 0x56, 0x45, 0x52, 0x49, 0x46, 0x49, 0x45, 0x52, 0x2D, 0x56, 0x31]
  {
  }

  // -------- the callbacks --------

  /** The window after one check with clock sample `now`. */
  predicate Checked(s: Shared, s': Shared, now: int) {
    if s.permissive && now < s.expires then
      s'.permissive && s'.expires == (if s.expires < now + 20_000_000 then now + 20_000_000 else s.expires)
    else
      !s'.permissive && s'.expires == (if s.permissive then 0 else s.expires)
  }

  /**
   * A callback that asks for the window exactly when `asks`, and stops exactly the guarded requests of a closed one, each
   * with one tamper record. Nothing else changes.
   */
  predicate Gated(s: Shared, s': Shared, o: Outcome, asks: bool, guarded: bool, stopped: Outcome, now: int) {
    var stops := guarded && !(s.permissive && now < s.expires);
    && o == (if stops then stopped else Pass)
    && s'.tamper == (if stops then (s.tamper + 1) % 0x1_0000_0000 else s.tamper)
    && (if asks then Checked(s, s', now) else s'.permissive == s.permissive && s'.expires == s.expires)
    && s' == s.(permissive := s'.permissive, expires := s'.expires, tamper := s'.tamper)
  }

  /** FILE_DELETE_ON_CLOSE, or one of DELETE, FILE_WRITE_DATA, FILE_APPEND_DATA, WRITE_DAC and WRITE_OWNER. */
  lemma FileCreateCall(cfg: Config, s: Shared, options: bv32, access: Option<bv32>, path: Option<Name>, env: Env)
    requires WellFormed(s)
    ensures var (s', o) := Handle(cfg, s, FileCreate(options, access, path), env);
      var guarded :=
        && (options & 0x1000 != 0 || (access.Some? && access.value & 0x000D_0006 != 0))
        && path.Some? && ContainsAny(cfg.upcase, cfg.tables.paths, path.value);
      Gated(s, s', o, guarded, guarded, Denied, env.checkNow)
  {
    WriteBits();
  }

  lemma WriteBits()
    ensures WRITE_ACCESS == 0x000D_0006
  {
  }

  lemma HandleBits(op: HandleOp, desired: bv32)
    ensures DeniedRights(op, desired) == (if op.CreateHandle? || op.DuplicateHandle? then desired & 0x082B else 0)
    ensures desired & !PROC_DENIED_MASK == desired & 0xFFFF_F7D4
  {
  }

  lemma FileSetInfoCall(cfg: Config, s: Shared, k: InfoClass, path: Option<Name>, env: Env)
    requires WellFormed(s)
    ensures var (s', o) := Handle(cfg, s, FileSetInfo(k, path), env);
      var guarded :=
        && (k.Disposition? || k.DispositionEx? || k.Rename? || k.RenameEx? || k.EndOfFile? || k.Allocation?)
        && path.Some? && ContainsAny(cfg.upcase, cfg.tables.paths, path.value);
      Gated(s, s', o, guarded, guarded, Denied, env.checkNow)
  {
  }

  lemma FileWriteCall(cfg: Config, s: Shared, path: Option<Name>, env: Env)
    requires WellFormed(s)
    ensures var (s', o) := Handle(cfg, s, FileWrite(path), env);
      var guarded := path.Some? && ContainsAny(cfg.upcase, cfg.tables.paths, path.value);
      Gated(s, s', o, guarded, guarded, Denied, env.checkNow)
  {
  }

  lemma RegistryCall(cfg: Config, s: Shared, k: RegClass, key: Option<Name>, env: Env)
    requires WellFormed(s)
    ensures var (s', o) := Handle(cfg, s, RegistryOp(k, key), env);
      var guarded :=
        && cfg.regNumber(k) != 0 && (k.SetValueKey? || k.DeleteValueKey? || k.DeleteKey? || k.RenameKey?)
        && key.Some? && StartsWithAny(cfg.upcase, cfg.tables.keys, key.value);
      Gated(s, s', o, guarded, guarded, Denied, env.checkNow)
  {
  }

  /** The base name is what follows the last backslash (92) or slash (47). */
  lemma ProcessStartCall(cfg: Config, s: Shared, image: Option<Name>, env: Env)
    requires WellFormed(s)
    ensures var (s', o) := Handle(cfg, s, ProcessStart(image), env);
      var guarded := image.Some? && |image.value| > 0 && BaseIn(cfg.lower, {92, 47}, image.value, cfg.tables.blocked);
      Gated(s, s', o, image.Some?, guarded, Denied, env.checkNow)
  {
  }

  /** What a closed window does with a handle: the rights to take, as bits. */
  lemma ClosedHandle(cfg: Config, onProcess: bool, kernel: bool, op: HandleOp, desired: bv32, target: Option<Name>)
    ensures OnClosed(cfg, ProcessHandle(onProcess, kernel, op, desired, target)) ==
      if (op.CreateHandle? || op.DuplicateHandle?) && desired & 0x082B != 0
         && target.Some? && BaseIn(cfg.lower, {92}, target.value, cfg.tables.images)
      then Stripped(desired & 0xFFFF_F7D4, desired & 0x082B) else Pass
  {
    HandleBits(op, desired);
  }

  /** A call that goes to the check is gated by what a closed window does with it. */
  lemma AskingCall(cfg: Config, s: Shared, req: Request, guarded: bool, stopped: Outcome, env: Env)
    requires WellFormed(s) && req.ProcessHandle? && Entry(cfg, req) == ReadFlag(req)
    requires OnClosed(cfg, req) == (if guarded then stopped else Pass) && Recorded(stopped)
    ensures var (s', o) := Handle(cfg, s, req, env); Gated(s, s', o, true, guarded, stopped, env.checkNow)
  {
  }

  /**
   * PROCESS_TERMINATE, PROCESS_CREATE_THREAD, PROCESS_VM_OPERATION, PROCESS_VM_WRITE and PROCESS_SUSPEND_RESUME are
   * taken from a handle to a protected process, and nothing else is.
   */
  lemma ProcessHandleCall(cfg: Config, s: Shared, onProcess: bool, kernel: bool, op: HandleOp, desired: bv32, target: Option<Name>, env: Env)
    requires WellFormed(s)
    ensures var (s', o) := Handle(cfg, s, ProcessHandle(onProcess, kernel, op, desired, target), env);
      var guarded :=
        && onProcess && !kernel && (op.CreateHandle? || op.DuplicateHandle?) && desired & 0x082B != 0
        && target.Some? && BaseIn(cfg.lower, {92}, target.value, cfg.tables.images);
      Gated(s, s', o, onProcess && !kernel, guarded, Stripped(desired & 0xFFFF_F7D4, desired & 0x082B), env.checkNow)
  {
    if onProcess && !kernel {
      ClosedHandle(cfg, onProcess, kernel, op, desired, target);
      var guarded := (op.CreateHandle? || op.DuplicateHandle?) && desired & 0x082B != 0
        && target.Some? && BaseIn(cfg.lower, {92}, target.value, cfg.tables.images);
      AskingCall(cfg, s, ProcessHandle(onProcess, kernel, op, desired, target), guarded,
                 Stripped(desired & 0xFFFF_F7D4, desired & 0x082B), env);
    }
  }

  lemma FilterUnloadCall(cfg: Config, s: Shared, env: Env)
    requires WellFormed(s)
    ensures var (s', o) := Handle(cfg, s, FilterUnload, env); Gated(s, s', o, true, true, Denied, env.checkNow)
  {
  }

  // -------- status and heartbeat --------

  /** The reply carries the check's own answer and what the check left. */
  lemma StatusReplyCall(cfg: Config, s: Shared, outLen: nat, env: Env)
    requires WellFormed(s)
    ensures var (s', o) := Handle(cfg, s, Status(outLen), env);
      if outLen < 32 then s' == s && o == Failed(BufferTooSmall)
      else
        && Checked(s, s', env.checkNow) && s' == s.(permissive := s'.permissive, expires := s'.expires)
        && o == Reported(Reply(s.permissive && env.checkNow < s.expires, s'.expires, s.tamper, s.heartbeat))
  {
  }

  lemma HeartbeatCall(cfg: Config, s: Shared, env: Env)
    requires WellFormed(s)
    ensures Handle(cfg, s, Heartbeat, env) == (s.(heartbeat := env.beatNow), Alive)
  {
  }

  // -------- the reload and the nonce --------

  /** A load succeeds exactly when every part of it was read and fits, and then holds what was read. */
  lemma LoadCall(s: Shared, env: Env)
    requires WellFormed(s)
    ensures var s' := Load(s, env);
      var saltRead := env.keyOpen && env.salt.Some? && |env.salt.value| <= 64;
      var allButVerifier := saltRead && env.iterations.Some?;
      var stored := allButVerifier && env.verifier.Some? && |env.verifier.value| <= 32;
      && s'.verifierLoaded == (s.verifierLoaded || (stored && |env.verifier.value| == 32))
      && s'.verifier == (if stored then env.verifier.value + s.verifier[|env.verifier.value|..] else s.verifier)
      && s'.iterations == (if allButVerifier then env.iterations.value else s.iterations)
      && s'.saltLen == (if saltRead then |env.salt.value| else s.saltLen)
      && s'.salt == (if saltRead then env.salt.value + s.salt[|env.salt.value|..] else s.salt)
      && s' == s.(verifierLoaded := s'.verifierLoaded, verifier := s'.verifier, iterations := s'.iterations, saltLen := s'.saltLen, salt := s'.salt)
  {
  }

  /** A retry is made as soon as ten seconds have passed since the last, and not before. */
  lemma ReloadCall(s: Shared, env: Env)
    requires WellFormed(s)
    ensures TryReload(s, env) ==
      if !s.verifierLoaded && env.passive && (s.lastRetry == 0 || env.retryNow - s.lastRetry >= 100_000_000)
      then Load(s.(lastRetry := env.retryNow), env) else s
  {
  }

  /** So when it is due and the registry holds a whole record, the driver has its verifier. */
  lemma DueRetryLoads(s: Shared, env: Env)
    requires WellFormed(s) && !s.verifierLoaded && env.passive
    requires s.lastRetry == 0 || env.retryNow - s.lastRetry >= 100_000_000
    requires env.keyOpen && env.salt.Some? && |env.salt.value| <= 64 && env.iterations.Some?
    requires env.verifier.Some? && |env.verifier.value| == 32
    ensures TryReload(s, env).verifierLoaded && TryReload(s, env).verifier == env.verifier.value
  {
    LoadCall(s.(lastRetry := env.retryNow), env);
    assert env.verifier.value + s.verifier[32..] == env.verifier.value;
  }

  lemma GetNonceIssues(cfg: Config, s: Shared, outLen: nat, env: Env)
    requires WellFormed(s)
    ensures var (s', o) := Handle(cfg, s, GetNonce(outLen), env);
      var s1 := TryReload(s, env);
      if outLen < 32 then s' == s && o == Failed(BufferTooSmall)
      else if env.random.None? then s' == s1 && o == Failed(RandomFailed)
      else
        && o == NonceIssued(env.random.value)
        && s' == s1.(nonceValid := true, pendingNonce := env.random.value, nonceIssuedAt := env.nonceNow)
  {
  }

  // -------- the unlock --------

  /**
   * When an unlock is refused for which reason, when it fails, and when it opens the window. Whatever the outcome the
   * pending nonce is spent; each refusal, and nothing else, is one tamper record.
   */
  lemma UnlockOutcome(cfg: Config, s: Shared, req: Request, env: Env)
    requires WellFormed(s) && req.Unlock? && req.inLen >= 64
    ensures var (s', o) := Handle(cfg, s, req, env);
      var inTime := s.nonceValid && env.ageNow - s.nonceIssuedAt <= 600_000_000;
      var rightKey := s.verifierLoaded && env.keyCrypto && cfg.hmac(req.derived, LABEL) == s.verifier;
      var answers := req.response == cfg.hmac(req.derived, s.pendingNonce);
      && (o == Refused(NoNonce) <==> !s.nonceValid)
      && (o == Refused(StaleNonce) <==> s.nonceValid && !inTime)
      && (o == Refused(WrongKey) <==> inTime && !rightKey)
      && (o == Failed(CryptoFailed) <==> inTime && rightKey && !env.answerCrypto)
      && (o == Refused(Mismatch) <==> inTime && rightKey && env.answerCrypto && !answers)
      && (o == Unlocked <==> inTime && rightKey && env.answerCrypto && answers)
      && s'.tamper == (if o.Refused? then (s.tamper + 1) % 0x1_0000_0000 else s.tamper)
      && s'.permissive == (s.permissive || o == Unlocked)
      && s'.expires == (if o == Unlocked then env.enterNow + 6_000_000_000 else s.expires)
      && !s'.nonceValid && (s.nonceValid ==> s'.pendingNonce == Zeros(32))
      && s' == s.(nonceValid := false, pendingNonce := s'.pendingNonce, tamper := s'.tamper, permissive := s'.permissive, expires := s'.expires)
  {
  }

  lemma ShortUnlock(cfg: Config, s: Shared, req: Request, env: Env)
    requires WellFormed(s) && req.Unlock? && req.inLen < 64
    ensures Handle(cfg, s, req, env) == (s, Failed(BufferTooSmall))
  {
  }

  /** An answer to another nonce, by a key that is right, is refused and recorded, and leaves the window as it was. */
  lemma WrongResponseRefused(cfg: Config, s: Shared, req: Request, env: Env)
    requires WellFormed(s) && req.Unlock? && req.inLen >= 64
    requires s.nonceValid && env.ageNow - s.nonceIssuedAt <= 600_000_000
    requires s.verifierLoaded && env.keyCrypto && env.answerCrypto && cfg.hmac(req.derived, LABEL) == s.verifier
    requires req.response != cfg.hmac(req.derived, s.pendingNonce)
    ensures var (s', o) := Handle(cfg, s, req, env);
      o == Refused(Mismatch) && s'.tamper == (s.tamper + 1) % 0x1_0000_0000 && s'.permissive == s.permissive && s'.expires == s.expires
  {
    UnlockOutcome(cfg, s, req, env);
  }

  /** And so is a wrong key, whatever it answers. */
  lemma WrongKeyRefused(cfg: Config, s: Shared, req: Request, env: Env)
    requires WellFormed(s) && req.Unlock? && req.inLen >= 64
    requires s.nonceValid && env.ageNow - s.nonceIssuedAt <= 600_000_000
    requires !s.verifierLoaded || cfg.hmac(req.derived, LABEL) != s.verifier
    ensures var (s', o) := Handle(cfg, s, req, env);
      o == Refused(WrongKey) && s'.tamper == (s.tamper + 1) % 0x1_0000_0000 && s'.permissive == s.permissive && s'.expires == s.expires
  {
    UnlockOutcome(cfg, s, req, env);
  }
}
