/**
 * The driver's handlers and callbacks in their own imperative form, over its global variables. Each leaves
 * the variables, and returns the outcome, that DriverHandlers.Handle gives for the call.
 */
module DriverObject {
  import opened Common
  import opened Names
  import opened DriverState
  import opened DriverMachine
  import opened DriverHandlers

  /** LG_UNLOCK_REQUEST laid over the request buffer. */
  function ParseUnlock(buffer: Bytes): Request {
    if |buffer| < UNLOCK_REQUEST_LEN then Unlock(|buffer|, [], [])
    else Unlock(|buffer|, buffer[..NONCE_LEN], buffer[NONCE_LEN..UNLOCK_REQUEST_LEN])
  }

  /** The comparison whose time does not depend on the data: true exactly on equal contents. */
  method ConstantTimeEqual(a: Bytes, b: Bytes) returns (equal: bool)
    requires |a| == |b|
    ensures equal <==> a == b
  {
    var diff: bv8 := 0;
    for i := 0 to |a|
      invariant diff == 0 <==> a[..i] == b[..i]
    {
      assert a[..i + 1] == a[..i] + [a[i]] && b[..i + 1] == b[..i] + [b[i]];
      XorOr(diff, a[i], b[i]);
      diff := diff | (a[i] ^ b[i]);
    }
    assert a[..|a|] == a && b[..|b|] == b;
    return diff == 0;
  }

  lemma XorOr(d: bv8, x: bv8, y: bv8)
    ensures (d | (x ^ y)) == 0 <==> d == 0 && x == y
  {
  }

  lemma NothingDenied(d: bv32, mask: bv32)
    ensures d & mask == 0 ==> d & !mask == d
  {
  }

  class Driver {
    const cfg: Config
    var permissive: bool
    var permissiveExpires: int
    var nonceValid: bool
    const pendingNonce: array<bv8>
    var nonceIssuedAt: int
    var tamperCount: nat
    var lastHeartbeat: int
    var verifierLoaded: bool
    const installSalt: array<bv8>
    var installSaltLen: nat
    var iterations: nat
    const storedVerifier: array<bv8>
    var verifierLastRetry: int

    ghost predicate Valid()
      reads this
    {
      && pendingNonce.Length == NONCE_LEN && installSalt.Length == SALT_MAX_LEN && storedVerifier.Length == VERIFIER_LEN
      && pendingNonce != installSalt && pendingNonce != storedVerifier && installSalt != storedVerifier
      && tamperCount < WORD
      // HMAC-SHA256 gives 32 bytes
      && (forall key, msg :: |cfg.hmac(key, msg)| == VERIFIER_LEN)
    }

    ghost function Snapshot(): (s: Shared)
      requires Valid()
      reads this, pendingNonce, installSalt, storedVerifier
      ensures WellFormed(s)
    {
      Shared(permissive, permissiveExpires, nonceValid, pendingNonce[..], nonceIssuedAt, tamperCount, lastHeartbeat,
             verifierLoaded, installSalt[..], installSaltLen, iterations, storedVerifier[..], verifierLastRetry)
    }

    constructor (cfg: Config)
      requires forall key, msg :: |cfg.hmac(key, msg)| == VERIFIER_LEN
      ensures Valid() && Snapshot() == ZEROED && this.cfg == cfg
      ensures fresh(pendingNonce) && fresh(installSalt) && fresh(storedVerifier)
    {
      this.cfg := cfg;
      permissive, permissiveExpires, nonceValid, nonceIssuedAt := false, 0, false, 0;
      tamperCount, lastHeartbeat, verifierLoaded, installSaltLen, iterations, verifierLastRetry := 0, 0, false, 0, 0, 0;
      pendingNonce := new bv8[NONCE_LEN](_ => 0);
      installSalt := new bv8[SALT_MAX_LEN](_ => 0);
      storedVerifier := new bv8[VERIFIER_LEN](_ => 0);
    }

    // -------- permissive window --------

    method EnterPermissiveWindow(now: int)
      requires Valid()
      modifies this`permissive, this`permissiveExpires
      ensures Valid() && Snapshot() == EnterSection(old(Snapshot()), now)
    {
      var expires := now + WINDOW;
      permissive := true;
      permissiveExpires := expires;
    }

    method IsPermissive(now: int) returns (active: bool)
      requires Valid()
      modifies this`permissive, this`permissiveExpires
      ensures Valid() && active == ActiveAt(old(Snapshot()), now) && Snapshot() == CheckSection(old(Snapshot()), now)
    {
      if !permissive { return false; }
      active := permissive && now < permissiveExpires;
      if permissive && !active {
        permissive := false;
        permissiveExpires := 0;
      } else if active {
        var graceFloor := now + GRACE;
        if permissiveExpires < graceFloor {
          permissiveExpires := graceFloor;
        }
      }
    }

    method RecordTamperEvent()
      requires Valid()
      modifies this`tamperCount
      ensures Valid() && Snapshot() == RecordTamper(old(Snapshot()))
    {
      tamperCount := (tamperCount + 1) % WORD;
    }

    // -------- nonce --------

    /** ZwQueryValueKey into a fixed buffer, as LgReadRegBytes does it. */
    static method ReadRegBytes(read: Option<Bytes>, buf: array<bv8>) returns (ok: bool)
      modifies buf
      ensures ok == (read.Some? && |read.value| <= buf.Length)
      ensures buf[..] == if ok then Overlay(read.value, old(buf[..])) else old(buf[..])
    {
      if read.None? || |read.value| > buf.Length { return false; }
      forall i | 0 <= i < |read.value| { buf[i] := read.value[i]; }
      return true;
    }

    method RecoveryLoadVerifier(env: Env)
      requires Valid()
      modifies this`installSaltLen, this`iterations, this`verifierLoaded, installSalt, storedVerifier
      ensures Valid() && Snapshot() == Load(old(Snapshot()), env)
    {
      if !env.keyOpen { return; }
      var ok := ReadRegBytes(env.salt, installSalt);
      if !ok { return; }
      installSaltLen := |env.salt.value|;
      if env.iterations.None? { return; }
      iterations := env.iterations.value;
      ok := ReadRegBytes(env.verifier, storedVerifier);
      if !ok { return; }
      if |env.verifier.value| != VERIFIER_LEN { return; }
      verifierLoaded := true;
    }

    method RecoveryTryReload(env: Env)
      requires Valid()
      modifies this`installSaltLen, this`iterations, this`verifierLoaded, this`verifierLastRetry, installSalt, storedVerifier
      ensures Valid() && Snapshot() == TryReload(old(Snapshot()), env)
    {
      if verifierLoaded { return; }
      if !env.passive { return; }
      var now := env.retryNow;
      var last := verifierLastRetry;
      if last != 0 && now - last < RETRY_INTERVAL { return; }
      var found := verifierLastRetry;
      if found == last { verifierLastRetry := now; }
      if found != last { return; }
      RecoveryLoadVerifier(env);
    }

    method HandleGetNonce(outLen: nat, env: Env) returns (outcome: Outcome)
      requires Valid() && (env.random.Some? ==> |env.random.value| == NONCE_LEN)
      modifies this, pendingNonce, installSalt, storedVerifier
      ensures Valid() && (Snapshot(), outcome) == Handle(cfg, old(Snapshot()), GetNonce(outLen), env)
    {
      if outLen < NONCE_LEN { return Failed(BufferTooSmall); }
      RecoveryTryReload(env);
      if env.random.None? { return Failed(RandomFailed); }
      var nonce := env.random.value;
      var now := env.nonceNow;
      ghost var s1 := Snapshot();
      forall i | 0 <= i < NONCE_LEN { pendingNonce[i] := nonce[i]; }
      nonceValid := true;
      nonceIssuedAt := now;
      assert pendingNonce[..] == nonce;
      assert Snapshot() == InstallNonce(s1, nonce, now);
      return NonceIssued(nonce);
    }

    // -------- unlock --------

    method RecoveryCheckKey(derived: Bytes, crypto: bool) returns (ok: bool)
      requires Valid()
      ensures ok == (verifierLoaded && crypto && KeyMatches(cfg, Snapshot(), derived))
    {
      if !verifierLoaded { return false; }
      var computed := cfg.hmac(derived, LABEL);
      if !crypto { return false; }
      ok := ConstantTimeEqual(computed, storedVerifier[..]);
    }

    /** The section of LgHandleUnlock under gNonceLock. */
    method ConsumeNonce() returns (nonceOk: bool, nonce: Bytes, issuedAt: int)
      requires Valid()
      modifies this`nonceValid, pendingNonce
      ensures Valid() && Snapshot() == TakeNonce(old(Snapshot()))
      ensures nonceOk == old(nonceValid)
      ensures nonceOk ==> nonce == old(pendingNonce[..]) && issuedAt == nonceIssuedAt
    {
      nonceOk, nonce, issuedAt := false, [], 0;
      if nonceValid {
        nonce := pendingNonce[..];
        issuedAt := nonceIssuedAt;
        nonceValid := false;
        forall i | 0 <= i < NONCE_LEN { pendingNonce[i] := 0; }
        assert pendingNonce[..] == Zeros(NONCE_LEN);
        nonceOk := true;
      }
    }

    method HandleUnlock(buffer: Bytes, env: Env) returns (outcome: Outcome)
      requires Valid()
      modifies this`permissive, this`permissiveExpires, this`nonceValid, this`tamperCount, pendingNonce
      ensures Valid() && (Snapshot(), outcome) == Handle(cfg, old(Snapshot()), ParseUnlock(buffer), env)
    {
      if |buffer| < UNLOCK_REQUEST_LEN { return Failed(BufferTooSmall); }
      var req := ParseUnlock(buffer);
      var nonceOk, nonce, issuedAt := ConsumeNonce();
      if !nonceOk {
        RecordTamperEvent();
        return Refused(NoNonce);
      }

      var age := env.ageNow - issuedAt;
      if age > NONCE_TTL {
        RecordTamperEvent();
        return Refused(StaleNonce);
      }

      outcome := FinishUnlock(req, nonce, env);
    }

    /** The rest of LgHandleUnlock, from its key check on. */
    method FinishUnlock(req: Request, nonce: Bytes, env: Env) returns (outcome: Outcome)
      requires Valid() && req.Unlock? && |req.response| == VERIFIER_LEN
      modifies this`permissive, this`permissiveExpires, this`tamperCount
      ensures Valid() && outcome == Judge(cfg, old(Snapshot()), req, nonce, env) && Snapshot() == Settle(old(Snapshot()), outcome, env)
    {
      var keyOk := RecoveryCheckKey(req.derived, env.keyCrypto);
      if !keyOk {
        RecordTamperEvent();
        return Refused(WrongKey);
      }

      var expected := cfg.hmac(req.derived, nonce);
      if !env.answerCrypto { return Failed(CryptoFailed); }
      var same := ConstantTimeEqual(req.response, expected);
      if !same {
        RecordTamperEvent();
        return Refused(Mismatch);
      }
      EnterPermissiveWindow(env.enterNow);
      return Unlocked;
    }

    // -------- status and heartbeat --------

    method HandleHeartbeat(env: Env) returns (outcome: Outcome)
      requires Valid()
      modifies this`lastHeartbeat
      ensures Valid() && (Snapshot(), outcome) == Handle(cfg, old(Snapshot()), Heartbeat, env)
    {
      lastHeartbeat := env.beatNow;
      return Alive;
    }

    method HandleStatus(outLen: nat, env: Env) returns (outcome: Outcome)
      requires Valid()
      modifies this`permissive, this`permissiveExpires
      ensures Valid() && (Snapshot(), outcome) == Handle(cfg, old(Snapshot()), Status(outLen), env)
    {
      if outLen < STATUS_REPLY_LEN { return Failed(BufferTooSmall); }
      var active := IsPermissive(env.checkNow);
      return Reported(Reply(active, permissiveExpires, tamperCount, lastHeartbeat));
    }

    // -------- callbacks --------

    /** The two mask tests of LgPreCreate. */
    static method WantsChange(options: bv32, access: Option<bv32>) returns (change: bool)
      ensures forall path :: change == WantsWrite(FileCreate(options, access, path))
    {
      var wantsDelete := options & FILE_DELETE_ON_CLOSE != 0;
      var wantsWrite := access.Some? && access.value & WRITE_ACCESS != 0;
      return wantsDelete || wantsWrite;
    }

    method PreCreate(options: bv32, access: Option<bv32>, path: Option<Name>, env: Env) returns (outcome: Outcome)
      requires Valid()
      modifies this`permissive, this`permissiveExpires, this`tamperCount
      ensures Valid() && (Snapshot(), outcome) == Handle(cfg, old(Snapshot()), FileCreate(options, access, path), env)
    {
      var wantsChange := WantsChange(options, access);
      if !wantsChange { return Pass; }
      var hit := PathMatches(cfg.upcase, cfg.tables.paths, path);
      if !hit { return Pass; }
      var active := IsPermissive(env.checkNow);
      if active { return Pass; }
      RecordTamperEvent();
      return Denied;
    }

    method PreSetInformation(infoClass: InfoClass, path: Option<Name>, env: Env) returns (outcome: Outcome)
      requires Valid()
      modifies this`permissive, this`permissiveExpires, this`tamperCount
      ensures Valid() && (Snapshot(), outcome) == Handle(cfg, old(Snapshot()), FileSetInfo(infoClass, path), env)
    {
      var dangerous := infoClass.Disposition? || infoClass.DispositionEx? || infoClass.Rename? || infoClass.RenameEx?
        || infoClass.EndOfFile? || infoClass.Allocation?;
      if !dangerous { return Pass; }
      var hit := PathMatches(cfg.upcase, cfg.tables.paths, path);
      if !hit { return Pass; }
      var active := IsPermissive(env.checkNow);
      if active { return Pass; }
      RecordTamperEvent();
      return Denied;
    }

    method PreWrite(path: Option<Name>, env: Env) returns (outcome: Outcome)
      requires Valid()
      modifies this`permissive, this`permissiveExpires, this`tamperCount
      ensures Valid() && (Snapshot(), outcome) == Handle(cfg, old(Snapshot()), FileWrite(path), env)
    {
      var hit := PathMatches(cfg.upcase, cfg.tables.paths, path);
      if !hit { return Pass; }
      var active := IsPermissive(env.checkNow);
      if active { return Pass; }
      RecordTamperEvent();
      return Denied;
    }

    method UnloadGuard(env: Env) returns (outcome: Outcome)
      requires Valid()
      modifies this`permissive, this`permissiveExpires, this`tamperCount
      ensures Valid() && (Snapshot(), outcome) == Handle(cfg, old(Snapshot()), FilterUnload, env)
    {
      var active := IsPermissive(env.checkNow);
      if !active {
        RecordTamperEvent();
        return Denied;
      }
      return Pass;
    }

    /** `key` is None when the notification carries no object or its name cannot be resolved. */
    method RegistryCallback(regClass: RegClass, key: Option<Name>, env: Env) returns (outcome: Outcome)
      requires Valid()
      modifies this`permissive, this`permissiveExpires, this`tamperCount
      ensures Valid() && (Snapshot(), outcome) == Handle(cfg, old(Snapshot()), RegistryOp(regClass, key), env)
    {
      if cfg.regNumber(regClass) == 0 { return Pass; }
      match regClass {
        case SetValueKey | DeleteValueKey | DeleteKey | RenameKey =>
        case CreateKeyEx => return Pass;
        case OtherRegOp => return Pass;
      }
      var deny := KeyNameMatchesAny(cfg.upcase, cfg.tables.keys, key);
      if !deny { return Pass; }
      var active := IsPermissive(env.checkNow);
      if active { return Pass; }
      RecordTamperEvent();
      return Denied;
    }

    method ProcessNotify(image: Option<Name>, env: Env) returns (outcome: Outcome)
      requires Valid()
      modifies this`permissive, this`permissiveExpires, this`tamperCount
      ensures Valid() && (Snapshot(), outcome) == Handle(cfg, old(Snapshot()), ProcessStart(image), env)
    {
      if image.None? { return Pass; }
      var active := IsPermissive(env.checkNow);
      if active { return Pass; }
      if |image.value| == 0 { return Pass; }
      var blocked := BaseInTable(cfg.lower, START_SEPS, image.value, cfg.tables.blocked);
      if blocked {
        RecordTamperEvent();
        return Denied;
      }
      return Pass;
    }

    /** `target` is None when the process or its image name cannot be found. */
    method PidIsProtected(target: Option<Name>) returns (prot: bool)
      ensures prot == TargetHit(cfg, target)
    {
      if target.None? { return false; }
      prot := BaseInTable(cfg.lower, IMAGE_SEPS, target.value, cfg.tables.images);
    }

    /** The rest of LgPreProcessHandle, from its look at the target on. */
    method StripProtected(op: HandleOp, desired: bv32, target: Option<Name>) returns (outcome: Outcome, access: bv32)
      requires Valid()
      modifies this`tamperCount
      ensures Valid() && outcome == OnClosed(cfg, ProcessHandle(true, false, op, desired, target))
      ensures Snapshot() == if outcome.Stripped? then RecordTamper(old(Snapshot())) else old(Snapshot())
      ensures access == if outcome.Stripped? then outcome.granted else desired
    {
      var prot := PidIsProtected(target);
      if !prot { return Pass, desired; }
      var denied;
      access, denied := StripRights(op, desired);
      if denied != 0 {
        RecordTamperEvent();
        return Stripped(access, denied), access;
      }
      return Pass, access;
    }

    /** Also returns the access mask as the callback leaves it. */
    method PreProcessHandle(onProcess: bool, kernelHandle: bool, op: HandleOp, desired: bv32, target: Option<Name>, env: Env)
      returns (outcome: Outcome, access: bv32)
      requires Valid()
      modifies this`permissive, this`permissiveExpires, this`tamperCount
      ensures Valid()
      ensures (Snapshot(), outcome) == Handle(cfg, old(Snapshot()), ProcessHandle(onProcess, kernelHandle, op, desired, target), env)
      ensures access == if outcome.Stripped? then outcome.granted else desired
    {
      if !onProcess { return Pass, desired; }
      if kernelHandle { return Pass, desired; }
      var active := IsPermissive(env.checkNow);
      if active { return Pass, desired; }
      outcome, access := StripProtected(op, desired, target);
    }

    /** The mask arithmetic of one strip: what is left and what was taken. */
    static method StripRights(op: HandleOp, desired: bv32) returns (access: bv32, denied: bv32)
      ensures denied == DeniedRights(op, desired)
      ensures access == if denied == 0 then desired else desired & !PROC_DENIED_MASK
    {
      NothingDenied(desired, PROC_DENIED_MASK);
      access, denied := desired, 0;
      match op {
        case CreateHandle | DuplicateHandle =>
          denied := access & PROC_DENIED_MASK;
          access := access & !PROC_DENIED_MASK;
        case OtherHandleOp =>
      }
    }
  }
}
