/** Safety of the callbacks over every interleaving: nothing guarded goes through without an unlock. */
module Safety {
  import opened Calls
  import opened Common
  import opened Names
  import opened DriverState
  import opened DriverHandlers
  import opened DriverMachine
  import opened Window
  import opened Unlocking

  /** The callbacks' requests. */
  predicate IsGated(req: Request) {
    || req.FileCreate? || req.FileSetInfo? || req.FileWrite? || req.RegistryOp?
    || req.ProcessStart? || req.ProcessHandle? || req.FilterUnload?
  }

  /**
   * The requests the driver promises to stop outside the window: modifying, resolved and matching. The bits are those
   * of DriverMachine's masks, the separators backslash and slash.
   */
  predicate Guarded(cfg: Config, req: Request) {
    match req
    case FileCreate(options, access, path) =>
      && (options & 0x1000 != 0 || (access.Some? && access.value & 0x000D_0006 != 0))
      && path.Some? && ContainsAny(cfg.upcase, cfg.tables.paths, path.value)
    case FileSetInfo(k, path) =>
      && (k.Disposition? || k.DispositionEx? || k.Rename? || k.RenameEx? || k.EndOfFile? || k.Allocation?)
      && path.Some? && ContainsAny(cfg.upcase, cfg.tables.paths, path.value)
    case FileWrite(path) =>
      path.Some? && ContainsAny(cfg.upcase, cfg.tables.paths, path.value)
    case RegistryOp(k, key) =>
      && cfg.regNumber(k) != 0 && (k.SetValueKey? || k.DeleteValueKey? || k.DeleteKey? || k.RenameKey?)
      && key.Some? && StartsWithAny(cfg.upcase, cfg.tables.keys, key.value)
    case ProcessStart(image) =>
      image.Some? && |image.value| > 0 && BaseIn(cfg.lower, {92, 47}, image.value, cfg.tables.blocked)
    case ProcessHandle(onProcess, kernel, op, desired, target) =>
      && onProcess && !kernel && (op.CreateHandle? || op.DuplicateHandle?) && desired & 0x082B != 0
      && target.Some? && BaseIn(cfg.lower, {92}, target.value, cfg.tables.images)
    case FilterUnload => true
    case _ => false
  }

  lemma ClosedMeansStopped(cfg: Config, req: Request)
    requires IsGated(req)
    ensures Guarded(cfg, req) ==> Recorded(OnClosed(cfg, req)) && !OnClosed(cfg, req).Refused?
    ensures !Guarded(cfg, req) && Entry(cfg, req).ReadFlag? ==> OnClosed(cfg, req) == Pass
    ensures Guarded(cfg, req) ==> Entry(cfg, req) == ReadFlag(req)
  {
    WriteBits();
    if req.ProcessHandle? {
      ClosedHandle(cfg, req.onProcess, req.kernelHandle, req.op, req.desired, req.target);
    }
  }

  /**
   * A change of a protected key is stopped by a closed window exactly when its notification number is not zero:
   * the callback reads a zero number as a missing argument.
   */
  lemma KeyChangeStoppedExactlyWhen(cfg: Config, k: RegClass, key: Option<Name>, s: Shared, env: Env)
    requires WellFormed(s) && !s.permissive && key.Some? && StartsWithAny(cfg.upcase, cfg.tables.keys, key.value)
    requires k.SetValueKey? || k.DeleteValueKey? || k.DeleteKey? || k.RenameKey?
    ensures Handle(cfg, s, RegistryOp(k, key), env).1 == (if cfg.regNumber(k) != 0 then Denied else Pass)
    ensures Handle(cfg, s, RegistryOp(k, key), env).1.Denied? <==> Guarded(cfg, RegistryOp(k, key))
  {
    RegistryCall(cfg, s, k, key, env);
  }

  /** The numbers wdm.h gives the notifications; any other number stands for the rest. */
  function HeaderNumber(k: RegClass): nat {
    match k
    case DeleteKey => 0
    case SetValueKey => 1
    case DeleteValueKey => 2
    case RenameKey => 4
    case CreateKeyEx => 26
    case OtherRegOp => 3
  }

  /** The driver as it is built, with its own tables. */
  function Built(hmac: (Bytes, Bytes) -> Bytes, upcase: Folding, lower: Folding): Config {
    Config(hmac, upcase, lower, HeaderNumber, DRIVER_TABLES)
  }

  /** So as built, a closed window denies setting and deleting a value of a protected key and renaming it; its deletion passes. */
  lemma KeyDeletionPasses(hmac: (Bytes, Bytes) -> Bytes, upcase: Folding, lower: Folding,
                          k: RegClass, key: Option<Name>, s: Shared, env: Env)
    requires WellFormed(s) && !s.permissive && key.Some? && StartsWithAny(upcase, DRIVER_TABLES.keys, key.value)
    ensures Handle(Built(hmac, upcase, lower), s, RegistryOp(k, key), env).1 ==
      if k.SetValueKey? || k.DeleteValueKey? || k.RenameKey? then Denied else Pass
  {
    RegistryCall(Built(hmac, upcase, lower), s, k, key, env);
  }

  /** How a gated request can come to its outcome. */
  lemma IntoGatedOutcome(cfg: Config, s: Shared, pc: Pc, inp: Input)
    requires WellFormed(s) && Next(cfg, s, pc, inp).To?
    requires !pc.Record? || Recorded(pc.outcome)
    ensures var pc' := Next(cfg, s, pc, inp).pc;
      (pc'.Done? && IsGated(pc'.req) && pc'.outcome == Pass && Guarded(cfg, pc'.req)) ==>
        || (pc.CheckLock? && pc.req == pc'.req && ActiveAt(s, pc.now))
        || !GatePc(pc)
  {
    if pc.ReadFlag? || pc.CheckLock? {
      if IsGated(pc.req) { ClosedMeansStopped(cfg, pc.req); }
    }
  }

  /** The program counters a gated request can be at, and what its outcome can be there. */
  predicate GatePc(pc: Pc) {
    || pc.ReadFlag? || pc.CheckClock? || pc.CheckLock? || pc.Record? || pc.Done? || pc.Idle?
  }

  predicate GateInv(cfg: Config, pc: Pc) {
    && (!pc.Idle? && IsGated(pc.req) ==>
      && GatePc(pc)
      && (pc.Record? || pc.Done? ==> pc.outcome == Pass || pc.outcome == OnClosed(cfg, pc.req))
      && (!pc.Done? ==> Entry(cfg, pc.req).ReadFlag?)
      && (pc.Done? && pc.outcome != Pass ==> Guarded(cfg, pc.req))
      && (pc.Record? ==> Guarded(cfg, pc.req)))
    && (pc.Record? ==> Recorded(pc.outcome))
  }

  lemma NextGateInv(cfg: Config, s: Shared, pc: Pc, inp: Input)
    requires WellFormed(s) && Next(cfg, s, pc, inp).To? && GateInv(cfg, pc)
    ensures GateInv(cfg, Next(cfg, s, pc, inp).pc)
  {
    if pc.ReadFlag? || pc.CheckLock? {
      if IsGated(pc.req) { ClosedMeansStopped(cfg, pc.req); }
    }
  }

  lemma EntryGateInv(cfg: Config, req: Request)
    ensures GateInv(cfg, Entry(cfg, req))
  {
    if IsGated(req) { ClosedMeansStopped(cfg, req); }
  }

  lemma {:induction false} GateInvHolds(r: Run, i: nat, t: nat)
    requires Valid(r) && i <= |r.events|
    ensures GateInv(r.cfg, Pcs(r, i, t))
  {
    if i == 0 {
      InitialState(r);
    } else {
      GateInvHolds(r, i - 1, t);
      EventSteps(r, i - 1);
      var e := r.events[i - 1];
      if e.tid == t {
        if e.Move? { NextGateInv(r.cfg, Sh(r, i - 1), From(r, i - 1), e.inp); }
        else { EntryGateInv(r.cfg, e.req); }
      }
    }
  }

  /** A gated request passes, is denied or is stripped; it is stopped only when it is guarded. */
  lemma GatedOutcomes(r: Run, i: nat, t: nat)
    requires Valid(r) && i <= |r.events| && Pcs(r, i, t).Done? && IsGated(Pcs(r, i, t).req)
    ensures var pc := Pcs(r, i, t);
      || pc.outcome == Pass
      || (Guarded(r.cfg, pc.req) && pc.outcome == OnClosed(r.cfg, pc.req) && (pc.outcome.Denied? || pc.outcome.Stripped?))
  {
    GateInvHolds(r, i, t);
    ClosedMeansStopped(r.cfg, Pcs(r, i, t).req);
  }

  /** Thread `t` let its guarded request pass because of a check at `c`, its last event but for the return. */
  lemma PassedByCheck(r: Run, i: nat, t: nat) returns (c: nat)
    requires Valid(r) && i <= |r.events|
    requires Pcs(r, i, t).Done? && Pcs(r, i, t).outcome == Pass && Guarded(r.cfg, Pcs(r, i, t).req)
    ensures c < i && r.events[c].tid == t && AnswersTrue(r, c) && From(r, c).req == Pcs(r, i, t).req
    ensures forall k :: c < k < i ==> r.events[k].tid != t
  {
    LastKeepsPc(r, i, t);
    c := Last(r, i, t);
    EventSteps(r, c);
    GateInvHolds(r, c, t);
    if r.events[c].Call? {
      ClosedMeansStopped(r.cfg, r.events[c].req);
      assert false;
    }
    IntoGatedOutcome(r.cfg, Sh(r, c), From(r, c), r.events[c].inp);
    OnlyGatesGate(r.cfg, Sh(r, c), From(r, c), r.events[c].inp);
  }

  lemma OnlyGatesGate(cfg: Config, s: Shared, pc: Pc, inp: Input)
    requires WellFormed(s) && Next(cfg, s, pc, inp).To? && !pc.Idle?
    ensures var pc' := Next(cfg, s, pc, inp).pc; !pc'.Idle? ==> pc'.req == pc.req
  {
    if LoadPc(pc) {
      LoadKeepsRequest(s, pc, inp);
    } else if pc.TakeLock? || MidUnlock(pc) {
      UnlockKeepsRequest(cfg, s, pc, inp);
    } else {
      OthersKeepRequest(cfg, s, pc, inp);
    }
  }

  lemma LoadKeepsRequest(s: Shared, pc: Pc, inp: Input)
    requires WellFormed(s) && LoadPc(pc) && StepLoad(s, pc, inp).To?
    ensures var pc' := StepLoad(s, pc, inp).pc; !pc'.Idle? && pc'.req == pc.req
  {
  }

  lemma UnlockKeepsRequest(cfg: Config, s: Shared, pc: Pc, inp: Input)
    requires (pc.TakeLock? || MidUnlock(pc)) && StepUnlock(cfg, s, pc, inp).To?
    ensures var pc' := StepUnlock(cfg, s, pc, inp).pc; !pc'.Idle? && pc'.req == pc.req
  {
  }

  lemma OthersKeepRequest(cfg: Config, s: Shared, pc: Pc, inp: Input)
    requires WellFormed(s) && Next(cfg, s, pc, inp).To? && !pc.Idle? && !LoadPc(pc) && !pc.TakeLock? && !MidUnlock(pc)
    ensures var pc' := Next(cfg, s, pc, inp).pc; !pc'.Idle? ==> pc'.req == pc.req
  {
  }

  /**
   * The main safety theorem. When a guarded request is let through unmodified, its own check at `c`
   * answered TRUE; the latest entry `e` before that check belongs to an unlock request that passed every
   * check (trail `w`), with a key whose HMAC is the stored verifier and a response to the nonce installed
   * at `p`, aged at most 60 s; and nothing closed the window between `e` and `c`.
   */
  lemma NothingGuardedWithoutUnlock(r: Run, i: nat, t: nat) returns (p: nat, w: Trail, e: nat, c: nat)
    requires Valid(r) && i <= |r.events|
    requires Pcs(r, i, t).Done? && Pcs(r, i, t).outcome == Pass && Guarded(r.cfg, Pcs(r, i, t).req)
    ensures p < w.take < e < c < i
    ensures r.events[c].tid == t && AnswersTrue(r, c) && From(r, c).req == Pcs(r, i, t).req
    ensures IsEnter(r, e) && NoEnter(r, e, c) && NoClose(r, e, c)
    ensures IsTrail(r, e, w)
    ensures IsInstall(r, p) && NoInstall(r, p, w.take) && NoTake(r, p, w.take)
    ensures var req := From(r, e).req;
      && r.cfg.hmac(req.derived, LABEL) == Sh(r, w.key).verifier
      && req.response == r.cfg.hmac(req.derived, From(r, p).nonce)
      && r.events[w.age].inp.now - From(r, p).now <= NONCE_TTL
  {
    c := PassedByCheck(r, i, t);
    OpenSinceLastEnter(r, c);
    e := LastEnter(r, c);
    w := EveryEntryHasTrail(r, e);
    PendingNonce(r, w.take);
    p := LastInstall(r, w.take);
  }
}
