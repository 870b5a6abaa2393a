/**
 * The driver as a transition system. Each thread runs one request at a time; a program counter says
 * which atomic step comes next and holds the handler's local variables. A step is an unlocked read,
 * a clock sample, one section under a spin lock, one interlocked operation or one foreign call.
 */
module DriverMachine {
  import opened Common
  import opened Names
  import opened DriverState

  /**
   * What the driver takes from outside: HMAC-SHA256(key, message), two case foldings and the numbers the system
   * header gives the registry notifications; and the driver's tables.
   */
  datatype Config = Config(
    hmac: (Bytes, Bytes) -> Bytes,
    upcase: Folding,
    lower: Folding,
    regNumber: RegClass -> nat,
    tables: Tables)

  const LABEL: Bytes := Ascii("LOCKGUARD-VERIFIER-V1")
  const STATUS_REPLY_LEN: nat := 32
  const UNLOCK_REQUEST_LEN: nat := 64

  // -------- requests --------

  const FILE_DELETE_ON_CLOSE: bv32 := 0x0000_1000
  // DELETE | FILE_WRITE_DATA | FILE_APPEND_DATA | WRITE_DAC | WRITE_OWNER
  const WRITE_ACCESS: bv32 := 0x0001_0000 | 0x2 | 0x4 | 0x0004_0000 | 0x0008_0000
  // PROCESS_TERMINATE | VM_WRITE | SUSPEND_RESUME | VM_OPERATION | CREATE_THREAD
  const PROC_DENIED_MASK: bv32 := 0x0001 | 0x0020 | 0x0800 | 0x0008 | 0x0002

  datatype InfoClass = Disposition | DispositionEx | Rename | RenameEx | EndOfFile | Allocation | OtherInfo
  datatype RegClass = SetValueKey | DeleteValueKey | DeleteKey | RenameKey | CreateKeyEx | OtherRegOp
  datatype HandleOp = CreateHandle | DuplicateHandle | OtherHandleOp

  /** A name is None when there is no object, or the lookup fails. */
  datatype Request =
    | FileCreate(options: bv32, access: Option<bv32>, path: Option<Name>)
    | FileSetInfo(infoClass: InfoClass, path: Option<Name>)
    | FileWrite(path: Option<Name>)
    | RegistryOp(regClass: RegClass, key: Option<Name>)
    | ProcessStart(image: Option<Name>)
    | ProcessHandle(onProcess: bool, kernelHandle: bool, op: HandleOp, desired: bv32, target: Option<Name>)
    | FilterUnload
    | GetNonce(outLen: nat)
    | Unlock(inLen: nat, response: Bytes, derived: Bytes)
    | Heartbeat
    | Status(outLen: nat)

  datatype Refusal = NoNonce | StaleNonce | WrongKey | Mismatch
  datatype Failure = BufferTooSmall | RandomFailed | CryptoFailed
  datatype Reply = Reply(permissive: bool, expires: int, tamper: nat, heartbeat: int)

  datatype Outcome =
    | Pass                                  // let through unmodified
    | Denied                                // access denied, or unload refused
    | Stripped(granted: bv32, denied: bv32) // handle granted with fewer rights
    | Refused(why: Refusal)
    | Failed(error: Failure)
    | Unlocked
    | NonceIssued(nonce: Bytes)
    | Alive
    | Reported(reply: Reply)

  /** The outcomes that leave a tamper record. */
  predicate Recorded(o: Outcome) {
    o.Denied? || o.Stripped? || o.Refused?
  }

  // -------- program counters --------

  datatype Pc =
    | Idle
    // LgIsPermissive
    | ReadFlag(req: Request)
    | CheckClock(req: Request)
    | CheckLock(req: Request, now: int)
    // LgHandleGetNonce, LgRecoveryTryReload, LgRecoveryLoadVerifier
    | ReloadGate(req: Request)
    | ReloadClock(req: Request)
    | ReloadLast(req: Request, now: int)
    | ReloadCas(req: Request, now: int, last: int)
    | LoadOpen(req: Request)
    | LoadSalt(req: Request)
    | LoadIterations(req: Request)
    | LoadVerifier(req: Request)
    | LoadLatch(req: Request)
    | NonceRandom(req: Request)
    | NonceClock(req: Request, nonce: Bytes)
    | NonceLock(req: Request, nonce: Bytes, now: int)
    // LgHandleUnlock, LgRecoveryCheckKey, LgEnterPermissiveWindow
    | TakeLock(req: Request)
    | AgeClock(req: Request, nonce: Bytes, issuedAt: int)
    | KeyGate(req: Request, nonce: Bytes)
    | KeyCompare(req: Request, nonce: Bytes)
    | AnswerCompare(req: Request, nonce: Bytes)
    | EnterClock(req: Request)
    | EnterLock(req: Request, now: int)
    // LgHandleStatus, LgHandleHeartbeat
    | StatusExpires(req: Request, active: bool)
    | StatusTamper(req: Request, active: bool, expires: int)
    | StatusHeartbeat(req: Request, active: bool, expires: int, tamper: nat)
    | HeartbeatClock(req: Request)
    | HeartbeatStore(req: Request, now: int)
    // leaving
    | Record(req: Request, outcome: Outcome)
    | Done(req: Request, outcome: Outcome)

  /** What the environment supplies to a step. */
  datatype Input =
    | Tau
    | Clock(now: int)
    | Irql(passive: bool)
    | Opened(ok: bool)
    | ReadBytes(data: Option<Bytes>)
    | ReadDword(value: Option<nat>)
    | Random(nonce: Option<Bytes>)
    | Crypto(ok: bool)

  predicate WantsWrite(req: Request)
    requires req.FileCreate?
  {
    || req.options & FILE_DELETE_ON_CLOSE != 0
    || (req.access.Some? && req.access.value & WRITE_ACCESS != 0)
  }

  predicate PathHit(cfg: Config, path: Option<Name>) {
    path.Some? && ContainsAny(cfg.upcase, cfg.tables.paths, path.value)
  }

  predicate KeyHit(cfg: Config, key: Option<Name>) {
    key.Some? && StartsWithAny(cfg.upcase, cfg.tables.keys, key.value)
  }

  /** An empty image name has no base name. */
  predicate StartBlocked(cfg: Config, image: Option<Name>) {
    image.Some? && image.value != [] && BaseIn(cfg.lower, START_SEPS, image.value, cfg.tables.blocked)
  }

  predicate TargetHit(cfg: Config, target: Option<Name>) {
    target.Some? && BaseIn(cfg.lower, IMAGE_SEPS, target.value, cfg.tables.images)
  }

  /** The four key changes the registry callback is written to stop. */
  predicate ChangesKey(k: RegClass) {
    k.SetValueKey? || k.DeleteValueKey? || k.DeleteKey? || k.RenameKey?
  }

  /** A notification whose number is zero is let through before it is looked at. */
  predicate KeyChange(cfg: Config, k: RegClass) {
    cfg.regNumber(k) != 0 && ChangesKey(k)
  }

  /** Everything a call does before its first shared access. */
  function Entry(cfg: Config, req: Request): Pc {
    match req
    case FileCreate(_, _, path) => if WantsWrite(req) && PathHit(cfg, path) then ReadFlag(req) else Done(req, Pass)
    case FileSetInfo(k, path) => if !k.OtherInfo? && PathHit(cfg, path) then ReadFlag(req) else Done(req, Pass)
    case FileWrite(path) => if PathHit(cfg, path) then ReadFlag(req) else Done(req, Pass)
    case RegistryOp(k, key) =>
      if KeyChange(cfg, k) && KeyHit(cfg, key) then ReadFlag(req) else Done(req, Pass)
    case ProcessStart(image) => if image.Some? then ReadFlag(req) else Done(req, Pass)
    case ProcessHandle(onProcess, kernel, _, _, _) =>
      if onProcess && !kernel then ReadFlag(req) else Done(req, Pass)
    case FilterUnload => ReadFlag(req)
    case GetNonce(n) => if n < NONCE_LEN then Done(req, Failed(BufferTooSmall)) else ReloadGate(req)
    case Unlock(n, _, _) => if n < UNLOCK_REQUEST_LEN then Done(req, Failed(BufferTooSmall)) else TakeLock(req)
    case Heartbeat => HeartbeatClock(req)
    case Status(n) => if n < STATUS_REPLY_LEN then Done(req, Failed(BufferTooSmall)) else ReadFlag(req)
  }

  function Finish(req: Request, o: Outcome): Pc {
    if Recorded(o) then Record(req, o) else Done(req, o)
  }

  function DeniedRights(op: HandleOp, desired: bv32): bv32 {
    if op.OtherHandleOp? then 0 else desired & PROC_DENIED_MASK
  }

  /** What a caller of LgIsPermissive does with a FALSE answer. */
  function OnClosed(cfg: Config, req: Request): Outcome {
    match req
    case ProcessStart(image) =>
      if StartBlocked(cfg, image) then Denied else Pass
    case ProcessHandle(_, _, op, desired, target) =>
      var denied := DeniedRights(op, desired);
      if TargetHit(cfg, target) && denied != 0 then Stripped(desired & !PROC_DENIED_MASK, denied) else Pass
    case _ => Denied
  }

  function AfterCheck(cfg: Config, req: Request, active: bool): Pc {
    if req.Status? then StatusExpires(req, active)
    else Finish(req, if active then Pass else OnClosed(cfg, req))
  }

  // -------- steps --------

  datatype Result = Stuck | To(sh: Shared, pc: Pc)

  predicate RetryDue(now: int, last: int) {
    last == 0 || now - last >= RETRY_INTERVAL
  }

  predicate KeyMatches(cfg: Config, s: Shared, derived: Bytes) {
    cfg.hmac(derived, LABEL) == s.verifier
  }

  /** One step of a permissive check. */
  function StepCheck(cfg: Config, s: Shared, pc: Pc, inp: Input): Result {
    match pc
    case ReadFlag(req) =>
      if !inp.Tau? then Stuck
      else To(s, if s.permissive then CheckClock(req) else AfterCheck(cfg, req, false))
    case CheckClock(req) =>
      if !inp.Clock? then Stuck else To(s, CheckLock(req, inp.now))
    case CheckLock(req, now) =>
      if !inp.Tau? then Stuck else To(CheckSection(s, now), AfterCheck(cfg, req, ActiveAt(s, now)))
    case _ => Stuck
  }

  /** One step of the lazy verifier reload, which goes on to issue a nonce whatever it finds. */
  function StepReload(s: Shared, pc: Pc, inp: Input): Result {
    match pc
    case ReloadGate(req) =>
      if !inp.Irql? then Stuck
      else To(s, if s.verifierLoaded || !inp.passive then NonceRandom(req) else ReloadClock(req))
    case ReloadClock(req) =>
      if !inp.Clock? then Stuck else To(s, ReloadLast(req, inp.now))
    case ReloadLast(req, now) =>
      if !inp.Tau? then Stuck
      else To(s, if RetryDue(now, s.lastRetry) then ReloadCas(req, now, s.lastRetry) else NonceRandom(req))
    case ReloadCas(req, now, last) =>
      if !inp.Tau? then Stuck
      else To(CasRetry(s, now, last), if s.lastRetry == last then LoadOpen(req) else NonceRandom(req))
    case _ => Stuck
  }

  /** One step of LgRecoveryLoadVerifier; a failed registry read ends the load. */
  function StepLoad(s: Shared, pc: Pc, inp: Input): Result
    requires WellFormed(s)
  {
    match pc
    case LoadOpen(req) =>
      if !inp.Opened? then Stuck else To(s, if inp.ok then LoadSalt(req) else NonceRandom(req))
    case LoadSalt(req) =>
      if !inp.ReadBytes? then Stuck
      else
        var r := StoreSalt(s, inp.data);
        if r.None? then To(s, NonceRandom(req)) else To(r.value, LoadIterations(req))
    case LoadIterations(req) =>
      if !inp.ReadDword? then Stuck
      else if inp.value.None? then To(s, NonceRandom(req))
      else To(s.(iterations := inp.value.value), LoadVerifier(req))
    case LoadVerifier(req) =>
      if !inp.ReadBytes? then Stuck
      else
        var r := StoreVerifier(s, inp.data);
        if r.None? then To(s, NonceRandom(req))
        else To(r.value, if |inp.data.value| == VERIFIER_LEN then LoadLatch(req) else NonceRandom(req))
    case LoadLatch(req) =>
      if !inp.Tau? then Stuck else To(s.(verifierLoaded := true), NonceRandom(req))
    case _ => Stuck
  }

  function StepNonce(s: Shared, pc: Pc, inp: Input): Result {
    match pc
    case NonceRandom(req) =>
      if !inp.Random? then Stuck
      else if inp.nonce.None? then To(s, Done(req, Failed(RandomFailed)))
      else if |inp.nonce.value| == NONCE_LEN then To(s, NonceClock(req, inp.nonce.value))
      else Stuck
    case NonceClock(req, nonce) =>
      if !inp.Clock? then Stuck else To(s, NonceLock(req, nonce, inp.now))
    case NonceLock(req, nonce, now) =>
      if !inp.Tau? then Stuck else To(InstallNonce(s, nonce, now), Done(req, NonceIssued(nonce)))
    case _ => Stuck
  }

  function StepUnlock(cfg: Config, s: Shared, pc: Pc, inp: Input): Result {
    match pc
    case TakeLock(req) =>
      if !inp.Tau? then Stuck
      else To(TakeNonce(s), if s.nonceValid then AgeClock(req, s.pendingNonce, s.nonceIssuedAt) else Record(req, Refused(NoNonce)))
    case AgeClock(req, nonce, issuedAt) =>
      if !inp.Clock? then Stuck
      else To(s, if inp.now - issuedAt > NONCE_TTL then Record(req, Refused(StaleNonce)) else KeyGate(req, nonce))
    case KeyGate(req, nonce) =>
      if !inp.Tau? then Stuck
      else To(s, if s.verifierLoaded then KeyCompare(req, nonce) else Record(req, Refused(WrongKey)))
    case KeyCompare(req, nonce) =>
      if !inp.Crypto? || !req.Unlock? then Stuck
      else To(s, if inp.ok && KeyMatches(cfg, s, req.derived) then AnswerCompare(req, nonce) else Record(req, Refused(WrongKey)))
    case AnswerCompare(req, nonce) =>
      if !inp.Crypto? || !req.Unlock? then Stuck
      else To(s, if !inp.ok then Done(req, Failed(CryptoFailed))
                 else if req.response == cfg.hmac(req.derived, nonce) then EnterClock(req)
                 else Record(req, Refused(Mismatch)))
    case EnterClock(req) =>
      if !inp.Clock? then Stuck else To(s, EnterLock(req, inp.now))
    case EnterLock(req, now) =>
      if !inp.Tau? then Stuck else To(EnterSection(s, now), Done(req, Unlocked))
    case _ => Stuck
  }

  /** Status reads and the heartbeat. */
  function StepReport(s: Shared, pc: Pc, inp: Input): Result {
    match pc
    case StatusExpires(req, active) =>
      if !inp.Tau? then Stuck else To(s, StatusTamper(req, active, s.expires))
    case StatusTamper(req, active, expires) =>
      if !inp.Tau? then Stuck else To(s, StatusHeartbeat(req, active, expires, s.tamper))
    case StatusHeartbeat(req, active, expires, tamper) =>
      if !inp.Tau? then Stuck else To(s, Done(req, Reported(Reply(active, expires, tamper, s.heartbeat))))
    case HeartbeatClock(req) =>
      if !inp.Clock? then Stuck else To(s, HeartbeatStore(req, inp.now))
    case HeartbeatStore(req, now) =>
      if !inp.Tau? then Stuck else To(s.(heartbeat := now), Done(req, Alive))
    case _ => Stuck
  }

  /** The tamper record and the return. */
  function StepLeave(s: Shared, pc: Pc, inp: Input): Result {
    match pc
    case Record(req, o) =>
      if !inp.Tau? then Stuck else To(RecordTamper(s), Done(req, o))
    case Done(_, _) =>
      if !inp.Tau? then Stuck else To(s, Idle)
    case _ => Stuck
  }

  function Next(cfg: Config, s: Shared, pc: Pc, inp: Input): Result
    requires WellFormed(s)
  {
    match pc
    case ReadFlag(_) | CheckClock(_) | CheckLock(_, _) => StepCheck(cfg, s, pc, inp)
    case ReloadGate(_) | ReloadClock(_) | ReloadLast(_, _) | ReloadCas(_, _, _) => StepReload(s, pc, inp)
    case LoadOpen(_) | LoadSalt(_) | LoadIterations(_) | LoadVerifier(_) | LoadLatch(_) => StepLoad(s, pc, inp)
    case NonceRandom(_) | NonceClock(_, _) | NonceLock(_, _, _) => StepNonce(s, pc, inp)
    case TakeLock(_) | AgeClock(_, _, _) | KeyGate(_, _) | KeyCompare(_, _) | AnswerCompare(_, _) | EnterClock(_) | EnterLock(_, _) =>
      StepUnlock(cfg, s, pc, inp)
    case StatusExpires(_, _) | StatusTamper(_, _, _) | StatusHeartbeat(_, _, _, _) | HeartbeatClock(_) | HeartbeatStore(_, _) =>
      StepReport(s, pc, inp)
    case Record(_, _) | Done(_, _) => StepLeave(s, pc, inp)
    case Idle => Stuck
  }

  predicate LoadPc(pc: Pc) {
    pc.LoadOpen? || pc.LoadSalt? || pc.LoadIterations? || pc.LoadVerifier? || pc.LoadLatch?
  }

  lemma LoadWellFormed(s: Shared, pc: Pc, inp: Input)
    requires WellFormed(s)
    ensures var r := StepLoad(s, pc, inp); r.To? ==> WellFormed(r.sh)
  {
  }

  lemma OthersWellFormed(cfg: Config, s: Shared, pc: Pc, inp: Input)
    requires WellFormed(s) && !LoadPc(pc)
    ensures var r := Next(cfg, s, pc, inp); r.To? ==> r.sh.salt == s.salt && r.sh.verifier == s.verifier && r.sh.tamper < WORD
  {
  }

  lemma NextWellFormed(cfg: Config, s: Shared, pc: Pc, inp: Input)
    requires WellFormed(s)
    ensures var r := Next(cfg, s, pc, inp); r.To? ==> WellFormed(r.sh)
  {
    if LoadPc(pc) { LoadWellFormed(s, pc, inp); } else { OthersWellFormed(cfg, s, pc, inp); }
  }

  // -------- runs --------

  datatype Event =
    | Call(tid: nat, req: Request)
    | Move(tid: nat, inp: Input)

  datatype State = State(sh: Shared, threads: map<nat, Pc>)

  function PcOf(s: State, t: nat): Pc {
    if t in s.threads then s.threads[t] else Idle
  }

  predicate Enabled(cfg: Config, s: State, e: Event) {
    && WellFormed(s.sh)
    && match e
       case Call(t, _) => PcOf(s, t).Idle?
       case Move(t, inp) => Next(cfg, s.sh, PcOf(s, t), inp).To?
  }

  function Apply(cfg: Config, s: State, e: Event): State
    requires Enabled(cfg, s, e)
  {
    match e
    case Call(t, req) => s.(threads := s.threads[t := Entry(cfg, req)])
    case Move(t, inp) =>
      var r := Next(cfg, s.sh, PcOf(s, t), inp);
      State(r.sh, s.threads[t := r.pc])
  }

  /** The registry as the load in DriverEntry found it; no handler runs before that load ends. */
  datatype Boot = Boot(open: bool, salt: Option<Bytes>, iterations: Option<nat>, verifier: Option<Bytes>)

  function Booted(b: Boot): (s: Shared)
    ensures WellFormed(s)
    ensures s.(salt := ZEROED.salt, saltLen := 0, iterations := 0, verifier := ZEROED.verifier, verifierLoaded := false) == ZEROED
  {
    LoadFrom(ZEROED, b.open, b.salt, b.iterations, b.verifier)
  }

  /** A run: `states[i]` is the state before event `i`, and one state follows the last event. */
  datatype Run = Run(cfg: Config, boot: Boot, events: seq<Event>, states: seq<State>)

  ghost predicate StepAt(r: Run, i: nat)
    requires i < |r.events| < |r.states|
  {
    && Enabled(r.cfg, r.states[i], r.events[i])
    && r.states[i + 1] == Apply(r.cfg, r.states[i], r.events[i])
  }

  ghost predicate Valid(r: Run) {
    && |r.states| == |r.events| + 1
    && r.states[0] == State(Booted(r.boot), map[])
    && forall i :: 0 <= i < |r.events| ==> StepAt(r, i)
  }

  function Sh(r: Run, i: nat): Shared
    requires i < |r.states|
  {
    r.states[i].sh
  }

  function Pcs(r: Run, i: nat, t: nat): Pc
    requires i < |r.states|
  {
    PcOf(r.states[i], t)
  }

  /** The program counter event `i` starts from, when it is a move. */
  function From(r: Run, i: nat): Pc
    requires i < |r.events| < |r.states|
  {
    if r.events[i].Move? then Pcs(r, i, r.events[i].tid) else Idle
  }

  // Facts about single events that the theorems share.

  lemma InitialState(r: Run)
    requires Valid(r)
    ensures WellFormed(Sh(r, 0))
    ensures var s := Sh(r, 0);
      !s.permissive && s.expires == 0 && !s.nonceValid && s.pendingNonce == Zeros(NONCE_LEN) && s.tamper == 0 && s.lastRetry == 0
    ensures forall t :: Pcs(r, 0, t) == Idle
  {
    var s := Booted(r.boot);
    assert s.(salt := ZEROED.salt, saltLen := 0, iterations := 0, verifier := ZEROED.verifier, verifierLoaded := false) == ZEROED;
  }

  /** An event is one step of its own thread, and leaves every other program counter alone. */
  lemma EventSteps(r: Run, i: nat)
    requires Valid(r) && i < |r.events|
    ensures WellFormed(Sh(r, i))
    ensures forall t :: t != r.events[i].tid ==> Pcs(r, i + 1, t) == Pcs(r, i, t)
    ensures r.events[i].Move? ==>
      Next(r.cfg, Sh(r, i), From(r, i), r.events[i].inp) == To(Sh(r, i + 1), Pcs(r, i + 1, r.events[i].tid))
    ensures r.events[i].Call? ==>
      && Pcs(r, i, r.events[i].tid).Idle?
      && Pcs(r, i + 1, r.events[i].tid) == Entry(r.cfg, r.events[i].req)
      && Sh(r, i + 1) == Sh(r, i)
  {
    assert StepAt(r, i);
  }

  /** The last event of thread `t` before position `i`, or -1. */
  function Last(r: Run, i: nat, t: nat): (p: int)
    requires i <= |r.events|
    ensures -1 <= p < i
    ensures p >= 0 ==> r.events[p].tid == t
    ensures forall q :: p < q < i ==> r.events[q].tid != t
  {
    if i == 0 then -1
    else if r.events[i - 1].tid == t then i - 1
    else Last(r, i - 1, t)
  }

  lemma OthersStay(r: Run, i: nat, t: nat)
    requires Valid(r) && i < |r.events| && r.events[i].tid != t
    ensures Pcs(r, i + 1, t) == Pcs(r, i, t)
  {
    assert StepAt(r, i);
  }

  lemma {:induction false} LastKeepsPc(r: Run, i: nat, t: nat)
    requires Valid(r) && i <= |r.events|
    ensures var p := Last(r, i, t); Pcs(r, i, t) == if p < 0 then Idle else Pcs(r, p + 1, t)
  {
    if i == 0 {
      InitialState(r);
    } else if r.events[i - 1].tid != t {
      OthersStay(r, i - 1, t);
      LastKeepsPc(r, i - 1, t);
    }
  }

  lemma {:induction false} StaysWellFormed(r: Run, i: nat)
    requires Valid(r) && i <= |r.events|
    ensures WellFormed(Sh(r, i))
  {
    if i == 0 {
      InitialState(r);
    } else {
      EventSteps(r, i - 1);
      if r.events[i - 1].Move? { NextWellFormed(r.cfg, Sh(r, i - 1), From(r, i - 1), r.events[i - 1].inp); }
    }
  }

  // -------- growing a run --------

  function End(r: Run): State
    requires r.states != []
  {
    r.states[|r.states| - 1]
  }

  function Snoc(r: Run, e: Event): Run
    requires r.states != [] && Enabled(r.cfg, End(r), e)
  {
    r.(events := r.events + [e], states := r.states + [Apply(r.cfg, End(r), e)])
  }

  /** `r2` is `r1` gone on. */
  ghost predicate Continues(r1: Run, r2: Run) {
    r1.cfg == r2.cfg && r1.boot == r2.boot && r1.events <= r2.events && r1.states <= r2.states
  }

  lemma SnocValid(r: Run, e: Event)
    requires Valid(r) && Enabled(r.cfg, End(r), e)
    ensures Valid(Snoc(r, e)) && Continues(r, Snoc(r, e))
  {
    var r' := Snoc(r, e);
    forall i | 0 <= i < |r'.events| ensures StepAt(r', i) {
      if i < |r.events| { assert StepAt(r, i); }
    }
  }

  lemma SameFrom(r1: Run, r2: Run, i: nat)
    requires Valid(r1) && Valid(r2) && Continues(r1, r2) && i < |r1.events|
    ensures From(r2, i) == From(r1, i)
  {
    assert r2.events[i] == r1.events[i] && r2.states[i] == r1.states[i];
  }

  /** A run gone on by one request entering an idle thread. */
  lemma Enter(r: Run, t: nat, req: Request) returns (r': Run)
    requires Valid(r) && PcOf(End(r), t).Idle?
    ensures Valid(r') && Continues(r, r') && r'.events == r.events + [Call(t, req)]
    ensures End(r') == State(End(r).sh, End(r).threads[t := Entry(r.cfg, req)])
  {
    StaysWellFormed(r, |r.events|);
    SnocValid(r, Call(t, req));
    r' := Snoc(r, Call(t, req));
  }

  /** A run gone on by one step of thread `t`. */
  lemma Advance(r: Run, t: nat, inp: Input, sh: Shared, pc: Pc) returns (r': Run)
    requires Valid(r) && WellFormed(End(r).sh) && Next(r.cfg, End(r).sh, PcOf(End(r), t), inp) == To(sh, pc)
    ensures Valid(r') && Continues(r, r') && r'.events == r.events + [Move(t, inp)]
    ensures End(r') == State(sh, End(r).threads[t := pc]) && WellFormed(sh)
  {
    NextWellFormed(r.cfg, End(r).sh, PcOf(End(r), t), inp);
    SnocValid(r, Move(t, inp));
    r' := Snoc(r, Move(t, inp));
  }
}
