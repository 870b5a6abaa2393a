/**
 * Each call of the driver as one function from the state and its inputs to the new state and the outcome,
 * proved to be what the machine's steps come to when no other thread runs in between.
 */
module DriverHandlers {
  import opened Common
  import opened DriverState
  import opened DriverMachine

  /** What the environment gives one uninterrupted call: at most one value for each kind of foreign step. */
  datatype Env = Env(
    checkNow: int,
    passive: bool, retryNow: int,
    keyOpen: bool, salt: Option<Bytes>, iterations: Option<nat>, verifier: Option<Bytes>,
    random: Option<Bytes>, nonceNow: int,
    ageNow: int, keyCrypto: bool, answerCrypto: bool, enterNow: int,
    beatNow: int)

  function Supply(env: Env, pc: Pc): Input {
    match pc
    case CheckClock(_) => Clock(env.checkNow)
    case ReloadGate(_) => Irql(env.passive)
    case ReloadClock(_) => Clock(env.retryNow)
    case LoadOpen(_) => Opened(env.keyOpen)
    case LoadSalt(_) => ReadBytes(env.salt)
    case LoadIterations(_) => ReadDword(env.iterations)
    case LoadVerifier(_) => ReadBytes(env.verifier)
    case NonceRandom(_) => Random(env.random)
    case NonceClock(_, _) => Clock(env.nonceNow)
    case AgeClock(_, _, _) => Clock(env.ageNow)
    case KeyCompare(_, _) => Crypto(env.keyCrypto)
    case AnswerCompare(_, _) => Crypto(env.answerCrypto)
    case EnterClock(_) => Clock(env.enterNow)
    case HeartbeatClock(_) => Clock(env.beatNow)
    case _ => Tau
  }

  datatype Point = Point(sh: Shared, pc: Pc)

  /** One step of the machine on the input `env` supplies. */
  ghost predicate Link(cfg: Config, env: Env, a: Point, b: Point) {
    WellFormed(a.sh) && Next(cfg, a.sh, a.pc, Supply(env, a.pc)) == To(b.sh, b.pc)
  }

  ghost predicate LinkAt(cfg: Config, env: Env, p: seq<Point>, i: nat)
    requires i + 1 < |p|
  {
    Link(cfg, env, p[i], p[i + 1])
  }

  ghost predicate Joins(cfg: Config, env: Env, p: seq<Point>, a: Point, b: Point) {
    && p != [] && p[0] == a && p[|p| - 1] == b
    && forall i :: 0 <= i < |p| - 1 ==> LinkAt(cfg, env, p, i)
  }

  /** The machine takes one thread, alone and on the inputs of `env`, from `a` to `b`. */
  ghost predicate Reaches(cfg: Config, env: Env, a: Point, b: Point) {
    exists p :: Joins(cfg, env, p, a, b)
  }

  lemma Here(cfg: Config, env: Env, a: Point)
    ensures Reaches(cfg, env, a, a)
  {
    assert Joins(cfg, env, [a], a, a);
  }

  lemma Then(cfg: Config, env: Env, a: Point, b: Point, c: Point)
    requires Reaches(cfg, env, a, b) && Reaches(cfg, env, b, c)
    ensures Reaches(cfg, env, a, c)
  {
    var p :| Joins(cfg, env, p, a, b);
    var q :| Joins(cfg, env, q, b, c);
    var pq := p + q[1..];
    forall i | 0 <= i < |pq| - 1 ensures LinkAt(cfg, env, pq, i) {
      if i < |p| - 1 { assert LinkAt(cfg, env, p, i); } else { assert LinkAt(cfg, env, q, i - |p| + 1); }
    }
    assert Joins(cfg, env, pq, a, c);
  }

  lemma Step(cfg: Config, env: Env, a: Point, b: Point, c: Point)
    requires Reaches(cfg, env, a, b) && Link(cfg, env, b, c)
    ensures Reaches(cfg, env, a, c)
  {
    var bc := [b, c];
    assert forall i :: 0 <= i < |bc| - 1 ==> LinkAt(cfg, env, bc, i);
    assert Joins(cfg, env, bc, b, c);
    Then(cfg, env, a, b, c);
  }

  // -------- the calls --------

  /** LgIsPermissive and what its caller does next. */
  function GateCall(cfg: Config, s: Shared, req: Request, env: Env): (Shared, Outcome) {
    var s1 := CheckSection(s, env.checkNow);
    var o := if ActiveAt(s, env.checkNow) then Pass else OnClosed(cfg, req);
    (if Recorded(o) then RecordTamper(s1) else s1, o)
  }

  /** LgRecoveryLoadVerifier. */
  function Load(s: Shared, env: Env): Shared
    requires WellFormed(s)
  {
    LoadFrom(s, env.keyOpen, env.salt, env.iterations, env.verifier)
  }

  /** LgRecoveryTryReload. */
  function TryReload(s: Shared, env: Env): Shared
    requires WellFormed(s)
  {
    if s.verifierLoaded || !env.passive || !RetryDue(env.retryNow, s.lastRetry) then s
    else Load(s.(lastRetry := env.retryNow), env)
  }

  function GetNonceCall(s: Shared, env: Env): (Shared, Outcome)
    requires WellFormed(s)
  {
    var s1 := TryReload(s, env);
    match env.random
    case None => (s1, Failed(RandomFailed))
    case Some(nonce) => (InstallNonce(s1, nonce, env.nonceNow), NonceIssued(nonce))
  }

  /** The outcome of an unlock that took `nonce`, from its key check on. */
  function Judge(cfg: Config, s: Shared, req: Request, nonce: Bytes, env: Env): Outcome
    requires req.Unlock?
  {
    if !s.verifierLoaded || !env.keyCrypto || !KeyMatches(cfg, s, req.derived) then Refused(WrongKey)
    else if !env.answerCrypto then Failed(CryptoFailed)
    else if req.response != cfg.hmac(req.derived, nonce) then Refused(Mismatch)
    else Unlocked
  }

  /** The state an unlock outcome leaves: a tamper record, an open window, or nothing. */
  function Settle(s: Shared, o: Outcome, env: Env): Shared {
    if o.Unlocked? then EnterSection(s, env.enterNow)
    else if Recorded(o) then RecordTamper(s)
    else s
  }

  function UnlockCall(cfg: Config, s: Shared, req: Request, env: Env): (Shared, Outcome)
    requires req.Unlock?
  {
    var o := if !s.nonceValid then Refused(NoNonce)
             else if env.ageNow - s.nonceIssuedAt > NONCE_TTL then Refused(StaleNonce)
             else Judge(cfg, s, req, s.pendingNonce, env);
    (Settle(TakeNonce(s), o, env), o)
  }

  function StatusCall(s: Shared, env: Env): (Shared, Outcome) {
    var s1 := CheckSection(s, env.checkNow);
    (s1, Reported(Reply(ActiveAt(s, env.checkNow), s1.expires, s1.tamper, s1.heartbeat)))
  }

  /** One whole call. */
  function Handle(cfg: Config, s: Shared, req: Request, env: Env): (Shared, Outcome)
    requires WellFormed(s)
  {
    var pc := Entry(cfg, req);
    if pc.Done? then (s, pc.outcome)
    else
      match req
      case GetNonce(_) => GetNonceCall(s, env)
      case Unlock(_, _, _) => UnlockCall(cfg, s, req, env)
      case Status(_) => StatusCall(s, env)
      case Heartbeat => (s.(heartbeat := env.beatNow), Alive)
      case _ => GateCall(cfg, s, req, env)
  }

  // -------- small steps make up each call --------

  lemma RecordPath(cfg: Config, env: Env, s: Shared, req: Request, o: Outcome)
    requires WellFormed(s)
    ensures Reaches(cfg, env, Point(s, Record(req, o)), Point(RecordTamper(s), Done(req, o)))
  {
    var a := Point(s, Record(req, o));
    Here(cfg, env, a);
    Step(cfg, env, a, a, Point(RecordTamper(s), Done(req, o)));
  }

  lemma FinishPath(cfg: Config, env: Env, s: Shared, req: Request, o: Outcome)
    requires WellFormed(s)
    ensures Reaches(cfg, env, Point(s, Finish(req, o)), Point(if Recorded(o) then RecordTamper(s) else s, Done(req, o)))
  {
    if Recorded(o) { RecordPath(cfg, env, s, req, o); } else { Here(cfg, env, Point(s, Finish(req, o))); }
  }

  lemma CheckPath(cfg: Config, env: Env, s: Shared, req: Request)
    requires WellFormed(s)
    ensures Reaches(cfg, env, Point(s, ReadFlag(req)),
                    Point(CheckSection(s, env.checkNow), AfterCheck(cfg, req, ActiveAt(s, env.checkNow))))
  {
    var a, b, c := Point(s, ReadFlag(req)), Point(s, CheckClock(req)), Point(s, CheckLock(req, env.checkNow));
    Here(cfg, env, a);
    if s.permissive {
      Step(cfg, env, a, a, b);
      Step(cfg, env, a, b, c);
      Step(cfg, env, a, c, Point(CheckSection(s, env.checkNow), AfterCheck(cfg, req, ActiveAt(s, env.checkNow))));
    } else {
      Step(cfg, env, a, a, Point(s, AfterCheck(cfg, req, false)));
    }
  }

  lemma GatePath(cfg: Config, env: Env, s: Shared, req: Request)
    requires WellFormed(s) && !req.Status?
    ensures var (s', o) := GateCall(cfg, s, req, env); Reaches(cfg, env, Point(s, ReadFlag(req)), Point(s', Done(req, o)))
  {
    var s1, active := CheckSection(s, env.checkNow), ActiveAt(s, env.checkNow);
    var o := if active then Pass else OnClosed(cfg, req);
    CheckPath(cfg, env, s, req);
    FinishPath(cfg, env, s1, req, o);
    Then(cfg, env, Point(s, ReadFlag(req)), Point(s1, Finish(req, o)), Point(if Recorded(o) then RecordTamper(s1) else s1, Done(req, o)));
  }

  lemma LoadTailPath(cfg: Config, env: Env, s: Shared, req: Request)
    requires WellFormed(s)
    ensures var s' := LoadVerifierFrom(s, env.verifier); Reaches(cfg, env, Point(s, LoadVerifier(req)), Point(s', NonceRandom(req)))
  {
    var a := Point(s, LoadVerifier(req));
    Here(cfg, env, a);
    var r := StoreVerifier(s, env.verifier);
    if r.Some? && |env.verifier.value| == VERIFIER_LEN {
      var b := Point(r.value, LoadLatch(req));
      Step(cfg, env, a, a, b);
      Step(cfg, env, a, b, Point(r.value.(verifierLoaded := true), NonceRandom(req)));
    } else {
      Step(cfg, env, a, a, Point(if r.Some? then r.value else s, NonceRandom(req)));
    }
  }

  lemma LoadPath(cfg: Config, env: Env, s: Shared, req: Request)
    requires WellFormed(s)
    ensures Reaches(cfg, env, Point(s, LoadOpen(req)), Point(Load(s, env), NonceRandom(req)))
  {
    var a, b := Point(s, LoadOpen(req)), Point(s, LoadSalt(req));
    var done := Point(Load(s, env), NonceRandom(req));
    Here(cfg, env, a);
    if !env.keyOpen {
      Step(cfg, env, a, a, done);
    } else {
      Step(cfg, env, a, a, b);
      var r := StoreSalt(s, env.salt);
      if r.None? {
        Step(cfg, env, a, b, done);
      } else {
        var c := Point(r.value, LoadIterations(req));
        Step(cfg, env, a, b, c);
        if env.iterations.None? {
          Step(cfg, env, a, c, done);
        } else {
          var d := Point(r.value.(iterations := env.iterations.value), LoadVerifier(req));
          Step(cfg, env, a, c, d);
          LoadTailPath(cfg, env, d.sh, req);
          Then(cfg, env, a, d, done);
        }
      }
    }
  }

  lemma ReloadPath(cfg: Config, env: Env, s: Shared, req: Request)
    requires WellFormed(s)
    ensures Reaches(cfg, env, Point(s, ReloadGate(req)), Point(TryReload(s, env), NonceRandom(req)))
  {
    var a, b, c := Point(s, ReloadGate(req)), Point(s, ReloadClock(req)), Point(s, ReloadLast(req, env.retryNow));
    var done := Point(TryReload(s, env), NonceRandom(req));
    Here(cfg, env, a);
    if s.verifierLoaded || !env.passive {
      Step(cfg, env, a, a, done);
    } else {
      Step(cfg, env, a, a, b);
      Step(cfg, env, a, b, c);
      if !RetryDue(env.retryNow, s.lastRetry) {
        Step(cfg, env, a, c, done);
      } else {
        var d := Point(s, ReloadCas(req, env.retryNow, s.lastRetry));
        var e := Point(s.(lastRetry := env.retryNow), LoadOpen(req));
        Step(cfg, env, a, c, d);
        Step(cfg, env, a, d, e);
        LoadPath(cfg, env, e.sh, req);
        Then(cfg, env, a, e, done);
      }
    }
  }

  lemma NoncePath(cfg: Config, env: Env, s: Shared, req: Request)
    requires WellFormed(s) && (env.random.Some? ==> |env.random.value| == NONCE_LEN)
    ensures var (s', o) := GetNonceCall(s, env); Reaches(cfg, env, Point(s, ReloadGate(req)), Point(s', Done(req, o)))
  {
    var s1 := TryReload(s, env);
    var a, b := Point(s, ReloadGate(req)), Point(s1, NonceRandom(req));
    ReloadPath(cfg, env, s, req);
    if env.random.None? {
      Step(cfg, env, a, b, Point(s1, Done(req, Failed(RandomFailed))));
    } else {
      var nonce := env.random.value;
      var c, d := Point(s1, NonceClock(req, nonce)), Point(s1, NonceLock(req, nonce, env.nonceNow));
      Step(cfg, env, a, b, c);
      Step(cfg, env, a, c, d);
      Step(cfg, env, a, d, Point(InstallNonce(s1, nonce, env.nonceNow), Done(req, NonceIssued(nonce))));
    }
  }

  lemma EnterPath(cfg: Config, env: Env, s: Shared, req: Request)
    requires WellFormed(s)
    ensures Reaches(cfg, env, Point(s, EnterClock(req)), Point(EnterSection(s, env.enterNow), Done(req, Unlocked)))
  {
    var a, b := Point(s, EnterClock(req)), Point(s, EnterLock(req, env.enterNow));
    Here(cfg, env, a);
    Step(cfg, env, a, a, b);
    Step(cfg, env, a, b, Point(EnterSection(s, env.enterNow), Done(req, Unlocked)));
  }

  /** From the key check on. */
  lemma JudgePath(cfg: Config, env: Env, s: Shared, req: Request, nonce: Bytes)
    requires WellFormed(s) && req.Unlock?
    ensures var o := Judge(cfg, s, req, nonce, env); Reaches(cfg, env, Point(s, KeyGate(req, nonce)), Point(Settle(s, o, env), Done(req, o)))
  {
    var o := Judge(cfg, s, req, nonce, env);
    var done := Point(Settle(s, o, env), Done(req, o));
    var a, b, c := Point(s, KeyGate(req, nonce)), Point(s, KeyCompare(req, nonce)), Point(s, AnswerCompare(req, nonce));
    Here(cfg, env, a);
    if s.verifierLoaded {
      Step(cfg, env, a, a, b);
      if o == Refused(WrongKey) {
        Step(cfg, env, a, b, Point(s, Record(req, o)));
      } else {
        Step(cfg, env, a, b, c);
        JudgeAnswer(cfg, env, s, req, nonce);
      }
    } else {
      Step(cfg, env, a, a, Point(s, Record(req, o)));
    }
    if o == Refused(WrongKey) {
      RecordPath(cfg, env, s, req, o);
      Then(cfg, env, a, Point(s, Record(req, o)), done);
    } else {
      Then(cfg, env, a, c, done);
    }
  }

  lemma JudgeAnswer(cfg: Config, env: Env, s: Shared, req: Request, nonce: Bytes)
    requires WellFormed(s) && req.Unlock? && Judge(cfg, s, req, nonce, env) != Refused(WrongKey)
    ensures var o := Judge(cfg, s, req, nonce, env); Reaches(cfg, env, Point(s, AnswerCompare(req, nonce)), Point(Settle(s, o, env), Done(req, o)))
  {
    var o := Judge(cfg, s, req, nonce, env);
    var c, done := Point(s, AnswerCompare(req, nonce)), Point(Settle(s, o, env), Done(req, o));
    Here(cfg, env, c);
    if o == Failed(CryptoFailed) {
      Step(cfg, env, c, c, done);
    } else if o == Unlocked {
      Step(cfg, env, c, c, Point(s, EnterClock(req)));
      EnterPath(cfg, env, s, req);
      Then(cfg, env, c, Point(s, EnterClock(req)), done);
    } else {
      Step(cfg, env, c, c, Point(s, Record(req, o)));
      RecordPath(cfg, env, s, req, o);
      Then(cfg, env, c, Point(s, Record(req, o)), done);
    }
  }

  lemma UnlockPath(cfg: Config, env: Env, s: Shared, req: Request)
    requires WellFormed(s) && req.Unlock?
    ensures var (s', o) := UnlockCall(cfg, s, req, env); Reaches(cfg, env, Point(s, TakeLock(req)), Point(s', Done(req, o)))
  {
    var s1, nonce := TakeNonce(s), s.pendingNonce;
    var a, done := Point(s, TakeLock(req)), Point(UnlockCall(cfg, s, req, env).0, Done(req, UnlockCall(cfg, s, req, env).1));
    Here(cfg, env, a);
    if !s.nonceValid {
      Step(cfg, env, a, a, Point(s1, Record(req, Refused(NoNonce))));
      RecordPath(cfg, env, s1, req, Refused(NoNonce));
      Then(cfg, env, a, Point(s1, Record(req, Refused(NoNonce))), done);
    } else {
      var b := Point(s1, AgeClock(req, nonce, s.nonceIssuedAt));
      Step(cfg, env, a, a, b);
      if env.ageNow - s.nonceIssuedAt > NONCE_TTL {
        Step(cfg, env, a, b, Point(s1, Record(req, Refused(StaleNonce))));
        RecordPath(cfg, env, s1, req, Refused(StaleNonce));
        Then(cfg, env, a, Point(s1, Record(req, Refused(StaleNonce))), done);
      } else {
        Step(cfg, env, a, b, Point(s1, KeyGate(req, nonce)));
        JudgePath(cfg, env, s1, req, nonce);
        Then(cfg, env, a, Point(s1, KeyGate(req, nonce)), done);
      }
    }
  }

  lemma StatusPath(cfg: Config, env: Env, s: Shared, req: Request)
    requires WellFormed(s) && req.Status?
    ensures var (s', o) := StatusCall(s, env); Reaches(cfg, env, Point(s, ReadFlag(req)), Point(s', Done(req, o)))
  {
    var s1, active := CheckSection(s, env.checkNow), ActiveAt(s, env.checkNow);
    var a, b := Point(s, ReadFlag(req)), Point(s1, StatusExpires(req, active));
    var c := Point(s1, StatusTamper(req, active, s1.expires));
    var d := Point(s1, StatusHeartbeat(req, active, s1.expires, s1.tamper));
    CheckPath(cfg, env, s, req);
    Step(cfg, env, a, b, c);
    Step(cfg, env, a, c, d);
    Step(cfg, env, a, d, Point(s1, Done(req, StatusCall(s, env).1)));
  }

  lemma HeartbeatPath(cfg: Config, env: Env, s: Shared, req: Request)
    requires WellFormed(s)
    ensures Reaches(cfg, env, Point(s, HeartbeatClock(req)), Point(s.(heartbeat := env.beatNow), Done(req, Alive)))
  {
    var a, b := Point(s, HeartbeatClock(req)), Point(s, HeartbeatStore(req, env.beatNow));
    Here(cfg, env, a);
    Step(cfg, env, a, a, b);
    Step(cfg, env, a, b, Point(s.(heartbeat := env.beatNow), Done(req, Alive)));
  }

  /** Every call, run without interference, takes the machine from its entry to exactly this state and outcome. */
  lemma CallIsItsSteps(cfg: Config, env: Env, s: Shared, req: Request)
    requires WellFormed(s) && (env.random.Some? ==> |env.random.value| == NONCE_LEN)
    ensures var (s', o) := Handle(cfg, s, req, env); Reaches(cfg, env, Point(s, Entry(cfg, req)), Point(s', Done(req, o)))
  {
    if Entry(cfg, req).Done? {
      Here(cfg, env, Point(s, Entry(cfg, req)));
    } else {
      match req {
        case GetNonce(_) => NoncePath(cfg, env, s, req);
        case Unlock(_, _, _) => UnlockPath(cfg, env, s, req);
        case Status(_) => StatusPath(cfg, env, s, req);
        case Heartbeat => HeartbeatPath(cfg, env, s, req);
        case _ => GatePath(cfg, env, s, req);
      }
    }
  }

  // -------- calls in a run --------

  /** `now` is a time that `env` gives some step. */
  predicate EnvTime(env: Env, now: int) {
    || now == env.checkNow || now == env.retryNow || now == env.nonceNow
    || now == env.ageNow || now == env.enterNow || now == env.beatNow
  }

  /** From `r` to `r2` only thread `t` has moved, and its clock samples are those of `env`. */
  ghost predicate OnlyMoved(r: Run, r2: Run, t: nat, env: Env) {
    forall i :: |r.events| <= i < |r2.events| ==>
      r2.events[i].tid == t && (r2.events[i].Move? && r2.events[i].inp.Clock? ==> EnvTime(env, r2.events[i].inp.now))
  }

  lemma FollowLink(r: Run, t: nat, env: Env, a: Point, b: Point) returns (r': Run)
    requires Valid(r) && End(r).sh == a.sh && PcOf(End(r), t) == a.pc && Link(r.cfg, env, a, b)
    ensures Valid(r') && Continues(r, r') && r'.events == r.events + [Move(t, Supply(env, a.pc))]
    ensures End(r') == State(b.sh, End(r).threads[t := b.pc])
    ensures Supply(env, a.pc).Clock? ==> EnvTime(env, Supply(env, a.pc).now)
  {
    r' := Advance(r, t, Supply(env, a.pc), b.sh, b.pc);
  }

  lemma {:induction false} FollowPath(r: Run, t: nat, env: Env, p: seq<Point>) returns (r': Run)
    requires Valid(r) && p != [] && End(r).sh == p[0].sh && PcOf(End(r), t) == p[0].pc
    requires forall i :: 0 <= i < |p| - 1 ==> LinkAt(r.cfg, env, p, i)
    ensures Valid(r') && Continues(r, r') && OnlyMoved(r, r', t, env)
    ensures End(r').sh == p[|p| - 1].sh && PcOf(End(r'), t) == p[|p| - 1].pc
    ensures forall u: nat :: u != t ==> PcOf(End(r'), u) == PcOf(End(r), u)
    decreases |p|
  {
    if |p| == 1 {
      r' := r;
    } else {
      assert LinkAt(r.cfg, env, p, 0);
      var m := FollowLink(r, t, env, p[0], p[1]);
      var q := p[1..];
      forall i | 0 <= i < |q| - 1 ensures LinkAt(m.cfg, env, q, i) {
        assert LinkAt(r.cfg, env, p, i + 1);
      }
      r' := FollowPath(m, t, env, q);
    }
  }

  lemma RunReached(r: Run, t: nat, req: Request, env: Env, b: Point) returns (r': Run)
    requires Valid(r) && PcOf(End(r), t).Idle? && Reaches(r.cfg, env, Point(End(r).sh, Entry(r.cfg, req)), b)
    ensures Valid(r') && Continues(r, r') && OnlyMoved(r, r', t, env)
    ensures End(r').sh == b.sh && PcOf(End(r'), t) == b.pc
    ensures forall u: nat :: u != t ==> PcOf(End(r'), u) == PcOf(End(r), u)
  {
    var p :| Joins(r.cfg, env, p, Point(End(r).sh, Entry(r.cfg, req)), b);
    var m := Enter(r, t, req);
    r' := FollowPath(m, t, env, p);
  }

  /** In any run, an idle thread can make any call, alone, and comes to its whole-call state and outcome. */
  lemma RunCall(r: Run, t: nat, req: Request, env: Env) returns (r': Run)
    requires Valid(r) && PcOf(End(r), t).Idle? && (env.random.Some? ==> |env.random.value| == NONCE_LEN)
    ensures WellFormed(End(r).sh) && Valid(r') && Continues(r, r') && OnlyMoved(r, r', t, env)
    ensures var (s, o) := Handle(r.cfg, End(r).sh, req, env); End(r').sh == s && PcOf(End(r'), t) == Done(req, o)
    ensures forall u: nat :: u != t ==> PcOf(End(r'), u) == PcOf(End(r), u)
  {
    StaysWellFormed(r, |r.events|);
    CallIsItsSteps(r.cfg, env, End(r).sh, req);
    var (s, o) := Handle(r.cfg, End(r).sh, req, env);
    r' := RunReached(r, t, req, env, Point(s, Done(req, o)));
  }

  lemma Return(r: Run, t: nat) returns (r': Run)
    requires Valid(r) && PcOf(End(r), t).Done?
    ensures Valid(r') && Continues(r, r') && r'.events == r.events + [Move(t, Tau)]
    ensures End(r') == State(End(r).sh, End(r).threads[t := Idle])
  {
    StaysWellFormed(r, |r.events|);
    r' := Advance(r, t, Tau, End(r).sh, Idle);
  }

  lemma MovedOn(r: Run, m: Run, r': Run, t: nat, env: Env)
    requires Continues(r, m) && OnlyMoved(r, m, t, env) && r'.events == m.events + [Move(t, Tau)]
    ensures OnlyMoved(r, r', t, env)
  {
    forall i | |r.events| <= i < |m.events| ensures r'.events[i] == m.events[i] {
    }
  }

  /** And then returns. */
  lemma RunWholeCall(r: Run, t: nat, req: Request, env: Env) returns (r': Run)
    requires Valid(r) && PcOf(End(r), t).Idle? && (env.random.Some? ==> |env.random.value| == NONCE_LEN)
    ensures WellFormed(End(r).sh) && Valid(r') && Continues(r, r') && OnlyMoved(r, r', t, env)
    ensures End(r').sh == Handle(r.cfg, End(r).sh, req, env).0 && PcOf(End(r'), t).Idle?
    ensures forall u: nat :: u != t ==> PcOf(End(r'), u) == PcOf(End(r), u)
  {
    var m := RunCall(r, t, req, env);
    r' := Return(m, t);
    MovedOn(r, m, r', t, env);
  }

  // -------- a nonce request and an unlock in calm --------

  /** Every clock sample at one time, and no failure that a loaded verifier does not make irrelevant. */
  function CalmEnv(c: int, nonce: Bytes): Env {
    Env(c, true, c, true, None, None, None, Some(nonce), c, c, true, true, c, c)
  }

  lemma CalmUnlockOpens(cfg: Config, s: Shared, derived: Bytes, nonce: Bytes, c: int)
    requires WellFormed(s) && s.verifierLoaded && s.verifier == cfg.hmac(derived, LABEL) && |nonce| == NONCE_LEN
    ensures var env := CalmEnv(c, nonce);
      var s1 := Handle(cfg, s, GetNonce(NONCE_LEN), env).0;
      && WellFormed(s1)
      && var s2 := Handle(cfg, s1, Unlock(UNLOCK_REQUEST_LEN, cfg.hmac(derived, nonce), derived), env).0;
         s2.permissive && s2.expires == c + WINDOW
  {
  }
}
