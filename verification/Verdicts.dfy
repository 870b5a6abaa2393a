/** How every unlock ends, over whole runs: for which reason it is refused, and that each refusal is recorded once. */
module Verdicts {
  import opened Common
  import opened DriverState
  import opened DriverMachine
  import opened Unlocking

  /** Every crypto call that thread `t` makes in (a, d) works. */
  ghost predicate CryptoWorks(r: Run, t: nat, a: nat, d: nat)
    requires a < d <= |r.events| < |r.states|
  {
    forall p :: a < p < d && r.events[p].Move? && r.events[p].tid == t && (From(r, p).KeyCompare? || From(r, p).AnswerCompare?) ==>
      r.events[p].inp == Crypto(true)
  }

  /** How many tamper records thread `t` makes in (a, d). */
  function RecordsOf(r: Run, t: nat, a: nat, d: nat): nat
    requires a < d <= |r.events| < |r.states|
  {
    if d == a + 1 then 0
    else RecordsOf(r, t, a, d - 1) + if r.events[d - 1].tid == t && From(r, d - 1).Record? then 1 else 0
  }

  /** Where an unlock that took its nonce at `a` sampled the clock, looked for a verifier, and compared key and answer. */
  datatype Steps = Steps(age: nat, gate: nat, key: nat, answer: nat)

  ghost predicate StepOf(r: Run, a: nat, p: nat)
    requires a < |r.events| < |r.states|
  {
    a < p < |r.events| && r.events[p].Move? && r.events[p].tid == r.events[a].tid
  }

  // What each of the four steps finds. The nonce taken, and its age, are those of the state at `a`.

  ghost predicate Timed(r: Run, a: nat, p: nat, inTime: bool)
    requires a < |r.events| < |r.states|
  {
    && Sh(r, a).nonceValid && StepOf(r, a, p) && From(r, p).AgeClock? && r.events[p].inp.Clock?
    && inTime == (r.events[p].inp.now - Sh(r, a).nonceIssuedAt <= 600_000_000)
  }

  ghost predicate Looked(r: Run, a: nat, p: nat, loaded: bool)
    requires a < |r.events| < |r.states|
  {
    StepOf(r, a, p) && From(r, p).KeyGate? && loaded == Sh(r, p).verifierLoaded
  }

  ghost predicate Keyed(r: Run, a: nat, p: nat, req: Request, right: bool)
    requires a < |r.events| < |r.states| && req.Unlock?
  {
    StepOf(r, a, p) && From(r, p).KeyCompare? && right == (r.cfg.hmac(req.derived, LABEL) == Sh(r, p).verifier)
  }

  ghost predicate Answered(r: Run, a: nat, p: nat, req: Request, right: bool)
    requires a < |r.events| < |r.states| && req.Unlock?
  {
    StepOf(r, a, p) && From(r, p).AnswerCompare? && right == (req.response == r.cfg.hmac(req.derived, Sh(r, a).pendingNonce))
  }

  ghost predicate Ready(r: Run, a: nat, w: Steps)
    requires a < |r.events| < |r.states|
  {
    Timed(r, a, w.age, true) && Looked(r, a, w.gate, true) && w.age < w.gate
  }

  ghost predicate Keyholder(r: Run, a: nat, w: Steps, req: Request)
    requires a < |r.events| < |r.states| && req.Unlock?
  {
    Ready(r, a, w) && Keyed(r, a, w.key, req, true) && w.gate < w.key
  }

  ghost predicate Solved(r: Run, a: nat, w: Steps, req: Request)
    requires a < |r.events| < |r.states| && req.Unlock?
  {
    Keyholder(r, a, w, req) && Answered(r, a, w.answer, req, true) && w.key < w.answer
  }

  /** What is known when the unlock is refused for reason `why`. */
  ghost predicate Grounds(r: Run, a: nat, w: Steps, req: Request, why: Refusal)
    requires a < |r.events| < |r.states| && req.Unlock?
  {
    match why
    case NoNonce => !Sh(r, a).nonceValid
    case StaleNonce => Timed(r, a, w.age, false)
    case WrongKey =>
      || (Timed(r, a, w.age, true) && Looked(r, a, w.gate, false) && w.age < w.gate)
      || (Ready(r, a, w) && Keyed(r, a, w.key, req, false) && w.gate < w.key)
    case Mismatch => Keyholder(r, a, w, req) && Answered(r, a, w.answer, req, false) && w.key < w.answer
  }

  /** What thread `t` has established at program counter `pc`, and how many records it has made. */
  ghost predicate SoFar(r: Run, a: nat, w: Steps, req: Request, pc: Pc, records: nat)
    requires a < |r.events| < |r.states| && req.Unlock?
  {
    match pc
    case AgeClock(q, n, issuedAt) => q == req && Sh(r, a).nonceValid && n == Sh(r, a).pendingNonce && issuedAt == Sh(r, a).nonceIssuedAt && records == 0
    case KeyGate(q, n) => q == req && n == Sh(r, a).pendingNonce && Timed(r, a, w.age, true) && records == 0
    case KeyCompare(q, n) => q == req && n == Sh(r, a).pendingNonce && Ready(r, a, w) && records == 0
    case AnswerCompare(q, n) => q == req && n == Sh(r, a).pendingNonce && Keyholder(r, a, w, req) && records == 0
    case EnterClock(q) => q == req && Solved(r, a, w, req) && records == 0
    case EnterLock(q, _) => q == req && Solved(r, a, w, req) && records == 0
    case Record(q, o) => q == req && o.Refused? && Grounds(r, a, w, req, o.why) && records == 0
    case Done(q, o) =>
      && q == req
      && ((o.Unlocked? && Solved(r, a, w, req) && records == 0) || (o.Refused? && Grounds(r, a, w, req, o.why) && records == 1))
    case _ => false
  }

  /** The positions known after one more step, at `p`. */
  function Noted(w: Steps, pc: Pc, p: nat): Steps {
    match pc
    case AgeClock(_, _, _) => w.(age := p)
    case KeyGate(_, _) => w.(gate := p)
    case KeyCompare(_, _) => w.(key := p)
    case AnswerCompare(_, _) => w.(answer := p)
    case _ => w
  }

  ghost predicate Before(w: Steps, pc: Pc, p: nat) {
    && (pc.KeyGate? || pc.KeyCompare? || pc.AnswerCompare? ==> w.age < p)
    && (pc.KeyCompare? || pc.AnswerCompare? ==> w.gate < p)
    && (pc.AnswerCompare? ==> w.key < p)
  }

  /** How far an unlock is at a program counter. */
  function Rank(pc: Pc): nat {
    if pc.AgeClock? then 0 else if pc.KeyGate? then 1 else if pc.KeyCompare? then 2 else if pc.AnswerCompare? then 3
    else if pc.EnterClock? then 4 else if pc.EnterLock? then 5 else if pc.Record? then 6 else 7
  }

  /** The thread's steps in (a, d) all come before `pc`, and the four tests among them are those of `w`. */
  ghost predicate Only(r: Run, a: nat, d: nat, w: Steps, pc: Pc)
    requires a < d <= |r.events| < |r.states|
  {
    forall p: nat :: StepOf(r, a, p) && p < d ==>
      && Rank(From(r, p)) < Rank(pc)
      && (From(r, p).AgeClock? ==> p == w.age) && (From(r, p).KeyGate? ==> p == w.gate)
      && (From(r, p).KeyCompare? ==> p == w.key) && (From(r, p).AnswerCompare? ==> p == w.answer)
  }

  ghost predicate Known(r: Run, a: nat, d: nat, w: Steps, req: Request)
    requires a < d <= |r.events| < |r.states| && req.Unlock?
  {
    var pc := Pcs(r, d, r.events[a].tid);
    SoFar(r, a, w, req, pc, RecordsOf(r, r.events[a].tid, a, d)) && Before(w, pc, d) && Only(r, a, d, w, pc)
  }

  lemma OneStep(r: Run, a: nat, p: nat, w: Steps, req: Request, records: nat)
    requires Valid(r) && a < |r.events| && req.Unlock? && StepOf(r, a, p) && !Pcs(r, p + 1, r.events[a].tid).Idle?
    requires SoFar(r, a, w, req, From(r, p), records) && Before(w, From(r, p), p)
    requires From(r, p).KeyCompare? || From(r, p).AnswerCompare? ==> r.events[p].inp == Crypto(true)
    ensures SoFar(r, a, Noted(w, From(r, p), p), req, Pcs(r, p + 1, r.events[a].tid), records + if From(r, p).Record? then 1 else 0)
    ensures Before(Noted(w, From(r, p), p), Pcs(r, p + 1, r.events[a].tid), p + 1)
    ensures Rank(From(r, p)) < Rank(Pcs(r, p + 1, r.events[a].tid))
  {
    EventSteps(r, p);
  }

  lemma KnownAtFirst(r: Run, a: nat)
    requires Valid(r) && a < |r.events| && From(r, a).TakeLock? && From(r, a).req.Unlock?
    ensures Known(r, a, a + 1, Steps(0, 0, 0, 0), From(r, a).req)
  {
    TakeLeadsTo(r, a);
  }

  /** A step of the thread itself. */
  lemma KnownOn(r: Run, a: nat, p: nat, w: Steps, req: Request)
    requires Valid(r) && a < p < |r.events| && req.Unlock? && StepOf(r, a, p) && !Pcs(r, p + 1, r.events[a].tid).Idle?
    requires Known(r, a, p, w, req)
    requires From(r, p).KeyCompare? || From(r, p).AnswerCompare? ==> r.events[p].inp == Crypto(true)
    ensures Known(r, a, p + 1, Noted(w, From(r, p), p), req)
  {
    var records := RecordsOf(r, r.events[a].tid, a, p);
    OneStep(r, a, p, w, req, records);
    assert RecordsOf(r, r.events[a].tid, a, p + 1) == records + if From(r, p).Record? then 1 else 0;
    OnlyOn(r, a, p, w);
  }

  lemma OnlyOn(r: Run, a: nat, p: nat, w: Steps)
    requires a < p < |r.events| < |r.states| && StepOf(r, a, p) && Only(r, a, p, w, From(r, p))
    requires Rank(From(r, p)) < Rank(Pcs(r, p + 1, r.events[a].tid))
    ensures Only(r, a, p + 1, Noted(w, From(r, p), p), Pcs(r, p + 1, r.events[a].tid))
  {
  }

  /** A step of another thread. */
  lemma KnownStill(r: Run, a: nat, p: nat, w: Steps, req: Request)
    requires Valid(r) && a < p < |r.events| && req.Unlock? && r.events[p].tid != r.events[a].tid && Known(r, a, p, w, req)
    ensures Known(r, a, p + 1, w, req)
  {
    OthersStay(r, p, r.events[a].tid);
    assert forall q: nat :: StepOf(r, a, q) && q < p + 1 ==> q < p;
  }

  /** Inside the call the thread only steps. */
  lemma BusySteps(r: Run, t: nat, a: nat, p: nat)
    requires Valid(r) && a < p < |r.events| && r.events[a].tid == r.events[p].tid == t && !Pcs(r, p, t).Idle?
    ensures StepOf(r, a, p)
  {
    EventSteps(r, p);
  }

  lemma {:induction false} UnlockSoFar(r: Run, a: nat, d: nat) returns (w: Steps)
    requires Valid(r) && a < d <= |r.events| && From(r, a).TakeLock? && From(r, a).req.Unlock?
    requires Busy(r, r.events[a].tid, a, d) && CryptoWorks(r, r.events[a].tid, a, d)
    ensures Known(r, a, d, w, From(r, a).req)
    decreases d
  {
    if d == a + 1 {
      KnownAtFirst(r, a);
      w := Steps(0, 0, 0, 0);
    } else {
      var p := d - 1;
      w := UnlockSoFar(r, a, p);
      if r.events[p].tid == r.events[a].tid {
        BusySteps(r, r.events[a].tid, a, p);
        KnownOn(r, a, p, w, From(r, a).req);
        w := Noted(w, From(r, p), p);
      } else {
        KnownStill(r, a, p, w, From(r, a).req);
      }
    }
  }

  predicate Within(w: Steps, d: nat) {
    w.age < d && w.gate < d && w.key < d && w.answer < d
  }

  /**
   * The verdict on an unlock that takes its nonce section at `a` and is complete at `d`, all its crypto calls working,
   * whatever other threads do. It opens the window after passing all four tests, with no tamper record; or it is
   * refused, for a reason whose grounds hold, with exactly one. And whatever grounds its own steps give, it is refused
   * for that reason.
   */
  lemma UnlockVerdict(r: Run, a: nat, d: nat) returns (w: Steps)
    requires Valid(r) && a < d <= |r.events| && From(r, a).TakeLock? && From(r, a).req.Unlock?
    requires var t := r.events[a].tid; Busy(r, t, a, d) && CryptoWorks(r, t, a, d) && Pcs(r, d, t).Done?
    ensures var req, t := From(r, a).req, r.events[a].tid;
      var o := Pcs(r, d, t).outcome;
      && Pcs(r, d, t).req == req
      && ((o == DriverMachine.Unlocked && Solved(r, a, w, req) && RecordsOf(r, t, a, d) == 0)
          || (o.Refused? && Grounds(r, a, w, req, o.why) && RecordsOf(r, t, a, d) == 1))
      && (forall w', why :: Within(w', d) && Grounds(r, a, w', req, why) ==> o == Refused(why))
      && (forall w' :: Within(w', d) && Solved(r, a, w', req) ==> o == DriverMachine.Unlocked)
  {
    w := UnlockSoFar(r, a, d);
    var req, pc := From(r, a).req, Pcs(r, d, r.events[a].tid);
    forall w', why | Within(w', d) && Grounds(r, a, w', req, why) ensures pc.outcome == Refused(why) {
      GroundsAgree(r, a, d, w, w', req, pc, why);
    }
    forall w' | Within(w', d) && Solved(r, a, w', req) ensures pc.outcome == DriverMachine.Unlocked {
      SuccessAgrees(r, a, d, w, w', req, pc);
    }
  }

  lemma GroundsAgree(r: Run, a: nat, d: nat, w: Steps, w': Steps, req: Request, pc: Pc, why: Refusal)
    requires a < d <= |r.events| < |r.states| && req.Unlock? && pc.Done? && Only(r, a, d, w, pc)
    requires (pc.outcome.Unlocked? && Solved(r, a, w, req)) || (pc.outcome.Refused? && Grounds(r, a, w, req, pc.outcome.why))
    requires Within(w', d) && Grounds(r, a, w', req, why)
    ensures pc.outcome == Refused(why)
  {
  }

  lemma SuccessAgrees(r: Run, a: nat, d: nat, w: Steps, w': Steps, req: Request, pc: Pc)
    requires a < d <= |r.events| < |r.states| && req.Unlock? && pc.Done? && Only(r, a, d, w, pc)
    requires (pc.outcome.Unlocked? && Solved(r, a, w, req)) || (pc.outcome.Refused? && Grounds(r, a, w, req, pc.outcome.why))
    requires Within(w', d) && Solved(r, a, w', req)
    ensures pc.outcome == DriverMachine.Unlocked
  {
  }
}
