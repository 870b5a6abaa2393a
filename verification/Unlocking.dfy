/** Unlock requests over whole runs: what a successful one went through, which nonce it spent, and when it succeeds. */
module Unlocking {
  import opened Common
  import opened DriverState
  import opened DriverMachine
  import opened Window

  /** Event `i` installs a nonce, under gNonceLock. */
  predicate IsInstall(r: Run, i: nat)
    requires i < |r.events| < |r.states|
  {
    From(r, i).NonceLock?
  }

  /** Event `i` consumes the pending nonce, under gNonceLock. */
  predicate IsTake(r: Run, i: nat)
    requires i < |r.events| < |r.states|
  {
    From(r, i).TakeLock? && Sh(r, i).nonceValid
  }

  ghost predicate NoInstall(r: Run, lo: int, hi: int)
    requires -1 <= lo && hi <= |r.events| < |r.states|
  {
    forall k :: lo < k < hi ==> !IsInstall(r, k)
  }

  ghost predicate NoTake(r: Run, lo: int, hi: int)
    requires -1 <= lo && hi <= |r.events| < |r.states|
  {
    forall k :: lo < k < hi ==> !IsTake(r, k)
  }

  // -------- nonce accounting --------

  lemma NextNonce(cfg: Config, s: Shared, pc: Pc, inp: Input)
    requires WellFormed(s) && Next(cfg, s, pc, inp).To?
    ensures var s' := Next(cfg, s, pc, inp).sh;
      if pc.NonceLock? then s' == InstallNonce(s, pc.nonce, pc.now)
      else if pc.TakeLock? then s' == TakeNonce(s)
      else s'.nonceValid == s.nonceValid && s'.pendingNonce == s.pendingNonce && s'.nonceIssuedAt == s.nonceIssuedAt
  {
  }

  /** Only installations and consumptions touch the nonce. */
  lemma NonceEffect(r: Run, i: nat)
    requires Valid(r) && i < |r.events|
    ensures var s, s' := Sh(r, i), Sh(r, i + 1);
      if IsInstall(r, i) then s' == InstallNonce(s, From(r, i).nonce, From(r, i).now)
      else if IsTake(r, i) then s' == s.(nonceValid := false, pendingNonce := Zeros(NONCE_LEN))
      else s'.nonceValid == s.nonceValid && s'.pendingNonce == s.pendingNonce && s'.nonceIssuedAt == s.nonceIssuedAt
  {
    EventSteps(r, i);
    if r.events[i].Move? { NextNonce(r.cfg, Sh(r, i), From(r, i), r.events[i].inp); }
  }

  function LastInstall(r: Run, i: nat): (p: int)
    requires i <= |r.events| < |r.states|
    ensures -1 <= p < i
    ensures p >= 0 ==> IsInstall(r, p)
    ensures NoInstall(r, p, i)
  {
    if i == 0 then -1 else if IsInstall(r, i - 1) then i - 1 else LastInstall(r, i - 1)
  }

  /** A valid nonce is the latest installed and unspent; with no valid nonce the buffer is all zeros. */
  lemma {:induction false} PendingNonce(r: Run, i: nat)
    requires Valid(r) && i <= |r.events|
    ensures var s, p := Sh(r, i), LastInstall(r, i);
      if s.nonceValid
      then p >= 0 && NoTake(r, p, i) && s.pendingNonce == From(r, p).nonce && s.nonceIssuedAt == From(r, p).now
      else s.pendingNonce == Zeros(NONCE_LEN)
  {
    if i == 0 {
      InitialState(r);
    } else {
      PendingNonce(r, i - 1);
      NonceEffect(r, i - 1);
    }
  }

  // -------- the trail of one unlock --------

  /** Positions of the steps one successful unlock took before it opened the window. */
  datatype Trail = Trail(take: nat, age: nat, gate: nat, key: nat, answer: nat, clock: nat)

  /** `w` is the trail, by the thread of event `e` and in this order, of one request that passed every check. */
  ghost predicate IsTrail(r: Run, e: nat, w: Trail)
    requires e < |r.events| < |r.states|
  {
    && w.take < w.age < w.gate < w.key < w.answer < w.clock < e
    && (forall k :: w.take <= k < e && r.events[k].tid == r.events[e].tid ==>
          k == w.take || k == w.age || k == w.gate || k == w.key || k == w.answer || k == w.clock)
    && r.events[w.take].tid == r.events[w.age].tid == r.events[w.gate].tid == r.events[e].tid
    && r.events[w.key].tid == r.events[w.answer].tid == r.events[w.clock].tid == r.events[e].tid
    && From(r, e).EnterLock? && From(r, e).req.Unlock?
    && var req := From(r, e).req;
       var s := Sh(r, w.take);
    && IsTake(r, w.take) && From(r, w.take) == TakeLock(req)
    && From(r, w.age) == AgeClock(req, s.pendingNonce, s.nonceIssuedAt)
    && r.events[w.age].inp.Clock? && r.events[w.age].inp.now - s.nonceIssuedAt <= NONCE_TTL
    && From(r, w.gate) == KeyGate(req, s.pendingNonce) && Sh(r, w.gate).verifierLoaded
    && From(r, w.key) == KeyCompare(req, s.pendingNonce) && KeyMatches(r.cfg, Sh(r, w.key), req.derived)
    && From(r, w.answer) == AnswerCompare(req, s.pendingNonce)
    && req.response == r.cfg.hmac(req.derived, s.pendingNonce)
    && From(r, w.clock) == EnterClock(req) && r.events[w.clock].inp == Clock(From(r, e).now)
  }

  predicate MidUnlock(pc: Pc) {
    pc.AgeClock? || pc.KeyGate? || pc.KeyCompare? || pc.AnswerCompare? || pc.EnterClock? || pc.EnterLock?
  }

  /** Only an unlock's own steps lead to an unlock's steps. */
  lemma OnlyUnlockLeadsOn(cfg: Config, s: Shared, pc: Pc, inp: Input)
    requires WellFormed(s) && Next(cfg, s, pc, inp).To? && MidUnlock(Next(cfg, s, pc, inp).pc)
    ensures Next(cfg, s, pc, inp) == StepUnlock(cfg, s, pc, inp)
  {
  }

  /** Each step on the way to the window has one predecessor. */
  lemma IntoUnlock(cfg: Config, s: Shared, pc: Pc, inp: Input)
    requires WellFormed(s) && Next(cfg, s, pc, inp).To?
    ensures var pc' := Next(cfg, s, pc, inp).pc;
      && (pc'.EnterLock? ==> pc == EnterClock(pc'.req) && inp == Clock(pc'.now))
      && (pc'.EnterClock? ==> pc.AnswerCompare? && pc.req == pc'.req && pc.req.Unlock? && pc.req.response == cfg.hmac(pc.req.derived, pc.nonce))
      && (pc'.AnswerCompare? ==> pc == KeyCompare(pc'.req, pc'.nonce) && pc.req.Unlock? && KeyMatches(cfg, s, pc.req.derived))
      && (pc'.KeyCompare? ==> pc == KeyGate(pc'.req, pc'.nonce) && s.verifierLoaded)
      && (pc'.KeyGate? ==> pc.AgeClock? && pc == AgeClock(pc'.req, pc'.nonce, pc.issuedAt) && inp.Clock? && inp.now - pc.issuedAt <= NONCE_TTL)
      && (pc'.AgeClock? ==> pc == TakeLock(pc'.req) && s.nonceValid && pc'.nonce == s.pendingNonce && pc'.issuedAt == s.nonceIssuedAt)
  {
    if MidUnlock(Next(cfg, s, pc, inp).pc) { OnlyUnlockLeadsOn(cfg, s, pc, inp); }
  }

  /** The event of the same thread that led to event `i`. */
  function Prev(r: Run, i: nat): int
    requires i < |r.events|
  {
    Last(r, i, r.events[i].tid)
  }

  lemma PrevInUnlock(r: Run, i: nat)
    requires Valid(r) && i < |r.events| && MidUnlock(From(r, i))
    ensures var p := Prev(r, i);
      && p >= 0 && r.events[p].Move? && r.events[p].tid == r.events[i].tid
      && WellFormed(Sh(r, p))
      && Next(r.cfg, Sh(r, p), From(r, p), r.events[p].inp).To?
      && Next(r.cfg, Sh(r, p), From(r, p), r.events[p].inp).pc == From(r, i)
  {
    LastKeepsPc(r, i, r.events[i].tid);
    EventSteps(r, Prev(r, i));
  }

  lemma PrevUnlockStep(r: Run, i: nat) returns (p: nat)
    requires Valid(r) && i < |r.events| && MidUnlock(From(r, i))
    ensures p < i && r.events[p].Move? && r.events[p].tid == r.events[i].tid && p == Prev(r, i)
    ensures var pc, pc', s, inp := From(r, p), From(r, i), Sh(r, p), r.events[p].inp;
      && (pc'.EnterLock? ==> pc == EnterClock(pc'.req) && inp == Clock(pc'.now))
      && (pc'.EnterClock? ==> pc.AnswerCompare? && pc.req == pc'.req && pc.req.Unlock? && pc.req.response == r.cfg.hmac(pc.req.derived, pc.nonce))
      && (pc'.AnswerCompare? ==> pc == KeyCompare(pc'.req, pc'.nonce) && pc.req.Unlock? && KeyMatches(r.cfg, s, pc.req.derived))
      && (pc'.KeyCompare? ==> pc == KeyGate(pc'.req, pc'.nonce) && s.verifierLoaded)
      && (pc'.KeyGate? ==> pc.AgeClock? && pc == AgeClock(pc'.req, pc'.nonce, pc.issuedAt) && inp.Clock? && inp.now - pc.issuedAt <= NONCE_TTL)
      && (pc'.AgeClock? ==> pc == TakeLock(pc'.req) && s.nonceValid && pc'.nonce == s.pendingNonce && pc'.issuedAt == s.nonceIssuedAt)
  {
    PrevInUnlock(r, i);
    p := Prev(r, i);
    IntoUnlock(r.cfg, Sh(r, p), From(r, p), r.events[p].inp);
  }

  /** Every opening of the window has such a trail. */
  lemma EveryEntryHasTrail(r: Run, e: nat) returns (w: Trail)
    requires Valid(r) && e < |r.events| && IsEnter(r, e)
    ensures IsTrail(r, e, w)
  {
    var clock := PrevUnlockStep(r, e);
    var answer := PrevUnlockStep(r, clock);
    var key := PrevUnlockStep(r, answer);
    var gate := PrevUnlockStep(r, key);
    var age := PrevUnlockStep(r, gate);
    var take := PrevUnlockStep(r, age);
    w := Trail(take, age, gate, key, answer, clock);
  }

  /** Two entries spend different nonce installations, each the latest before its consumption. */
  lemma EntriesSpendDistinctNonces(r: Run, e1: nat, w1: Trail, e2: nat, w2: Trail)
    requires Valid(r) && e1 < e2 < |r.events| && IsEnter(r, e1) && IsEnter(r, e2)
    requires IsTrail(r, e1, w1) && IsTrail(r, e2, w2)
    ensures 0 <= LastInstall(r, w1.take) && 0 <= LastInstall(r, w2.take)
    ensures From(r, LastInstall(r, w1.take)).nonce == Sh(r, w1.take).pendingNonce
    ensures From(r, LastInstall(r, w2.take)).nonce == Sh(r, w2.take).pendingNonce
    ensures LastInstall(r, w1.take) != LastInstall(r, w2.take)
  {
    PendingNonce(r, w1.take);
    PendingNonce(r, w2.take);
    assert w1.take != w2.take;
  }

  // -------- completeness --------

  /** From position `a` up to `d`, thread `t` is inside one request. */
  ghost predicate Busy(r: Run, t: nat, a: nat, d: nat)
    requires a < d < |r.states|
  {
    forall p :: a < p <= d ==> !Pcs(r, p, t).Idle?
  }

  /** The client is prompt and its key is right: every check of its own that thread `t` makes in (a, d) can pass. */
  ghost predicate CorrectClient(r: Run, t: nat, a: nat, d: nat, issuedAt: int)
    requires a < d <= |r.events| < |r.states|
  {
    forall p :: a < p < d && r.events[p].Move? && r.events[p].tid == t ==>
      && (From(r, p).AgeClock? && r.events[p].inp.Clock? ==> r.events[p].inp.now - issuedAt <= NONCE_TTL)
      && (From(r, p).KeyGate? ==> Sh(r, p).verifierLoaded)
      && (From(r, p).KeyCompare? ==> r.events[p].inp == Crypto(true) && From(r, p).req.Unlock? && KeyMatches(r.cfg, Sh(r, p), From(r, p).req.derived))
      && (From(r, p).AnswerCompare? ==> r.events[p].inp == Crypto(true))
  }

  predicate OnTheWay(pc: Pc, req: Request, nonce: Bytes, issuedAt: int) {
    || pc == AgeClock(req, nonce, issuedAt) || pc == KeyGate(req, nonce) || pc == KeyCompare(req, nonce)
    || pc == AnswerCompare(req, nonce) || pc == EnterClock(req) || (pc.EnterLock? && pc.req == req)
    || pc == Done(req, DriverMachine.Unlocked)
  }

  predicate Failing(pc: Pc, req: Request, nonce: Bytes) {
    || (pc.AgeClock? && pc.req == req && pc.nonce == nonce) || pc == KeyGate(req, nonce) || pc == KeyCompare(req, nonce)
    || pc == AnswerCompare(req, nonce)
    || (pc.Record? && pc.req == req && pc.outcome.Refused?)
    || (pc.Done? && pc.req == req && !pc.outcome.Unlocked?)
  }

  lemma StaysOnTheWay(cfg: Config, s: Shared, pc: Pc, inp: Input, req: Request, nonce: Bytes, issuedAt: int)
    requires WellFormed(s) && Next(cfg, s, pc, inp).To? && !Next(cfg, s, pc, inp).pc.Idle?
    requires req.Unlock? && OnTheWay(pc, req, nonce, issuedAt) && req.response == cfg.hmac(req.derived, nonce)
    requires pc.AgeClock? && inp.Clock? ==> inp.now - issuedAt <= NONCE_TTL
    requires pc.KeyGate? ==> s.verifierLoaded
    requires pc.KeyCompare? ==> inp == Crypto(true) && KeyMatches(cfg, s, req.derived)
    requires pc.AnswerCompare? ==> inp == Crypto(true)
    ensures OnTheWay(Next(cfg, s, pc, inp).pc, req, nonce, issuedAt)
  {
  }

  lemma StaysFailing(cfg: Config, s: Shared, pc: Pc, inp: Input, req: Request, nonce: Bytes)
    requires WellFormed(s) && Next(cfg, s, pc, inp).To? && !Next(cfg, s, pc, inp).pc.Idle?
    requires req.Unlock? && Failing(pc, req, nonce) && req.response != cfg.hmac(req.derived, nonce)
    ensures Failing(Next(cfg, s, pc, inp).pc, req, nonce)
  {
  }

  lemma {:induction false} RightNonceUnlocks(r: Run, t: nat, a: nat, d: nat, req: Request, nonce: Bytes, issuedAt: int)
    requires Valid(r) && a < d <= |r.events| && Busy(r, t, a, d) && CorrectClient(r, t, a, d, issuedAt)
    requires req.Unlock? && req.response == r.cfg.hmac(req.derived, nonce)
    requires Pcs(r, a + 1, t) == AgeClock(req, nonce, issuedAt)
    ensures OnTheWay(Pcs(r, d, t), req, nonce, issuedAt)
  {
    if d > a + 1 {
      var p := d - 1;
      RightNonceUnlocks(r, t, a, p, req, nonce, issuedAt);
      EventSteps(r, p);
      if r.events[p].tid == t {
        StaysOnTheWay(r.cfg, Sh(r, p), From(r, p), r.events[p].inp, req, nonce, issuedAt);
      }
    }
  }

  lemma {:induction false} WrongNonceFails(r: Run, t: nat, a: nat, d: nat, req: Request, nonce: Bytes)
    requires Valid(r) && a < d <= |r.events| && Busy(r, t, a, d)
    requires req.Unlock? && req.response != r.cfg.hmac(req.derived, nonce)
    requires Failing(Pcs(r, a + 1, t), req, nonce)
    ensures Failing(Pcs(r, d, t), req, nonce)
  {
    if d > a + 1 {
      var p := d - 1;
      WrongNonceFails(r, t, a, p, req, nonce);
      EventSteps(r, p);
      if r.events[p].tid == t {
        StaysFailing(r.cfg, Sh(r, p), From(r, p), r.events[p].inp, req, nonce);
      }
    }
  }

  lemma {:induction false} NoNonceFails(r: Run, t: nat, a: nat, d: nat, req: Request)
    requires Valid(r) && a < d <= |r.events| && Busy(r, t, a, d)
    requires Pcs(r, a + 1, t) == Record(req, Refused(NoNonce))
    ensures var pc := Pcs(r, d, t); pc == Record(req, Refused(NoNonce)) || pc == Done(req, Refused(NoNonce))
  {
    if d > a + 1 {
      NoNonceFails(r, t, a, d - 1, req);
      EventSteps(r, d - 1);
    }
  }

  lemma TakeLeadsTo(r: Run, a: nat)
    requires Valid(r) && a < |r.events| && From(r, a).TakeLock?
    ensures var s, req := Sh(r, a), From(r, a).req;
      Pcs(r, a + 1, r.events[a].tid) ==
        if s.nonceValid then AgeClock(req, s.pendingNonce, s.nonceIssuedAt) else Record(req, Refused(NoNonce))
  {
    EventSteps(r, a);
  }

  /** The unlock that takes its nonce at `a` and is complete at `d` is a prompt client's, with the right key, answering the nonce installed at `g`. */
  ghost predicate AnswersInTime(r: Run, g: nat, a: nat, d: nat)
    requires g < a < d <= |r.events| < |r.states|
  {
    var t := r.events[a].tid;
    && IsInstall(r, g) && From(r, a).TakeLock? && From(r, a).req.Unlock?
    && Busy(r, t, a, d) && Pcs(r, d, t).Done? && CorrectClient(r, t, a, d, From(r, g).now)
    && From(r, a).req.response == r.cfg.hmac(From(r, a).req.derived, From(r, g).nonce)
  }

  predicate Succeeds(r: Run, a: nat, d: nat)
    requires a < d <= |r.events| < |r.states| && From(r, a).TakeLock?
  {
    Pcs(r, d, r.events[a].tid) == Done(From(r, a).req, DriverMachine.Unlocked)
  }

  /** Completeness: such a client succeeds when nothing installed or consumed a nonce in between. */
  lemma UndisturbedUnlockSucceeds(r: Run, g: nat, a: nat, d: nat)
    requires Valid(r) && g < a < d <= |r.events| && AnswersInTime(r, g, a, d)
    requires NoInstall(r, g, a) && NoTake(r, g, a)
    ensures Succeeds(r, a, d)
  {
    PendingNonce(r, a);
    TakeLeadsTo(r, a);
    StaysPending(r, g, a);
    RightNonceUnlocks(r, r.events[a].tid, a, d, From(r, a).req, From(r, g).nonce, From(r, g).now);
  }

  /** And only then, as long as its response answers none of the other nonces installed before it is judged. */
  lemma UnlockSucceedsExactlyWhen(r: Run, g: nat, a: nat, d: nat)
    requires Valid(r) && g < a < d <= |r.events| && AnswersInTime(r, g, a, d)
    requires forall k :: 0 <= k < a && IsInstall(r, k) && k != g ==>
      r.cfg.hmac(From(r, a).req.derived, From(r, k).nonce) != From(r, a).req.response
    ensures Succeeds(r, a, d) <==> NoInstall(r, g, a) && NoTake(r, g, a)
  {
    var t, req, p := r.events[a].tid, From(r, a).req, LastInstall(r, a);
    if NoInstall(r, g, a) && NoTake(r, g, a) {
      UndisturbedUnlockSucceeds(r, g, a, d);
    } else {
      PendingNonce(r, a);
      TakeLeadsTo(r, a);
      if !Sh(r, a).nonceValid {
        NoNonceFails(r, t, a, d, req);
      } else {
        WrongNonceFails(r, t, a, d, req, From(r, p).nonce);
      }
    }
  }

  lemma {:induction false} StaysPending(r: Run, g: nat, a: nat)
    requires Valid(r) && g < a <= |r.events| && IsInstall(r, g) && NoInstall(r, g, a) && NoTake(r, g, a)
    ensures Sh(r, a).nonceValid
  {
    NonceEffect(r, a - 1);
    if a > g + 1 { StaysPending(r, g, a - 1); }
  }

  /** A too-short unlock request is answered without touching anything: it never reaches the nonce. */
  lemma ShortUnlockTouchesNothing(r: Run, c: nat, d: nat)
    requires Valid(r) && c < d <= |r.events| && r.events[c].Call? && r.events[c].req.Unlock?
    requires r.events[c].req.inLen < UNLOCK_REQUEST_LEN
    requires Busy(r, r.events[c].tid, c, d)
    ensures Pcs(r, d, r.events[c].tid) == Done(r.events[c].req, Failed(BufferTooSmall))
    ensures Sh(r, c + 1) == Sh(r, c)
  {
    EventSteps(r, c);
    if d > c + 1 {
      ShortUnlockTouchesNothing(r, c, d - 1);
      EventSteps(r, d - 1);
    }
  }
}
