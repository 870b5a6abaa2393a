/** How leases chain on a clock that only goes forward, from a window that a run from boot reaches. */
module Chaining {
  import opened Common
  import opened DriverState
  import opened DriverMachine
  import opened DriverHandlers
  import opened Window

  // -------- forward clocks --------

  predicate IsSample(e: Event) {
    e.Move? && e.inp.Clock?
  }

  /** All threads' clock samples, in the order they are taken, never go back. */
  ghost predicate ClockForward(r: Run) {
    forall i, j :: 0 <= i < j < |r.events| && IsSample(r.events[i]) && IsSample(r.events[j]) ==>
      r.events[i].inp.now <= r.events[j].inp.now
  }

  ghost predicate SampledUpTo(r: Run, now: int) {
    forall i :: 0 <= i < |r.events| && IsSample(r.events[i]) ==> r.events[i].inp.now <= now
  }

  /** From `r` to `r2` the clock reads `now`. */
  ghost predicate SampledAt(r: Run, r2: Run, now: int) {
    forall i :: |r.events| <= i < |r2.events| && IsSample(r2.events[i]) ==> r2.events[i].inp.now == now
  }

  lemma StaysForward(r: Run, r': Run, now: int)
    requires Continues(r, r') && ClockForward(r) && SampledUpTo(r, now) && SampledAt(r, r', now)
    ensures ClockForward(r') && SampledUpTo(r', now)
  {
    forall i | 0 <= i < |r.events| ensures r'.events[i] == r.events[i] {
    }
  }

  // -------- leases chain --------

  lemma NoEnterGrows(r: Run, m: Run, r': Run)
    requires Valid(r) && Valid(m) && Valid(r') && Continues(r, m) && Continues(m, r')
    requires NoEnter(m, |r.events| as int - 1, |m.events|) && NoEnter(r', |m.events| as int - 1, |r'.events|)
    ensures NoEnter(r', |r.events| as int - 1, |r'.events|)
  {
    forall k | |r.events| <= k < |m.events| ensures !IsEnter(r', k) {
      assert !IsEnter(m, k);
      SameFrom(m, r', k);
    }
  }

  /** A status request: any caller may send one, again and again, and its handler asks LgIsPermissive. */
  const POLL: Request := Status(STATUS_REPLY_LEN)

  /** From `r` to `r2` there are only status requests of thread `t`. */
  ghost predicate OnlyPolls(r: Run, r2: Run, t: nat) {
    forall i :: |r.events| <= i < |r2.events| ==> r2.events[i].tid == t && (r2.events[i].Call? ==> r2.events[i].req == POLL)
  }

  /** From `r` to `r2` thread `t` polls, the clock reads `now`, and nothing enters the window. */
  ghost predicate Polls(r: Run, r2: Run, t: nat, now: int)
    requires |r.events| < |r.states| && |r2.events| < |r2.states|
  {
    Continues(r, r2) && OnlyPolls(r, r2, t) && SampledAt(r, r2, now) && NoEnter(r2, |r.events| as int - 1, |r2.events|)
  }

  lemma PollsOn(r: Run, m: Run, r': Run, t: nat, now: int)
    requires Valid(r) && Valid(m) && Valid(r') && Polls(r, m, t, now) && Polls(m, r', t, now)
    ensures Polls(r, r', t, now)
  {
    NoEnterGrows(r, m, r');
    forall i | 0 <= i < |m.events| ensures r'.events[i] == m.events[i] {
    }
  }

  /** One step of a poll. */
  lemma PollStep(r: Run, t: nat, inp: Input, now: int, sh: Shared, pc: Pc) returns (r': Run)
    requires Valid(r) && WellFormed(End(r).sh) && !PcOf(End(r), t).EnterLock? && (inp.Clock? ==> inp.now == now)
    requires Next(r.cfg, End(r).sh, PcOf(End(r), t), inp) == To(sh, pc)
    ensures Valid(r') && Polls(r, r', t, now)
    ensures End(r').sh == sh && PcOf(End(r'), t) == pc && WellFormed(sh)
  {
    r' := Advance(r, t, inp, sh, pc);
    assert r'.states[|r.events|] == End(r);
  }

  /** One more step of a poll that began at `r0`. */
  lemma PollMore(r0: Run, r: Run, t: nat, inp: Input, now: int, sh: Shared, pc: Pc) returns (r': Run)
    requires Valid(r0) && Valid(r) && Polls(r0, r, t, now)
    requires WellFormed(End(r).sh) && !PcOf(End(r), t).EnterLock? && (inp.Clock? ==> inp.now == now)
    requires Next(r.cfg, End(r).sh, PcOf(End(r), t), inp) == To(sh, pc)
    ensures Valid(r') && Polls(r0, r', t, now)
    ensures End(r').sh == sh && PcOf(End(r'), t) == pc && WellFormed(sh)
  {
    r' := PollStep(r, t, inp, now, sh, pc);
    PollsOn(r0, r, r', t, now);
  }

  lemma BeginPoll(r: Run, t: nat, now: int) returns (r': Run)
    requires Valid(r) && End(r).sh.permissive && PcOf(End(r), t).Idle?
    ensures Valid(r') && Polls(r, r', t, now)
    ensures End(r').sh == End(r).sh && PcOf(End(r'), t) == CheckLock(POLL, now) && WellFormed(End(r).sh)
  {
    var s := End(r).sh;
    StaysWellFormed(r, |r.events|);
    var r1 := Enter(r, t, POLL);
    var r2 := PollMore(r, r1, t, Tau, now, s, CheckClock(POLL));
    r' := PollMore(r, r2, t, Clock(now), now, s, CheckLock(POLL, now));
  }

  /** The steps of a status reply change nothing. */
  lemma ReportSteps(cfg: Config, s: Shared, pc: Pc)
    requires WellFormed(s)
    ensures pc.StatusExpires? ==> Next(cfg, s, pc, Tau) == To(s, StatusTamper(pc.req, pc.active, s.expires))
    ensures pc.StatusTamper? ==> Next(cfg, s, pc, Tau) == To(s, StatusHeartbeat(pc.req, pc.active, pc.expires, s.tamper))
    ensures pc.StatusHeartbeat? ==>
      Next(cfg, s, pc, Tau) == To(s, Done(pc.req, Reported(Reply(pc.active, pc.expires, pc.tamper, s.heartbeat))))
    ensures pc.Done? ==> Next(cfg, s, pc, Tau) == To(s, Idle)
  {
  }

  lemma ReadStatus(r0: Run, r: Run, t: nat, now: int) returns (r': Run)
    requires Valid(r0) && Valid(r) && Polls(r0, r, t, now)
    requires WellFormed(End(r).sh) && PcOf(End(r), t) == StatusExpires(POLL, true)
    ensures Valid(r') && Polls(r0, r', t, now) && WellFormed(End(r').sh)
    ensures var s := End(r).sh; End(r').sh == s && PcOf(End(r'), t) == StatusHeartbeat(POLL, true, s.expires, s.tamper)
  {
    var s := End(r).sh;
    ReportSteps(r.cfg, s, PcOf(End(r), t));
    var m := PollMore(r0, r, t, Tau, now, s, StatusTamper(POLL, true, s.expires));
    ReportSteps(r.cfg, s, PcOf(End(m), t));
    r' := PollMore(r0, m, t, Tau, now, s, StatusHeartbeat(POLL, true, s.expires, s.tamper));
  }

  lemma FinishPoll(r0: Run, r: Run, t: nat, now: int) returns (r': Run)
    requires Valid(r0) && Valid(r) && Polls(r0, r, t, now)
    requires WellFormed(End(r).sh) && PcOf(End(r), t).StatusHeartbeat? && PcOf(End(r), t).req == POLL
    ensures Valid(r') && Polls(r0, r', t, now)
    ensures End(r').sh == End(r).sh && PcOf(End(r'), t).Idle?
  {
    var s, pc := End(r).sh, PcOf(End(r), t);
    ReportSteps(r.cfg, s, pc);
    var m := PollMore(r0, r, t, Tau, now, s, Done(POLL, Reported(Reply(pc.active, pc.expires, pc.tamper, s.heartbeat))));
    ReportSteps(r.cfg, s, PcOf(End(m), t));
    r' := PollMore(r0, m, t, Tau, now, s, Idle);
  }

  /** One status request of an idle thread, one tick before the window's end. */
  lemma OneMoreLease(r: Run, t: nat) returns (r': Run)
    requires Valid(r) && End(r).sh.permissive && PcOf(End(r), t).Idle?
    requires ClockForward(r) && SampledUpTo(r, End(r).sh.expires - 1)
    ensures Valid(r') && Continues(r, r') && OnlyPolls(r, r', t)
    ensures PcOf(End(r'), t).Idle? && End(r').sh.permissive
    ensures End(r').sh.expires == End(r).sh.expires - 1 + GRACE
    ensures NoEnter(r', |r.events| as int - 1, |r'.events|)
    ensures ClockForward(r') && SampledUpTo(r', End(r).sh.expires - 1)
  {
    var now := End(r).sh.expires - 1;
    var m := BeginPoll(r, t, now);
    var n := PollMore(r, m, t, Tau, now, CheckSection(End(m).sh, now), StatusExpires(POLL, true));
    n := ReadStatus(r, n, t, now);
    r' := FinishPoll(r, n, t, now);
    StaysForward(r, r', now);
  }

  /**
   * A window that is still open can be kept open past any time by status requests alone, without another unlock, on a
   * clock that only goes forward.
   */
  lemma {:induction false} LeasesChain(r: Run, t: nat, until: int) returns (r': Run)
    requires Valid(r) && End(r).sh.permissive && PcOf(End(r), t).Idle?
    requires ClockForward(r) && SampledUpTo(r, End(r).sh.expires - 1)
    ensures Valid(r') && Continues(r, r') && OnlyPolls(r, r', t)
    ensures End(r').sh.permissive && End(r').sh.expires > until
    ensures NoEnter(r', |r.events| as int - 1, |r'.events|)
    ensures ClockForward(r') && SampledUpTo(r', End(r').sh.expires - 1)
    decreases until - End(r).sh.expires
  {
    if End(r).sh.expires > until {
      r' := r;
    } else {
      var m := OneMoreLease(r, t);
      r' := LeasesChain(m, t, until);
      NoEnterGrows(r, m, r');
      forall i | 0 <= i < |m.events| ensures r'.events[i] == m.events[i] {
      }
    }
  }

  // -------- from boot --------

  /** One call on a calm environment keeps the clock forward. */
  lemma CalmCall(r: Run, t: nat, req: Request, c: int, nonce: Bytes) returns (r': Run)
    requires Valid(r) && PcOf(End(r), t).Idle? && |nonce| == NONCE_LEN
    requires ClockForward(r) && SampledUpTo(r, c)
    ensures WellFormed(End(r).sh) && Valid(r') && r'.cfg == r.cfg && PcOf(End(r'), t).Idle?
    ensures End(r').sh == Handle(r.cfg, End(r).sh, req, CalmEnv(c, nonce)).0
    ensures ClockForward(r') && SampledUpTo(r', c)
  {
    var env := CalmEnv(c, nonce);
    r' := RunWholeCall(r, t, req, env);
    forall i | |r.events| <= i < |r'.events| && IsSample(r'.events[i]) ensures r'.events[i].inp.now == c {
      assert EnvTime(env, r'.events[i].inp.now);
    }
    StaysForward(r, r', c);
  }

  /** An open window is reached from boot by one nonce request and one unlock, whatever the key and the nonce. */
  lemma OpenWindowReached(cfg: Config, derived: Bytes, nonce: Bytes, c: int) returns (r: Run)
    requires |cfg.hmac(derived, LABEL)| == VERIFIER_LEN && |nonce| == NONCE_LEN
    ensures Valid(r) && r.cfg == cfg && PcOf(End(r), 0).Idle?
    ensures End(r).sh.permissive && End(r).sh.expires == c + WINDOW
    ensures ClockForward(r) && SampledUpTo(r, c)
  {
    var boot := Boot(true, Some([]), Some(1), Some(cfg.hmac(derived, LABEL)));
    var r0 := Run(cfg, boot, [], [State(Booted(boot), map[])]);
    CalmUnlockOpens(cfg, Booted(boot), derived, nonce, c);
    var r1 := CalmCall(r0, 0, GetNonce(NONCE_LEN), c, nonce);
    r := CalmCall(r1, 0, Unlock(UNLOCK_REQUEST_LEN, cfg.hmac(derived, nonce), derived), c, nonce);
  }

  /**
   * So the bound that the lease is said to have fails: after one unlock at time `c`, on a forward clock and with nothing
   * but status requests since, the window is still open past any time.
   */
  lemma LeaseIsNotBounded(cfg: Config, derived: Bytes, nonce: Bytes, c: int, until: int) returns (r: Run, r': Run)
    requires |cfg.hmac(derived, LABEL)| == VERIFIER_LEN && |nonce| == NONCE_LEN
    ensures Valid(r) && End(r).sh.permissive && End(r).sh.expires == c + WINDOW
    ensures Valid(r') && Continues(r, r') && OnlyPolls(r, r', 0) && ClockForward(r') && NoEnter(r', |r.events| as int - 1, |r'.events|)
    ensures End(r').sh.permissive && End(r').sh.expires > until
  {
    r := OpenWindowReached(cfg, derived, nonce, c);
    r' := LeasesChain(r, 0, until);
  }
}
