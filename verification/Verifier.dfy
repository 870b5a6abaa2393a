/** The recovery verifier over whole runs: the retry rate limit, where a loaded verifier came from, and when it is final. */
module Verifier {
  import opened Common
  import opened DriverState
  import opened DriverHandlers
  import opened DriverMachine
  import opened Unlocking

  // -------- rate limit --------

  /** Event `i` is a compare-and-swap on gVerifierLastRetry that succeeds. */
  predicate IsWin(r: Run, i: nat)
    requires i < |r.events| < |r.states|
  {
    From(r, i).ReloadCas? && Sh(r, i).lastRetry == From(r, i).last
  }

  function Stamp(r: Run, i: nat): int
    requires i < |r.events| < |r.states| && IsWin(r, i)
  {
    From(r, i).now
  }

  ghost predicate PositiveClock(r: Run) {
    forall i :: 0 <= i < |r.events| && r.events[i].Move? && r.events[i].inp.Clock? ==> r.events[i].inp.now > 0
  }

  predicate RetryInv(pc: Pc) {
    && (pc.ReloadLast? ==> pc.now > 0)
    && (pc.ReloadCas? ==> pc.now > 0 && RetryDue(pc.now, pc.last))
  }

  lemma NextRetry(cfg: Config, s: Shared, pc: Pc, inp: Input)
    requires WellFormed(s) && Next(cfg, s, pc, inp).To?
    ensures var s' := Next(cfg, s, pc, inp).sh; s'.lastRetry == if pc.ReloadCas? && s.lastRetry == pc.last then pc.now else s.lastRetry
    ensures RetryInv(pc) && (inp.Clock? ==> inp.now > 0) ==> RetryInv(Next(cfg, s, pc, inp).pc)
  {
  }

  lemma {:induction false} RetryInvHolds(r: Run, i: nat, t: nat)
    requires Valid(r) && PositiveClock(r) && i <= |r.events|
    ensures RetryInv(Pcs(r, i, t))
  {
    if i == 0 {
      InitialState(r);
    } else {
      RetryInvHolds(r, i - 1, t);
      EventSteps(r, i - 1);
      var e := r.events[i - 1];
      if e.tid == t && e.Move? { NextRetry(r.cfg, Sh(r, i - 1), From(r, i - 1), e.inp); }
    }
  }

  lemma RetryEffect(r: Run, i: nat)
    requires Valid(r) && i < |r.events|
    ensures Sh(r, i + 1).lastRetry == if IsWin(r, i) then Stamp(r, i) else Sh(r, i).lastRetry
  {
    EventSteps(r, i);
    if r.events[i].Move? { NextRetry(r.cfg, Sh(r, i), From(r, i), r.events[i].inp); }
  }

  /** The retry cell never goes back, and each win moves it at least ten seconds on. */
  lemma {:induction false} RetryCellGrows(r: Run, i: nat, k: nat)
    requires Valid(r) && PositiveClock(r) && i <= k <= |r.events|
    ensures 0 <= Sh(r, i).lastRetry <= Sh(r, k).lastRetry
    ensures i < k && IsWin(r, i) ==> Sh(r, k).lastRetry >= Stamp(r, i) > Sh(r, i).lastRetry
    decreases k
  {
    if i == k {
      if i == 0 { InitialState(r); } else { RetryCellGrows(r, 0, i - 1); RetryStep(r, i - 1); }
    } else {
      RetryCellGrows(r, i, k - 1);
      RetryStep(r, k - 1);
    }
  }

  lemma RetryStep(r: Run, i: nat)
    requires Valid(r) && PositiveClock(r) && i < |r.events| && Sh(r, i).lastRetry >= 0
    ensures if IsWin(r, i)
            then Stamp(r, i) > 0 && RetryDue(Stamp(r, i), Sh(r, i).lastRetry) && Sh(r, i + 1).lastRetry == Stamp(r, i) > Sh(r, i).lastRetry
            else Sh(r, i + 1).lastRetry == Sh(r, i).lastRetry
  {
    RetryInvHolds(r, i, r.events[i].tid);
    RetryEffect(r, i);
  }

  /** Any two winning stamps are at least ten seconds apart, in the order of the wins. */
  lemma WinsAreApart(r: Run, i: nat, j: nat)
    requires Valid(r) && PositiveClock(r) && i < j < |r.events| && IsWin(r, i) && IsWin(r, j)
    ensures Stamp(r, j) - Stamp(r, i) >= RETRY_INTERVAL
  {
    RetryCellGrows(r, 0, i);
    RetryCellGrows(r, i, j);
    RetryInvHolds(r, j, r.events[j].tid);
  }

  /** No ABA: between a winner's read of the cell and its compare-and-swap nobody else won. */
  lemma NoWinSinceRead(r: Run, i: nat) returns (q: nat)
    requires Valid(r) && PositiveClock(r) && i < |r.events| && IsWin(r, i)
    ensures q < i && r.events[q].tid == r.events[i].tid && From(r, q).ReloadLast? && Sh(r, q).lastRetry == From(r, i).last
    ensures forall k :: q < k < i ==> !IsWin(r, k)
  {
    LastKeepsPc(r, i, r.events[i].tid);
    q := Last(r, i, r.events[i].tid);
    EventSteps(r, q);
    if r.events[q].Move? { IntoLoad(r.cfg, Sh(r, q), From(r, q), r.events[q].inp); }
    forall k | q < k < i ensures !IsWin(r, k) {
      RetryCellGrows(r, q, k);
      RetryCellGrows(r, k, i);
    }
  }

  lemma {:induction false} CellStands(r: Run, q: nat, i: nat)
    requires Valid(r) && q <= i <= |r.events| && forall k :: q <= k < i ==> !IsWin(r, k)
    ensures Sh(r, i).lastRetry == Sh(r, q).lastRetry
  {
    if q < i {
      CellStands(r, q, i - 1);
      RetryEffect(r, i - 1);
    }
  }

  lemma AfterLastRead(r: Run, q: nat, i: nat)
    requires Valid(r) && q < i < |r.events| && From(r, q).ReloadLast? && r.events[q].tid == r.events[i].tid
    requires Last(r, i, r.events[i].tid) == q
    ensures var last, now := Sh(r, q).lastRetry, From(r, q).now;
      From(r, i) == if last == 0 || now - last >= 100_000_000 then ReloadCas(From(r, q).req, now, last) else NonceRandom(From(r, q).req)
  {
    EventSteps(r, q);
    EventSteps(r, i);
    LastKeepsPc(r, i, r.events[i].tid);
  }

  /**
   * A retry that is due happens: a thread that read the retry cell at `q`, its sample at least ten seconds past it or
   * the cell still zero, goes on to load at its next step `i` exactly when no other thread has won in between. A retry
   * that is not due yet never does.
   */
  lemma DueRetryWins(r: Run, q: nat, i: nat)
    requires Valid(r) && PositiveClock(r) && q < i < |r.events| && From(r, q).ReloadLast?
    requires r.events[q].tid == r.events[i].tid && Last(r, i, r.events[i].tid) == q
    ensures var last, now := Sh(r, q).lastRetry, From(r, q).now;
      if last == 0 || now - last >= 100_000_000
      then Pcs(r, i + 1, r.events[i].tid).LoadOpen? <==> forall k :: q < k < i ==> !IsWin(r, k)
      else From(r, i).NonceRandom?
  {
    AfterLastRead(r, q, i);
    EventSteps(r, i);
    RetryEffect(r, q);
    if From(r, i).ReloadCas? {
      CasLeadsOn(r, i);
      if forall k :: q < k < i ==> !IsWin(r, k) {
        CellStands(r, q, i);
      } else {
        var k :| q < k < i && IsWin(r, k);
        RetryCellGrows(r, q, k);
        RetryCellGrows(r, k, i);
      }
    }
  }

  lemma CasLeadsOn(r: Run, i: nat)
    requires Valid(r) && i < |r.events| && From(r, i).ReloadCas?
    ensures Pcs(r, i + 1, r.events[i].tid).LoadOpen? <==> IsWin(r, i)
  {
    EventSteps(r, i);
  }

  /** How many wins before `i` carry a stamp in [lo, hi]. */
  function WinsStamped(r: Run, lo: int, hi: int, i: nat): nat
    requires i <= |r.events| < |r.states|
  {
    if i == 0 then 0
    else WinsStamped(r, lo, hi, i - 1) + if IsWin(r, i - 1) && lo <= Stamp(r, i - 1) <= hi then 1 else 0
  }

  /** Event `k` is a win whose stamp leaves room in [lo, hi] for `n` wins ten seconds apart. */
  predicate WinAbove(r: Run, lo: int, hi: int, n: nat, k: nat)
    requires k < |r.events| < |r.states|
  {
    IsWin(r, k) && lo + (n - 1) * RETRY_INTERVAL <= Stamp(r, k) <= hi
  }

  /** The last of n wins with stamps in [lo, hi] is at least 10 (n - 1) s into it. */
  lemma {:induction false} WinsSpread(r: Run, lo: int, hi: int, i: nat) returns (k: nat)
    requires Valid(r) && PositiveClock(r) && i <= |r.events|
    ensures var n := WinsStamped(r, lo, hi, i); n > 0 ==> k < i && WinAbove(r, lo, hi, n, k)
  {
    k := 0;
    if i > 0 {
      k := WinsSpread(r, lo, hi, i - 1);
      var n := WinsStamped(r, lo, hi, i - 1);
      if IsWin(r, i - 1) && lo <= Stamp(r, i - 1) <= hi {
        if n > 0 { WinsAreApart(r, k, i - 1); }
        k := i - 1;
      }
    }
  }

  /** At most floor(L / 10 s) + 1 wins carry stamps in any interval of length L. */
  lemma RetryRateLimit(r: Run, lo: int, hi: int)
    requires Valid(r) && PositiveClock(r) && lo <= hi
    ensures WinsStamped(r, lo, hi, |r.events|) <= (hi - lo) / RETRY_INTERVAL + 1
  {
    var _ := WinsSpread(r, lo, hi, |r.events|);
  }

  // -------- where a loaded verifier came from --------

  /** Each step of a load has one predecessor. */
  lemma IntoLoad(cfg: Config, s: Shared, pc: Pc, inp: Input)
    requires WellFormed(s) && Next(cfg, s, pc, inp).To?
    ensures var pc' := Next(cfg, s, pc, inp).pc;
      && (pc'.ReloadCas? ==> pc.ReloadLast? && pc'.last == s.lastRetry && pc'.now == pc.now)
      && (pc'.LoadOpen? ==> pc.ReloadCas? && s.lastRetry == pc.last)
      && (pc'.LoadSalt? ==> pc.LoadOpen? && inp == Opened(true))
      && (pc'.LoadIterations? ==> pc.LoadSalt? && inp.ReadBytes? && inp.data.Some? && |inp.data.value| <= SALT_MAX_LEN)
      && (pc'.LoadVerifier? ==> pc.LoadIterations? && inp.ReadDword? && inp.value.Some?)
      && (pc'.LoadLatch? ==> pc.LoadVerifier? && inp.ReadBytes? && inp.data.Some? && |inp.data.value| == VERIFIER_LEN
                             && Next(cfg, s, pc, inp).sh.verifier == inp.data.value)
  {
  }

  lemma PrevLoadStep(r: Run, i: nat) returns (p: nat)
    requires Valid(r) && i < |r.events|
    requires var pc := From(r, i); pc.LoadOpen? || pc.LoadSalt? || pc.LoadIterations? || pc.LoadVerifier? || pc.LoadLatch?
    ensures p < i && p == Prev(r, i) && r.events[p].Move? && r.events[p].tid == r.events[i].tid
    ensures var pc, pc', s, inp := From(r, p), From(r, i), Sh(r, p), r.events[p].inp;
      && (pc'.LoadOpen? ==> IsWin(r, p))
      && (pc'.LoadSalt? ==> pc.LoadOpen? && inp == Opened(true))
      && (pc'.LoadIterations? ==> pc.LoadSalt? && inp.ReadBytes? && inp.data.Some? && |inp.data.value| <= SALT_MAX_LEN)
      && (pc'.LoadVerifier? ==> pc.LoadIterations? && inp.ReadDword? && inp.value.Some?)
      && (pc'.LoadLatch? ==> pc.LoadVerifier? && inp.ReadBytes? && inp.data.Some? && |inp.data.value| == VERIFIER_LEN
                             && Sh(r, p + 1).verifier == inp.data.value)
  {
    LastKeepsPc(r, i, r.events[i].tid);
    p := Prev(r, i);
    EventSteps(r, p);
    IntoLoad(r.cfg, Sh(r, p), From(r, p), r.events[p].inp);
  }

  datatype LoadTrail = LoadTrail(win: nat, open: nat, salt: nat, iterations: nat, verifier: nat)

  /** `w` is one load call, by the thread of the latch event `l`, every part of which succeeded. */
  ghost predicate IsLoadTrail(r: Run, l: nat, w: LoadTrail)
    requires l < |r.events| < |r.states|
  {
    && w.win < w.open < w.salt < w.iterations < w.verifier < l
    && r.events[w.win].tid == r.events[w.open].tid == r.events[w.salt].tid == r.events[w.iterations].tid
         == r.events[w.verifier].tid == r.events[l].tid
    && (forall k :: w.win <= k < l && r.events[k].tid == r.events[l].tid ==>
          k == w.win || k == w.open || k == w.salt || k == w.iterations || k == w.verifier)
    && From(r, l).LoadLatch? && IsWin(r, w.win)
    && From(r, w.open).LoadOpen? && r.events[w.open].inp == Opened(true)
    && From(r, w.salt).LoadSalt? && r.events[w.salt].inp.ReadBytes? && r.events[w.salt].inp.data.Some?
    && |r.events[w.salt].inp.data.value| <= SALT_MAX_LEN
    && From(r, w.iterations).LoadIterations? && r.events[w.iterations].inp.ReadDword? && r.events[w.iterations].inp.value.Some?
    && From(r, w.verifier).LoadVerifier? && r.events[w.verifier].inp.ReadBytes? && r.events[w.verifier].inp.data.Some?
    && |r.events[w.verifier].inp.data.value| == VERIFIER_LEN
    && Sh(r, w.verifier + 1).verifier == r.events[w.verifier].inp.data.value
  }

  lemma LatchHasTrail(r: Run, l: nat) returns (w: LoadTrail)
    requires Valid(r) && l < |r.events| && From(r, l).LoadLatch?
    ensures IsLoadTrail(r, l, w)
  {
    var verifier := PrevLoadStep(r, l);
    var iterations := PrevLoadStep(r, verifier);
    var salt := PrevLoadStep(r, iterations);
    var open := PrevLoadStep(r, salt);
    var win := PrevLoadStep(r, open);
    w := LoadTrail(win, open, salt, iterations, verifier);
  }

  lemma NextVerifier(cfg: Config, s: Shared, pc: Pc, inp: Input)
    requires WellFormed(s) && Next(cfg, s, pc, inp).To?
    ensures var s' := Next(cfg, s, pc, inp).sh;
      && s'.verifierLoaded == (s.verifierLoaded || pc.LoadLatch?)
      && (s'.verifier != s.verifier ==> pc.LoadVerifier?)
  {
    if !LoadPc(pc) { OthersLeaveVerifier(cfg, s, pc, inp); }
  }

  lemma OthersLeaveVerifier(cfg: Config, s: Shared, pc: Pc, inp: Input)
    requires WellFormed(s) && Next(cfg, s, pc, inp).To? && !LoadPc(pc)
    ensures var s' := Next(cfg, s, pc, inp).sh; s'.verifierLoaded == s.verifierLoaded && s'.verifier == s.verifier
  {
  }

  lemma VerifierEffect(r: Run, i: nat)
    requires Valid(r) && i < |r.events|
    ensures Sh(r, i + 1).verifierLoaded == (Sh(r, i).verifierLoaded || From(r, i).LoadLatch?)
    ensures !From(r, i).LoadVerifier? ==> Sh(r, i + 1).verifier == Sh(r, i).verifier
  {
    EventSteps(r, i);
    if r.events[i].Move? { NextVerifier(r.cfg, Sh(r, i), From(r, i), r.events[i].inp); }
  }

  function LastLatch(r: Run, i: nat): (l: int)
    requires i <= |r.events| < |r.states|
    ensures -1 <= l < i
    ensures l >= 0 ==> From(r, l).LoadLatch?
    ensures forall k :: l < k < i ==> !From(r, k).LoadLatch?
  {
    if i == 0 then -1 else if From(r, i - 1).LoadLatch? then i - 1 else LastLatch(r, i - 1)
  }

  lemma {:induction false} LoadedByBootOrLatch(r: Run, i: nat)
    requires Valid(r) && i <= |r.events|
    ensures Sh(r, i).verifierLoaded <==> Booted(r.boot).verifierLoaded || LastLatch(r, i) >= 0
  {
    if i > 0 {
      LoadedByBootOrLatch(r, i - 1);
      VerifierEffect(r, i - 1);
    }
  }

  lemma {:induction false} VerifierUntouched(r: Run, i: nat, j: nat)
    requires Valid(r) && i <= j <= |r.events|
    requires forall k :: i <= k < j ==> !From(r, k).LoadVerifier?
    ensures Sh(r, j).verifier == Sh(r, i).verifier
  {
    if i < j {
      VerifierUntouched(r, i, j - 1);
      VerifierEffect(r, j - 1);
    }
  }

  /** The bytes the load `w` put into the verifier buffer are there until another load writes it. */
  lemma LoadedBytesStay(r: Run, l: nat, w: LoadTrail, key: nat)
    requires Valid(r) && l < key < |r.events| && IsLoadTrail(r, l, w)
    requires forall k :: w.verifier < k < key ==> !From(r, k).LoadVerifier?
    ensures Sh(r, key).verifier == r.events[w.verifier].inp.data.value
  {
    VerifierUntouched(r, w.verifier + 1, key);
  }

  lemma LoadBehind(r: Run, gate: nat) returns (l: nat, w: LoadTrail)
    requires Valid(r) && gate < |r.events| && Sh(r, gate).verifierLoaded && !Booted(r.boot).verifierLoaded
    ensures l < gate && IsLoadTrail(r, l, w)
  {
    LoadedByBootOrLatch(r, gate);
    l := LastLatch(r, gate);
    w := LatchHasTrail(r, l);
  }

  /**
   * A key check passes only after one load read salt, iteration count and a 32-byte verifier: at boot, or in one
   * retry `w`. The key was then checked against exactly the bytes that load read, unless another load has written the
   * verifier buffer in between. What becomes of the unlock afterwards does not matter.
   */
  lemma KeyCheckNeedsWholeLoad(r: Run, k: nat) returns (l: nat, w: LoadTrail)
    requires Valid(r) && k < |r.events| && !Booted(r.boot).verifierLoaded
    requires From(r, k).KeyCompare? && Pcs(r, k + 1, r.events[k].tid).AnswerCompare?
    ensures l < Prev(r, k) < k && From(r, Prev(r, k)).KeyGate? && IsLoadTrail(r, l, w)
    ensures From(r, k).req.Unlock? && KeyMatches(r.cfg, Sh(r, k), From(r, k).req.derived)
    ensures (forall i :: w.verifier < i < k ==> !From(r, i).LoadVerifier?) ==>
      r.cfg.hmac(From(r, k).req.derived, LABEL) == r.events[w.verifier].inp.data.value
  {
    var gate := PrevUnlockStep(r, k);
    l, w := LoadBehind(r, gate);
    EventSteps(r, k);
    IntoUnlock(r.cfg, Sh(r, k), From(r, k), r.events[k].inp);
    if forall i :: w.verifier < i < k ==> !From(r, i).LoadVerifier? {
      LoadedBytesStay(r, l, w, k);
    }
  }

  /** So it is for every unlock that opens the window. */
  lemma OpeningNeedsWholeLoad(r: Run, e: nat, u: Trail) returns (l: nat, w: LoadTrail)
    requires Valid(r) && e < |r.events| && IsTrail(r, e, u) && !Booted(r.boot).verifierLoaded
    ensures l < u.key && IsLoadTrail(r, l, w)
    ensures (forall i :: w.verifier < i < u.key ==> !From(r, i).LoadVerifier?) ==>
      r.cfg.hmac(From(r, e).req.derived, LABEL) == r.events[w.verifier].inp.data.value
  {
    TrailPassesKeyCheck(r, e, u);
    l, w := KeyCheckNeedsWholeLoad(r, u.key);
  }

  lemma StaysBetween(r: Run, p: nat, i: nat, t: nat)
    requires Valid(r) && p < i <= |r.events| && r.events[p].tid == t
    requires forall q :: p < q < i ==> r.events[q].tid != t
    ensures Pcs(r, p + 1, t) == Pcs(r, i, t)
  {
    LastKeepsPc(r, i, t);
    assert Last(r, i, t) == p;
  }

  lemma KeyThenAnswer(r: Run, e: nat, u: Trail)
    requires e < |r.events| < |r.states| && IsTrail(r, e, u)
    ensures u.key < u.answer < e && From(r, u.key).KeyCompare? && From(r, u.answer).AnswerCompare?
    ensures r.events[u.key].tid == r.events[u.answer].tid == r.events[e].tid
    ensures forall q :: u.key < q < u.answer ==> r.events[q].tid != r.events[e].tid
  {
  }

  lemma TrailPassesKeyCheck(r: Run, e: nat, u: Trail)
    requires Valid(r) && e < |r.events| && IsTrail(r, e, u)
    ensures From(r, u.key).KeyCompare? && Pcs(r, u.key + 1, r.events[u.key].tid).AnswerCompare?
  {
    KeyThenAnswer(r, e, u);
    StaysBetween(r, u.key, u.answer, r.events[e].tid);
  }

  lemma BootLoadIsWhole(b: Boot)
    ensures Booted(b).verifierLoaded <==>
      && b.open && b.iterations.Some?
      && b.salt.Some? && |b.salt.value| <= SALT_MAX_LEN
      && b.verifier.Some? && |b.verifier.value| == VERIFIER_LEN
    ensures Booted(b).verifierLoaded ==> Booted(b).verifier == b.verifier.value
  {
  }

  // -------- when a loaded verifier is final --------

  /** A thread past the gate at lockguard.c:49 that can still reach a registry load. */
  predicate MayReload(s: Shared, pc: Pc) {
    || pc.ReloadClock?
    || (pc.ReloadLast? && RetryDue(pc.now, s.lastRetry))
    || (pc.ReloadCas? && pc.last == s.lastRetry)
    || pc.LoadOpen? || pc.LoadSalt? || pc.LoadIterations? || pc.LoadVerifier?
  }

  ghost predicate CanReload(s: State) {
    exists t: nat :: MayReload(s.sh, PcOf(s, t))
  }

  lemma NextMayReload(cfg: Config, s: Shared, pc: Pc, inp: Input)
    requires WellFormed(s) && Next(cfg, s, pc, inp).To? && s.verifierLoaded && !MayReload(s, pc)
    ensures var r := Next(cfg, s, pc, inp); r.sh.verifierLoaded && r.sh.verifier == s.verifier && r.sh.lastRetry == s.lastRetry
    ensures !MayReload(s, Next(cfg, s, pc, inp).pc)
  {
    NextVerifier(cfg, s, pc, inp);
    NextRetry(cfg, s, pc, inp);
    NoWayToReload(cfg, s, pc, inp);
  }

  lemma NoWayToReload(cfg: Config, s: Shared, pc: Pc, inp: Input)
    requires WellFormed(s) && Next(cfg, s, pc, inp).To? && s.verifierLoaded && !MayReload(s, pc)
    ensures !MayReload(s, Next(cfg, s, pc, inp).pc)
  {
  }

  lemma EntryMayNotReload(cfg: Config, s: Shared, req: Request)
    ensures !MayReload(s, Entry(cfg, req))
  {
  }

  lemma FinalStep(r: Run, i: nat, t: nat)
    requires Valid(r) && i < |r.events| && Sh(r, i).verifierLoaded && !CanReload(r.states[i])
    ensures var s, s' := Sh(r, i), Sh(r, i + 1); s'.verifierLoaded && s'.verifier == s.verifier && s'.lastRetry == s.lastRetry
    ensures !MayReload(Sh(r, i), Pcs(r, i + 1, t))
  {
    var e := r.events[i];
    assert !MayReload(Sh(r, i), PcOf(r.states[i], e.tid));
    assert !MayReload(Sh(r, i), PcOf(r.states[i], t));
    EventSteps(r, i);
    if e.Move? { NextMayReload(r.cfg, Sh(r, i), From(r, i), e.inp); }
    else { EntryMayNotReload(r.cfg, Sh(r, i), e.req); }
    if t != e.tid { assert Pcs(r, i + 1, t) == Pcs(r, i, t); }
  }

  /** Loaded, and no thread on its way to a load: the verifier is final, whatever the registry holds later. */
  lemma {:induction false} LatchedVerifierIsFinal(r: Run, i: nat, j: nat)
    requires Valid(r) && i <= j <= |r.events|
    requires Sh(r, i).verifierLoaded && !CanReload(r.states[i])
    ensures Sh(r, j).verifierLoaded && Sh(r, j).verifier == Sh(r, i).verifier
    ensures !CanReload(r.states[j])
  {
    if i < j {
      LatchedVerifierIsFinal(r, i, j - 1);
      FinalStep(r, j - 1, 0);
      forall t: nat ensures !MayReload(Sh(r, j), PcOf(r.states[j], t)) {
        FinalStep(r, j - 1, t);
      }
    }
  }

  /** A load at boot is final from the start. */
  lemma BootLoadIsFinal(r: Run, j: nat)
    requires Valid(r) && j <= |r.events| && Booted(r.boot).verifierLoaded
    ensures Sh(r, j).verifierLoaded && Sh(r, j).verifier == r.boot.verifier.value
  {
    InitialState(r);
    LatchedVerifierIsFinal(r, 0, j);
  }

  /** So a new password written to the registry opens nothing before the next boot. */
  lemma OldKeyUntilReboot(r: Run, e: nat)
    requires Valid(r) && e < |r.events| && From(r, e).EnterLock? && Booted(r.boot).verifierLoaded
    ensures From(r, e).req.Unlock? && r.cfg.hmac(From(r, e).req.derived, LABEL) == r.boot.verifier.value
  {
    var w := EveryEntryHasTrail(r, e);
    BootLoadIsFinal(r, w.key);
  }

  lemma Resume(r: Run, t: nat, inp: Input, sh: Shared, pc: Pc) returns (r': Run)
    requires Valid(r) && PcOf(End(r), t) != Idle && WellFormed(End(r).sh)
    requires Next(r.cfg, End(r).sh, PcOf(End(r), t), inp) == To(sh, pc)
    ensures Valid(r') && Continues(r, r') && WellFormed(sh)
    ensures End(r').sh == sh && PcOf(End(r'), t) == pc
    ensures forall u: nat :: u != t ==> PcOf(End(r'), u) == PcOf(End(r), u)
  {
    r' := Advance(r, t, inp, sh, pc);
  }

  /** Where a verifier read of `v` leads: on to the latch, or past it when the value is short. */
  function AfterLoad(pc: Pc, v: Bytes): Pc
    requires !pc.Idle?
  {
    if |v| == VERIFIER_LEN then LoadLatch(pc.req) else NonceRandom(pc.req)
  }

  /** A thread past the compare-and-swap loads whatever the registry then holds, over what the buffer held. */
  lemma LoadNow(r: Run, t: nat, v: Bytes) returns (r': Run)
    requires Valid(r) && WellFormed(End(r).sh) && |v| <= VERIFIER_LEN
    requires var pc := PcOf(End(r), t); pc.LoadOpen? || pc.LoadSalt? || pc.LoadIterations? || pc.LoadVerifier?
    ensures Valid(r') && Continues(r, r') && End(r').sh.verifier == Overlay(v, End(r).sh.verifier)
    ensures PcOf(End(r'), t) == AfterLoad(PcOf(End(r), t), v)
    ensures End(r').sh.verifierLoaded == End(r).sh.verifierLoaded && End(r').sh.lastRetry == End(r).sh.lastRetry
    ensures forall u: nat :: u != t ==> PcOf(End(r'), u) == PcOf(End(r), u)
    decreases var pc := PcOf(End(r), t); if pc.LoadOpen? then 3 else if pc.LoadSalt? then 2 else if pc.LoadIterations? then 1 else 0
  {
    var s, pc := End(r).sh, PcOf(End(r), t);
    match pc {
      case LoadOpen(req) =>
        var m := Resume(r, t, Opened(true), s, LoadSalt(req));
        r' := LoadNow(m, t, v);
      case LoadSalt(req) =>
        var m := Resume(r, t, ReadBytes(Some([])), StoreSalt(s, Some([])).value, LoadIterations(req));
        r' := LoadNow(m, t, v);
      case LoadIterations(req) =>
        var m := Resume(r, t, ReadDword(Some(0)), s.(iterations := 0), LoadVerifier(req));
        r' := LoadNow(m, t, v);
      case LoadVerifier(req) =>
        r' := Resume(r, t, ReadBytes(Some(v)), s.(verifier := Overlay(v, s.verifier)), AfterLoad(pc, v));
    }
  }

  lemma ReloadSteps(cfg: Config, s: Shared, pc: Pc)
    requires WellFormed(s)
    ensures pc.ReloadClock? ==> forall now :: Next(cfg, s, pc, Clock(now)) == To(s, ReloadLast(pc.req, now))
    ensures pc.ReloadLast? && RetryDue(pc.now, s.lastRetry) ==> Next(cfg, s, pc, Tau) == To(s, ReloadCas(pc.req, pc.now, s.lastRetry))
    ensures pc.ReloadCas? && pc.last == s.lastRetry ==> Next(cfg, s, pc, Tau) == To(s.(lastRetry := pc.now), LoadOpen(pc.req))
  {
  }

  /** A thread that may reload can write any value of at most 32 bytes over the verifier, loaded already or not. */
  lemma ReloadNow(r: Run, t: nat, v: Bytes) returns (r': Run)
    requires Valid(r) && WellFormed(End(r).sh) && |v| <= VERIFIER_LEN && MayReload(End(r).sh, PcOf(End(r), t))
    ensures Valid(r') && Continues(r, r') && End(r').sh.verifier == Overlay(v, End(r).sh.verifier)
    ensures PcOf(End(r'), t) == AfterLoad(PcOf(End(r), t), v)
    ensures End(r').sh.verifierLoaded == End(r).sh.verifierLoaded
    ensures forall u: nat :: u != t ==> PcOf(End(r'), u) == PcOf(End(r), u)
    decreases var pc := PcOf(End(r), t); if pc.ReloadClock? then 2 else if pc.ReloadLast? then 1 else 0
  {
    var s, pc := End(r).sh, PcOf(End(r), t);
    ReloadSteps(r.cfg, s, pc);
    match pc {
      case ReloadClock(req) =>
        var now := s.lastRetry + RETRY_INTERVAL;
        var m := Resume(r, t, Clock(now), s, ReloadLast(req, now));
        r' := ReloadNow(m, t, v);
      case ReloadLast(req, now) =>
        var m := Resume(r, t, Tau, s, ReloadCas(req, now, s.lastRetry));
        r' := ReloadNow(m, t, v);
      case ReloadCas(req, now, last) =>
        var m := Resume(r, t, Tau, s.(lastRetry := now), LoadOpen(req));
        r' := LoadNow(m, t, v);
      case _ =>
        r' := LoadNow(r, t, v);
    }
  }

  /** Exactly when a loaded verifier can still change: when some thread is past the gate and on its way to a load. */
  lemma LatchFinalExactlyWhen(r: Run)
    requires Valid(r) && End(r).sh.verifierLoaded
    ensures (exists r' :: Valid(r') && Continues(r, r') && End(r').sh.verifier != End(r).sh.verifier) <==> CanReload(End(r))
  {
    var n := |r.events|;
    if CanReload(End(r)) {
      var t: nat :| MayReload(End(r).sh, PcOf(End(r), t));
      StaysWellFormed(r, n);
      var v := End(r).sh.verifier[0 := !End(r).sh.verifier[0]];
      var r' := ReloadNow(r, t, v);
      assert Overlay(v, End(r).sh.verifier) == v;
    }
    forall r' | Valid(r') && Continues(r, r') && !CanReload(End(r)) ensures End(r').sh.verifier == End(r).sh.verifier {
      assert r'.states[n] == r.states[n];
      LatchedVerifierIsFinal(r', n, |r'.events|);
    }
  }

  /**
   * The bad case happens: a second thread loads and latches one verifier while the first is held past the gate. What
   * the first then reads replaces it, and a short value leaves a mixture of the two under the latch.
   */
  lemma LatchCanStillChange(cfg: Config, v1: Bytes, v2: Bytes) returns (r: Run, r': Run)
    requires |v1| == VERIFIER_LEN && |v2| <= VERIFIER_LEN
    ensures Valid(r) && r.cfg == cfg && End(r).sh.verifierLoaded && End(r).sh.verifier == v1
    ensures !Booted(r.boot).verifierLoaded
    ensures Valid(r') && Continues(r, r') && End(r').sh.verifierLoaded && End(r').sh.verifier == v2 + v1[|v2|..]
    ensures forall u: nat :: u > 1 ==> PcOf(End(r'), u).Idle?
  {
    var req := GetNonce(NONCE_LEN);
    var boot := Boot(false, None, None, None);
    var r0 := Run(cfg, boot, [], [State(Booted(boot), map[])]);
    var r1 := Enter(r0, 0, req);
    var r2 := Enter(r1, 1, req);
    var s := End(r2).sh;
    var r3 := Resume(r2, 0, Irql(true), s, ReloadClock(req));
    var r4 := Resume(r3, 1, Irql(true), s, ReloadClock(req));
    var r5 := ReloadNow(r4, 1, v1);
    assert Overlay(v1, s.verifier) == v1;
    StaysWellFormed(r5, |r5.events|);
    r := Resume(r5, 1, Tau, End(r5).sh.(verifierLoaded := true), NonceRandom(PcOf(End(r5), 1).req));
    r' := ReloadNow(r, 0, v2);
  }

  /** So a key whose HMAC is the mixture that a short read left opens the window, though no load read that verifier. */
  lemma MixtureOpens(cfg: Config, v1: Bytes, v2: Bytes, derived: Bytes, nonce: Bytes, c: int) returns (r: Run)
    requires |v1| == VERIFIER_LEN && |v2| < VERIFIER_LEN && |nonce| == NONCE_LEN
    requires cfg.hmac(derived, LABEL) == v2 + v1[|v2|..]
    ensures Valid(r) && r.cfg == cfg && !Booted(r.boot).verifierLoaded
    ensures End(r).sh.permissive && End(r).sh.expires == c + WINDOW
  {
    var r0, r1 := LatchCanStillChange(cfg, v1, v2);
    StaysWellFormed(r1, |r1.events|);
    CalmUnlockOpens(cfg, End(r1).sh, derived, nonce, c);
    var r2 := RunWholeCall(r1, 2, GetNonce(NONCE_LEN), CalmEnv(c, nonce));
    r := RunWholeCall(r2, 2, Unlock(UNLOCK_REQUEST_LEN, cfg.hmac(derived, nonce), derived), CalmEnv(c, nonce));
  }
}
