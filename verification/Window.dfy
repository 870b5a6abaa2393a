/** The permissive window over whole runs: its exact end, and the lease. */
module Window {
  import opened Common
  import opened DriverState
  import opened DriverMachine

  /** Event `i` is the locked section of a permissive check. */
  predicate IsCheck(r: Run, i: nat)
    requires i < |r.events| < |r.states|
  {
    From(r, i).CheckLock?
  }

  /** Event `i` is the locked section that opens the window. */
  predicate IsEnter(r: Run, i: nat)
    requires i < |r.events| < |r.states|
  {
    From(r, i).EnterLock?
  }

  /** The clock sample a check or an entry brought to its locked section. */
  function Sample(r: Run, i: nat): int
    requires i < |r.events| < |r.states| && (IsCheck(r, i) || IsEnter(r, i))
  {
    From(r, i).now
  }

  predicate AnswersTrue(r: Run, i: nat)
    requires i < |r.events| < |r.states|
  {
    IsCheck(r, i) && ActiveAt(Sh(r, i), Sample(r, i))
  }

  /** A check answers FALSE at the unlocked read or in its locked section. */
  predicate AnswersFalse(r: Run, i: nat)
    requires i < |r.events| < |r.states|
  {
    || (From(r, i).ReadFlag? && !Sh(r, i).permissive)
    || (IsCheck(r, i) && !ActiveAt(Sh(r, i), Sample(r, i)))
  }

  predicate Closes(r: Run, i: nat)
    requires i < |r.events| < |r.states|
  {
    Sh(r, i).permissive && !Sh(r, i + 1).permissive
  }

  predicate Extends(r: Run, i: nat)
    requires i < |r.events| < |r.states|
  {
    IsCheck(r, i) && Sh(r, i + 1).expires > Sh(r, i).expires
  }

  ghost predicate NoEnter(r: Run, lo: int, hi: int)
    requires -1 <= lo && hi <= |r.events| < |r.states|
  {
    forall k :: lo < k < hi ==> !IsEnter(r, k)
  }

  ghost predicate NoClose(r: Run, lo: int, hi: int)
    requires -1 <= lo && hi <= |r.events| < |r.states|
  {
    forall k :: lo < k < hi ==> !Closes(r, k)
  }

  lemma NextWindow(cfg: Config, s: Shared, pc: Pc, inp: Input)
    requires WellFormed(s) && Next(cfg, s, pc, inp).To?
    ensures var s' := Next(cfg, s, pc, inp).sh;
      if pc.EnterLock? then s' == EnterSection(s, pc.now)
      else if pc.CheckLock? then s' == CheckSection(s, pc.now)
      else s'.permissive == s.permissive && s'.expires == s.expires
  {
  }

  /** Only the two locked sections touch the window. */
  lemma WindowEffect(r: Run, i: nat)
    requires Valid(r) && i < |r.events|
    ensures IsEnter(r, i) ==> Sh(r, i + 1) == EnterSection(Sh(r, i), Sample(r, i))
    ensures IsCheck(r, i) ==> Sh(r, i + 1) == CheckSection(Sh(r, i), Sample(r, i))
    ensures !IsEnter(r, i) && !IsCheck(r, i) ==>
      Sh(r, i + 1).permissive == Sh(r, i).permissive && Sh(r, i + 1).expires == Sh(r, i).expires
  {
    EventSteps(r, i);
    if r.events[i].Move? { NextWindow(r.cfg, Sh(r, i), From(r, i), r.events[i].inp); }
  }

  function LastEnter(r: Run, i: nat): (e: int)
    requires i <= |r.events| < |r.states|
    ensures -1 <= e < i
    ensures e >= 0 ==> IsEnter(r, e)
    ensures NoEnter(r, e, i)
  {
    if i == 0 then -1 else if IsEnter(r, i - 1) then i - 1 else LastEnter(r, i - 1)
  }

  /** An open window was opened by an unlock, and nothing has closed it since. */
  lemma {:induction false} OpenSinceLastEnter(r: Run, i: nat)
    requires Valid(r) && i <= |r.events|
    ensures Sh(r, i).permissive ==> LastEnter(r, i) >= 0 && NoClose(r, LastEnter(r, i), i)
  {
    if i > 0 {
      OpenSinceLastEnter(r, i - 1);
      WindowEffect(r, i - 1);
    }
  }

  /** `end` is the largest of the entry's own end and the leases granted since. */
  ghost predicate IsWindowEnd(r: Run, e: nat, i: nat, end: int)
    requires e < i <= |r.events| < |r.states| && IsEnter(r, e)
  {
    && end >= Sample(r, e) + WINDOW
    && (forall c :: e < c < i && AnswersTrue(r, c) ==> end >= Sample(r, c) + GRACE)
    && (|| end == Sample(r, e) + WINDOW
        || exists c :: e < c < i && AnswersTrue(r, c) && end == Sample(r, c) + GRACE)
  }

  /** On any clock: until something closes it, the window is open and ends exactly at its largest promise. */
  lemma {:induction false} WindowEndsAtLargestPromise(r: Run, e: nat, i: nat)
    requires Valid(r) && e < i <= |r.events| && IsEnter(r, e)
    requires NoEnter(r, e, i) && NoClose(r, e, i)
    ensures Sh(r, i).permissive
    ensures IsWindowEnd(r, e, i, Sh(r, i).expires)
    ensures forall c :: e < c < i && IsCheck(r, c) ==> AnswersTrue(r, c)
  {
    WindowEffect(r, i - 1);
    if i > e + 1 {
      WindowEndsAtLargestPromise(r, e, i - 1);
      if IsCheck(r, i - 1) {
        assert !Closes(r, i - 1);
        assert AnswersTrue(r, i - 1);
      }
    }
  }

  /** With samples in order, the end is the later of the entry's window and the last check's lease. */
  lemma WindowEndOnOrderedClock(r: Run, e: nat, last: nat, i: nat)
    requires Valid(r) && e < i <= |r.events| && IsEnter(r, e)
    requires NoEnter(r, e, i) && NoClose(r, e, i)
    requires e < last < i && IsCheck(r, last)
    requires forall c :: e < c < i && IsCheck(r, c) ==> Sample(r, c) <= Sample(r, last)
    ensures Sh(r, i).expires == Max(Sample(r, e) + WINDOW, Sample(r, last) + GRACE)
  {
    WindowEndsAtLargestPromise(r, e, i);
  }

  /** The window outlives its original ten minutes exactly when some check in it ran in the last two seconds or later. */
  lemma WindowOutlivesOriginal(r: Run, e: nat, i: nat)
    requires Valid(r) && e < i <= |r.events| && IsEnter(r, e)
    requires NoEnter(r, e, i) && NoClose(r, e, i)
    ensures Sh(r, i).expires > Sample(r, e) + WINDOW <==>
      exists c :: e < c < i && AnswersTrue(r, c) && Sample(r, c) > Sample(r, e) + WINDOW - GRACE
  {
    WindowEndsAtLargestPromise(r, e, i);
  }

  function Extensions(r: Run, e: nat, i: nat): nat
    requires e < i <= |r.events| < |r.states|
  {
    if i == e + 1 then 0 else Extensions(r, e, i - 1) + if Extends(r, i - 1) then 1 else 0
  }

  /** A check that neither follows nor causes a closing answers TRUE, and lengthens the window by less than the grace. */
  lemma CheckInOpenWindow(r: Run, c: nat)
    requires Valid(r) && c < |r.events| && IsCheck(r, c) && Sh(r, c).permissive && !Closes(r, c)
    ensures AnswersTrue(r, c) && 0 <= Sh(r, c + 1).expires - Sh(r, c).expires < GRACE
  {
    WindowEffect(r, c);
  }

  lemma OneExtension(r: Run, c: nat)
    requires Valid(r) && c < |r.events| && !IsEnter(r, c) && Sh(r, c).permissive && !Closes(r, c)
    ensures var added := Sh(r, c + 1).expires - Sh(r, c).expires; if Extends(r, c) then 0 < added < GRACE else added == 0
  {
    if IsCheck(r, c) { CheckInOpenWindow(r, c); } else { WindowEffect(r, c); }
  }

  lemma {:induction false} ExtensionsAddUp(r: Run, e: nat, i: nat)
    requires Valid(r) && e < i <= |r.events| && IsEnter(r, e)
    requires NoEnter(r, e, i) && NoClose(r, e, i)
    ensures Sh(r, i).permissive
    ensures var k := Extensions(r, e, i); var added := Sh(r, i).expires - (Sample(r, e) + WINDOW);
      if k == 0 then added == 0 else 0 < added < k * GRACE
  {
    if i == e + 1 {
      WindowEffect(r, e);
    } else {
      ExtensionsAddUp(r, e, i - 1);
      OneExtension(r, i - 1);
    }
  }

  /** Each extension adds more than nothing and less than two seconds, so k of them stay below 2k seconds. */
  lemma ExtensionsAreShort(r: Run, e: nat, i: nat)
    requires Valid(r) && e < i <= |r.events| && IsEnter(r, e)
    requires NoEnter(r, e, i) && NoClose(r, e, i)
    ensures Sh(r, i).permissive
    ensures forall c :: e < c < i && Extends(r, c) ==> 0 < Sh(r, c + 1).expires - Sh(r, c).expires < GRACE
    ensures var k := Extensions(r, e, i); var added := Sh(r, i).expires - (Sample(r, e) + WINDOW);
      if k == 0 then added == 0 else 0 < added < k * GRACE
  {
    ExtensionsAddUp(r, e, i);
    forall c | e < c < i && Extends(r, c) ensures 0 < Sh(r, c + 1).expires - Sh(r, c).expires < GRACE {
      ExtensionsAddUp(r, e, c);
      OneExtension(r, c);
    }
  }

  /** Once marked closed, the window stays closed until the next entry, whatever the clock does. */
  lemma {:induction false} ClosedStaysClosed(r: Run, i: nat, j: nat)
    requires Valid(r) && i <= j <= |r.events|
    requires !Sh(r, i).permissive && NoEnter(r, i as int - 1, j)
    ensures !Sh(r, j).permissive
    ensures forall c :: i <= c < j && (IsCheck(r, c) || From(r, c).ReadFlag?) ==> AnswersFalse(r, c)
  {
    if i < j {
      ClosedStaysClosed(r, i, j - 1);
      WindowEffect(r, j - 1);
    }
  }

  // -------- the lease --------

  /** From a check that answered TRUE at sample `n` up to `j`, the window stays open past `n` + 2 s. */
  lemma {:induction false} LeaseHolds(r: Run, i: nat, j: nat)
    requires Valid(r) && i < j <= |r.events| && AnswersTrue(r, i)
    requires forall k :: i < k < j && IsEnter(r, k) ==> Sample(r, k) >= Sample(r, i) - (WINDOW - GRACE)
    requires forall k :: i < k < j && IsCheck(r, k) ==> Sample(r, k) < Sample(r, i) + GRACE
    ensures Sh(r, j).permissive && Sh(r, j).expires >= Sample(r, i) + GRACE
  {
    WindowEffect(r, j - 1);
    if j > i + 1 { LeaseHolds(r, i, j - 1); }
  }

  /** Lease agreement: a FALSE answer after a TRUE one needs a check that sampled two seconds later. */
  lemma LeaseAgreement(r: Run, i: nat, j: nat)
    requires Valid(r) && i < j < |r.events| && AnswersTrue(r, i) && AnswersFalse(r, j)
    requires forall k :: i < k < j && IsEnter(r, k) ==> Sample(r, k) >= Sample(r, i) - (WINDOW - GRACE)
    ensures exists k :: i < k <= j && IsCheck(r, k) && Sample(r, k) >= Sample(r, i) + GRACE
  {
    if forall k :: i < k < j && IsCheck(r, k) ==> Sample(r, k) < Sample(r, i) + GRACE {
      LeaseHolds(r, i, j);
    }
  }

  /** An entry inside a lease keeps it exactly when its sample is at most 598 s older than the lease's. */
  lemma EntryKeepsLease(s: Shared, n: int, entry: int)
    ensures (forall m :: m < n + GRACE ==> ActiveAt(EnterSection(s, entry), m)) <==> entry >= n - (WINDOW - GRACE)
  {
    if entry < n - (WINDOW - GRACE) {
      assert !ActiveAt(EnterSection(s, entry), n + GRACE - 1);
    }
  }
}
