/** Tamper accounting over every interleaving: the reported count is the number of recorded refusals, one each. */
module Tamper {
  import opened DriverState
  import opened DriverMachine
  import opened Safety

  /** Event `i` increments gTamperCount. */
  predicate IsRecord(r: Run, i: nat)
    requires i < |r.events| < |r.states|
  {
    From(r, i).Record?
  }

  /** Event `i` returns a refusal to its caller: access denied, handle stripped, unload or unlock refused. */
  predicate ReturnsRefusal(r: Run, i: nat)
    requires i < |r.events| < |r.states|
  {
    From(r, i).Done? && (From(r, i).outcome.Denied? || From(r, i).outcome.Stripped? || From(r, i).outcome.Refused?)
  }

  function Records(r: Run, i: nat): nat
    requires i <= |r.events| < |r.states|
  {
    if i == 0 then 0 else Records(r, i - 1) + if IsRecord(r, i - 1) then 1 else 0
  }

  function Refusals(r: Run, i: nat): nat
    requires i <= |r.events| < |r.states|
  {
    if i == 0 then 0 else Refusals(r, i - 1) + if ReturnsRefusal(r, i - 1) then 1 else 0
  }

  predicate Returning(pc: Pc) {
    pc.Done? && Recorded(pc.outcome)
  }

  /** Threads that have recorded a refusal and not yet returned it. */
  function InFlight(s: State): set<nat> {
    set t | t in s.threads && Returning(s.threads[t])
  }

  lemma NextTamper(cfg: Config, s: Shared, pc: Pc, inp: Input)
    requires WellFormed(s) && Next(cfg, s, pc, inp).To?
    ensures Next(cfg, s, pc, inp).sh.tamper == if pc.Record? then (s.tamper + 1) % WORD else s.tamper
  {
  }

  lemma NextReturning(cfg: Config, s: Shared, pc: Pc, inp: Input)
    requires WellFormed(s) && Next(cfg, s, pc, inp).To?
    requires !pc.Record? || Recorded(pc.outcome)
    ensures Returning(Next(cfg, s, pc, inp).pc) <==> pc.Record?
  {
  }

  lemma NextRecord(cfg: Config, s: Shared, pc: Pc, inp: Input)
    requires WellFormed(s) && Next(cfg, s, pc, inp).To?
    requires !pc.Record? || Recorded(pc.outcome)
    ensures Next(cfg, s, pc, inp).sh.tamper == if pc.Record? then (s.tamper + 1) % WORD else s.tamper
    ensures pc.Record? ==> Next(cfg, s, pc, inp).pc == Done(pc.req, pc.outcome)
    ensures Returning(Next(cfg, s, pc, inp).pc) <==> pc.Record?
  {
    NextTamper(cfg, s, pc, inp);
    NextReturning(cfg, s, pc, inp);
  }

  lemma RecordEffect(r: Run, i: nat)
    requires Valid(r) && i < |r.events|
    ensures var t := r.events[i].tid;
      && Sh(r, i + 1).tamper == (if IsRecord(r, i) then (Sh(r, i).tamper + 1) % WORD else Sh(r, i).tamper)
      && (Returning(Pcs(r, i + 1, t)) <==> IsRecord(r, i))
      && (Returning(Pcs(r, i, t)) <==> ReturnsRefusal(r, i))
  {
    EventSteps(r, i);
    GateInvHolds(r, i, r.events[i].tid);
    if r.events[i].Move? { NextRecord(r.cfg, Sh(r, i), From(r, i), r.events[i].inp); }
  }

  lemma InFlightEffect(r: Run, i: nat)
    requires Valid(r) && i < |r.events|
    ensures |InFlight(r.states[i + 1])| ==
      |InFlight(r.states[i])| + (if IsRecord(r, i) then 1 else 0) - (if ReturnsRefusal(r, i) then 1 else 0)
  {
    var t, s, s' := r.events[i].tid, r.states[i], r.states[i + 1];
    RecordEffect(r, i);
    assert StepAt(r, i);
    assert s'.threads == s.threads[t := s'.threads[t]];
    var rest := InFlight(s) - {t};
    assert Returning(PcOf(s, t)) <==> t in InFlight(s);
    assert InFlight(s) == if t in InFlight(s) then rest + {t} else rest;
    assert InFlight(s') == if Returning(PcOf(s', t)) then rest + {t} else rest;
  }

  lemma CountUp(n: nat)
    ensures (n % WORD + 1) % WORD == (n + 1) % WORD
  {
  }

  /** Conservation: the counter is the number of records modulo 2^32, and each record is one refusal, returned or about to be. */
  lemma {:induction false} TamperConservation(r: Run, i: nat)
    requires Valid(r) && i <= |r.events|
    ensures Sh(r, i).tamper == Records(r, i) % WORD
    ensures Records(r, i) == Refusals(r, i) + |InFlight(r.states[i])|
  {
    if i == 0 {
      InitialState(r);
      assert InFlight(r.states[0]) == {};
    } else {
      TamperConservation(r, i - 1);
      RecordEffect(r, i - 1);
      InFlightEffect(r, i - 1);
      CountUp(Records(r, i - 1));
    }
  }

  /** With every thread idle the counter is exactly the number of refusals returned, modulo 2^32. */
  lemma TamperAtRest(r: Run, i: nat)
    requires Valid(r) && i <= |r.events|
    requires forall t :: t in r.states[i].threads ==> r.states[i].threads[t].Idle?
    ensures Sh(r, i).tamper == Refusals(r, i) % WORD
  {
    TamperConservation(r, i);
    assert InFlight(r.states[i]) == {};
  }

  // -------- the status reply --------

  /** Thread `t` at position `i` is on its way to a status reply, or has it. */
  predicate Reporting(pc: Pc) {
    pc.StatusExpires? || pc.StatusTamper? || pc.StatusHeartbeat? || (pc.Done? && pc.outcome.Reported?)
  }

  /** The step before, and what it read. */
  predicate ReportStep(s: Shared, pc: Pc, pc': Pc) {
    match pc'
    case StatusExpires(req, active) =>
      || (pc == ReadFlag(req) && !s.permissive && !active)
      || (pc.CheckLock? && pc.req == req && active == (s.permissive && pc.now < s.expires))
    case StatusTamper(req, active, expires) => pc == StatusExpires(req, active) && expires == s.expires
    case StatusHeartbeat(req, active, expires, tamper) => pc == StatusTamper(req, active, expires) && tamper == s.tamper
    case Done(req, Reported(reply)) =>
      pc == StatusHeartbeat(req, reply.permissive, reply.expires, reply.tamper) && reply.heartbeat == s.heartbeat
    case _ => false
  }

  lemma IntoReport(cfg: Config, s: Shared, pc: Pc, inp: Input)
    requires WellFormed(s) && Next(cfg, s, pc, inp).To? && (!pc.Record? || Recorded(pc.outcome))
    ensures Reporting(Next(cfg, s, pc, inp).pc) ==> ReportStep(s, pc, Next(cfg, s, pc, inp).pc)
  {
    if Reporting(Next(cfg, s, pc, inp).pc) {
      OnlyReportLeadsOn(cfg, s, pc, inp);
      if pc.ReadFlag? || pc.CheckLock? { CheckLeadsOn(cfg, s, pc, inp); } else { ReadLeadsOn(s, pc, inp); }
    }
  }

  lemma OnlyReportLeadsOn(cfg: Config, s: Shared, pc: Pc, inp: Input)
    requires WellFormed(s) && Next(cfg, s, pc, inp).To? && (!pc.Record? || Recorded(pc.outcome))
    requires Reporting(Next(cfg, s, pc, inp).pc)
    ensures pc.ReadFlag? || pc.CheckLock? || pc.StatusExpires? || pc.StatusTamper? || pc.StatusHeartbeat?
  {
  }

  lemma CheckLeadsOn(cfg: Config, s: Shared, pc: Pc, inp: Input)
    requires (pc.ReadFlag? || pc.CheckLock?) && StepCheck(cfg, s, pc, inp).To?
    ensures Reporting(StepCheck(cfg, s, pc, inp).pc) ==> ReportStep(s, pc, StepCheck(cfg, s, pc, inp).pc)
  {
  }

  lemma ReadLeadsOn(s: Shared, pc: Pc, inp: Input)
    requires (pc.StatusExpires? || pc.StatusTamper? || pc.StatusHeartbeat?) && StepReport(s, pc, inp).To?
    ensures ReportStep(s, pc, StepReport(s, pc, inp).pc)
  {
  }

  lemma BeforeReport(r: Run, i: nat, t: nat) returns (h: nat)
    requires Valid(r) && i <= |r.events| && Reporting(Pcs(r, i, t))
    ensures h < i && r.events[h].tid == t && Pcs(r, h, t) == From(r, h) && ReportStep(Sh(r, h), From(r, h), Pcs(r, i, t))
  {
    LastKeepsPc(r, i, t);
    h := Last(r, i, t);
    EventSteps(r, h);
    GateInvHolds(r, h, t);
    if r.events[h].Move? { IntoReport(r.cfg, Sh(r, h), From(r, h), r.events[h].inp); }
  }

  /** A status reply carries the answer of its own check at `c`, and then the variables as it read them, in this order. */
  lemma ReportedReply(r: Run, i: nat, t: nat) returns (c: nat, e: nat, k: nat, h: nat)
    requires Valid(r) && i <= |r.events| && Pcs(r, i, t).Done? && Pcs(r, i, t).outcome.Reported?
    ensures c < e < k < h < i && r.events[c].tid == r.events[e].tid == r.events[k].tid == r.events[h].tid == t
    ensures var reply := Pcs(r, i, t).outcome.reply;
      && (From(r, c).CheckLock? || (From(r, c).ReadFlag? && !Sh(r, c).permissive))
      && (reply.permissive <==> From(r, c).CheckLock? && Sh(r, c).permissive && From(r, c).now < Sh(r, c).expires)
      && reply.expires == Sh(r, e).expires && reply.tamper == Sh(r, k).tamper && reply.heartbeat == Sh(r, h).heartbeat
  {
    h := BeforeReport(r, i, t);
    k := BeforeReport(r, h, t);
    e := BeforeReport(r, k, t);
    c := BeforeReport(r, e, t);
  }

  /** And the count in it is the number of refusals recorded when the counter was read. */
  lemma ReportedCount(r: Run, i: nat, t: nat) returns (k: nat)
    requires Valid(r) && i <= |r.events| && Pcs(r, i, t).Done? && Pcs(r, i, t).outcome.Reported?
    ensures k < i && r.events[k].tid == t
    ensures Pcs(r, i, t).outcome.reply.tamper == Records(r, k) % WORD
    ensures Records(r, k) == Refusals(r, k) + |InFlight(r.states[k])|
  {
    var c, e, h;
    c, e, k, h := ReportedReply(r, i, t);
    TamperConservation(r, k);
  }

  /** A strip splits the requested rights into what was granted and what was taken, which is never nothing. */
  lemma StripSplits(r: Run, i: nat, t: nat)
    requires Valid(r) && i <= |r.events| && Pcs(r, i, t).Done? && Pcs(r, i, t).req.ProcessHandle?
    requires Pcs(r, i, t).outcome.Stripped?
    ensures var req, o := Pcs(r, i, t).req, Pcs(r, i, t).outcome;
      && o.granted & o.denied == 0 && o.granted | o.denied == req.desired
      && o.denied != 0 && o.granted & 0x082B == 0 && o.denied & 0xFFFF_F7D4 == 0
  {
    GatedOutcomes(r, i, t);
  }
}
