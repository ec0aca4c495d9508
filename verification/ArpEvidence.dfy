/** ARP runs seen from the table: how much evidence there is, and what it does. */
module ArpEvidence {
  import opened Net
  import opened Attacks
  import opened Lifecycle
  import opened Detectors
  import opened DetectorTheory
  import opened ArpSpoofDetectors

  // A step as operations on the table.

  function Listed(e: Option<Evidence>): seq<Op> {
    if e.Some? then [Log(e.value)] else []
  }

  /** All the evidence one claim is, given the bindings at that moment. */
  function CheckOps(cfg: ArpConfig, b: Bindings, c: Claim): seq<Op>
    requires c.iface in cfg.own
  {
    var id := cfg.own[c.iface];
    if CheckGateway(cfg, id, c).Some? then Listed(CheckGateway(cfg, id, c))
    else Listed(CheckRouterCache(id, c)) + Listed(CheckHostCache(id, b, c)) + Listed(CheckImpersonation(cfg, id, b, c))
  }

  /** The claim a step puts to the checks, if any. */
  function ClaimOf(cfg: ArpConfig, x: Step): (c: Option<Claim>)
    ensures c.Some? ==> c.value.iface in cfg.own
  {
    match x
    case Packet(e) => if e.iface in cfg.own then Some(PacketClaim(e)) else None
    case Neighbour(iface, ip, mac, now) =>
      if iface in cfg.own && ip != cfg.own[iface].ip then Some(NeighbourClaim(iface, ip, mac, now)) else None
    case _ => None
  }

  function StepOps(cfg: ArpConfig, b: Bindings, x: Step): seq<Op> {
    if x.Tidy? then [Sweep(x.now)]
    else if ClaimOf(cfg, x).Some? then CheckOps(cfg, b, ClaimOf(cfg, x).value)
    else []
  }

  ghost function OpsOf(cfg: ArpConfig, xs: seq<Step>): seq<Op> {
    if xs == [] then []
    else
      var front := xs[..|xs| - 1];
      OpsOf(cfg, front) + StepOps(cfg, Run(cfg, ARP_START, front).bindings, xs[|xs| - 1])
  }

  lemma RaisedIsApplied(t: Table, e: Option<Evidence>, idleExpiry: Time)
    ensures Raised(t, e) == ApplyAll(t, Listed(e), idleExpiry)
  {
    if e.Some? {
      ApplySingle(t, Log(e.value), idleExpiry);
    }
  }

  lemma CheckedIsApplied(cfg: ArpConfig, s: ArpState, c: Claim)
    requires c.iface in cfg.own
    ensures Checked(cfg, s, c).table == ApplyAll(s.table, CheckOps(cfg, s.bindings, c), cfg.idleExpiry)
  {
    var id, idle := cfg.own[c.iface], cfg.idleExpiry;
    var g, r := CheckGateway(cfg, id, c), CheckRouterCache(id, c);
    var h, i := CheckHostCache(id, s.bindings, c), CheckImpersonation(cfg, id, s.bindings, c);
    if g.Some? {
      RaisedIsApplied(s.table, g, idle);
    } else {
      var t1 := Raised(s.table, r);
      var t2 := Raised(t1, h);
      RaisedIsApplied(s.table, r, idle);
      RaisedIsApplied(t1, h, idle);
      RaisedIsApplied(t2, i, idle);
      ApplyAllConcat(s.table, Listed(r), Listed(h), idle);
      ApplyAllConcat(s.table, Listed(r) + Listed(h), Listed(i), idle);
      assert Checked(cfg, s, c).table == Raised(t2, i);
    }
  }

  lemma StepIsApplied(cfg: ArpConfig, s: ArpState, x: Step)
    ensures Stepped(cfg, s, x).table == ApplyAll(s.table, StepOps(cfg, s.bindings, x), cfg.idleExpiry)
  {
    if x.Tidy? {
      ApplySingle(s.table, Sweep(x.now), cfg.idleExpiry);
    } else if ClaimOf(cfg, x).Some? {
      CheckedIsApplied(cfg, s, ClaimOf(cfg, x).value);
    }
  }

  lemma {:induction false} RunIsApplied(cfg: ArpConfig, xs: seq<Step>)
    ensures Run(cfg, ARP_START, xs).table == ApplyAll(EMPTY, OpsOf(cfg, xs), cfg.idleExpiry)
  {
    if xs != [] {
      var front, x := xs[..|xs| - 1], xs[|xs| - 1];
      RunIsApplied(cfg, front);
      var s := Run(cfg, ARP_START, front);
      StepIsApplied(cfg, s, x);
      ApplyAllConcat(EMPTY, OpsOf(cfg, front), StepOps(cfg, s.bindings, x), cfg.idleExpiry);
    }
  }

  /** Every sequence of calls, from the start-up resync on, is a run of steps. */
  datatype Machine = Machine(s: ArpState, lastResync: Time)

  ghost function Called(cfg: ArpConfig, m: Machine, e: PacketEvent, env: Env): Machine {
    Machine(Run(cfg, m.s, CallSteps(cfg, m.s.lastCleanup, m.lastResync, e, env)),
            if e.iface in cfg.own && e.timestamp - m.lastResync > cfg.resyncInterval then e.timestamp else m.lastResync)
  }

  ghost function Calls(cfg: ArpConfig, start: Env, calls: seq<(PacketEvent, Env)>): Machine {
    if calls == [] then Machine(Run(cfg, ARP_START, ResyncSteps(start)), 0.0)
    else Called(cfg, Calls(cfg, start, calls[..|calls| - 1]), calls[|calls| - 1].0, calls[|calls| - 1].1)
  }

  lemma {:induction false} CallsNext(cfg: ArpConfig, start: Env, calls: seq<(PacketEvent, Env)>, i: nat)
    requires i < |calls|
    ensures Calls(cfg, start, calls[..i + 1]) == Called(cfg, Calls(cfg, start, calls[..i]), calls[i].0, calls[i].1)
  {
    assert calls[..i + 1][..i] == calls[..i];
  }

  /** The steps that the start-up resync and then the calls set off, one after another. */
  ghost function StepsOf(cfg: ArpConfig, start: Env, calls: seq<(PacketEvent, Env)>): seq<Step> {
    if calls == [] then ResyncSteps(start)
    else
      var front, call := calls[..|calls| - 1], calls[|calls| - 1];
      var m := Calls(cfg, start, front);
      StepsOf(cfg, start, front) + CallSteps(cfg, m.s.lastCleanup, m.lastResync, call.0, call.1)
  }

  lemma {:induction false} CallsAreRuns(cfg: ArpConfig, start: Env, calls: seq<(PacketEvent, Env)>)
    ensures Calls(cfg, start, calls).s == Run(cfg, ARP_START, StepsOf(cfg, start, calls))
  {
    if calls != [] {
      var front, call := calls[..|calls| - 1], calls[|calls| - 1];
      var m := Calls(cfg, start, front);
      CallsAreRuns(cfg, start, front);
      RunConcat(cfg, ARP_START, StepsOf(cfg, start, front),
                CallSteps(cfg, m.s.lastCleanup, m.lastResync, call.0, call.1));
    }
  }

  // Conservation.

  /** Evidence is conserved: over any run the counts of all incidents add up to the
      alerts printed, an incident's count to its own alerts, and its [DECAYED] lines
      never exceed it. */
  lemma ArpEvidenceConserved(cfg: ArpConfig, xs: seq<Step>, k: Key)
    ensures
      var t := Run(cfg, ARP_START, xs).table;
      && TotalCount(t) == Alerts(t.log)
      && CountOf(t, k) == AlertsFor(t.log, k)
      && DecaysFor(t.log, k) <= CountOf(t, k)
  {
    RunIsApplied(cfg, xs);
    EvidenceConserved(OpsOf(cfg, xs), cfg.idleExpiry);
    CountIsAlerts(OpsOf(cfg, xs), k, cfg.idleExpiry);
  }

  lemma LogsAppended(t: Table, ops: seq<Op>, idleExpiry: Time)
    requires Ordered(t) && |ops| <= 3 && forall op :: op in ops ==> op.Log?
    ensures TotalCount(ApplyAll(t, ops, idleExpiry)) == TotalCount(t) + |ops|
  {
    if |ops| > 0 {
      var front := ops[..|ops| - 1];
      LogsAppended(t, front, idleExpiry);
      NothingForgotten(t, front, idleExpiry);
      ApplyTotal(ApplyAll(t, front, idleExpiry), ops[|ops| - 1], idleExpiry);
      assert ops[|ops| - 1] in ops;
    }
  }

  lemma ChecksAreFew(cfg: ArpConfig, b: Bindings, c: Claim)
    requires c.iface in cfg.own
    ensures |CheckOps(cfg, b, c)| <= 3 && forall op :: op in CheckOps(cfg, b, c) ==> op.Log?
    ensures ClaimsRouter(cfg.own[c.iface], c) ==> |CheckOps(cfg, b, c)| == 1
  {
  }

  lemma FalseRouterTeachesNothing(cfg: ArpConfig, s: ArpState, c: Claim)
    requires c.iface in cfg.own && ClaimsRouter(cfg.own[c.iface], c)
    ensures Checked(cfg, s, c).bindings == s.bindings && Checked(cfg, s, c).pending == s.pending
  {
  }

  lemma ReachableOrdered(cfg: ArpConfig, xs: seq<Step>)
    ensures Ordered(Run(cfg, ARP_START, xs).table)
  {
    RunIsApplied(cfg, xs);
    RunOrdered(OpsOf(cfg, xs), cfg.idleExpiry);
  }

  /** One claim adds at most three pieces of evidence. A false claim to be the router
      adds exactly one and teaches nothing. */
  lemma ClaimAdds(cfg: ArpConfig, xs: seq<Step>, c: Claim)
    requires c.iface in cfg.own
    ensures
      var s := Run(cfg, ARP_START, xs);
      var u := Checked(cfg, s, c);
      && TotalCount(s.table) <= TotalCount(u.table) <= TotalCount(s.table) + 3
      && (ClaimsRouter(cfg.own[c.iface], c) ==>
            TotalCount(u.table) == TotalCount(s.table) + 1 && u.bindings == s.bindings && u.pending == s.pending)
  {
    var s := Run(cfg, ARP_START, xs);
    ReachableOrdered(cfg, xs);
    CheckedIsApplied(cfg, s, c);
    ChecksAreFew(cfg, s.bindings, c);
    LogsAppended(s.table, CheckOps(cfg, s.bindings, c), cfg.idleExpiry);
    if ClaimsRouter(cfg.own[c.iface], c) {
      FalseRouterTeachesNothing(cfg, s, c);
    }
  }

  // Escalation.

  /** Cache poisoning is an observed fact, host impersonation only a claim, and claims
      to be the router are either. */
  predicate ArpGraded(cfg: ArpConfig, e: Evidence) {
    var claim := e.strength == ByCount(cfg.confirmThreshold);
    match e.check
    case HostsRouterCachePoisoned => e.strength == Fact
    case RouterCachePoisoned => e.strength == Fact
    case HostsHostCachePoisoned => e.strength == Fact
    case HostImpersonation => claim
    case HostImpersonationRouterTargeted => claim
    case GatewayImpersonation => claim || e.strength == Fact
    case GatewayImpersonationBroadcast => claim || e.strength == Fact
    case _ => false
  }

  predicate OpGraded(cfg: ArpConfig, op: Op) {
    op.Log? ==> ArpGraded(cfg, op.e)
  }

  /** A claim to be the router is a fact exactly when TCP or UDP traffic carries it. */
  lemma {:induction false} GatewayStrength(cfg: ArpConfig, b: Bindings, c: Claim)
    requires c.iface in cfg.own
    ensures forall op :: op in CheckOps(cfg, b, c) && ClaimsRouter(cfg.own[c.iface], c) ==>
              op.e.key.attacker == c.srcMac && (op.e.strength == Fact <==> c.proto != Arp)
  {
  }

  lemma {:induction false} StepGraded(cfg: ArpConfig, b: Bindings, x: Step)
    ensures forall op :: op in StepOps(cfg, b, x) ==> OpGraded(cfg, op)
  {
  }

  lemma {:induction false} RunGraded(cfg: ArpConfig, xs: seq<Step>)
    ensures forall op :: op in OpsOf(cfg, xs) ==> OpGraded(cfg, op)
  {
    if xs != [] {
      var front := xs[..|xs| - 1];
      RunGraded(cfg, front);
      StepGraded(cfg, Run(cfg, ARP_START, front).bindings, xs[|xs| - 1]);
    }
  }

  lemma {:induction false} HistoryGraded(cfg: ArpConfig, ops: seq<Op>, k: Key)
    requires forall op :: op in ops ==> OpGraded(cfg, op)
    ensures forall e :: e in HistoryOf(ops, k) ==> ArpGraded(cfg, e)
  {
    if ops != [] {
      var front := ops[..|ops| - 1];
      assert ops[|ops| - 1] in ops && forall op :: op in front ==> op in ops;
      HistoryGraded(cfg, front, k);
      assert OpGraded(cfg, ops[|ops| - 1]);
    }
  }

  /** The evidence of a run against one incident, in order. */
  ghost function CaseOf(cfg: ArpConfig, xs: seq<Step>, k: Key): seq<Evidence> {
    HistoryOf(OpsOf(cfg, xs), k)
  }

  /** In every case the check decides how strong a piece of evidence is. */
  lemma {:induction false} CaseGraded(cfg: ArpConfig, xs: seq<Step>, k: Key)
    ensures forall e :: e in CaseOf(cfg, xs, k) ==> ArpGraded(cfg, e)
    ensures GradedBy(CaseOf(cfg, xs, k), cfg.confirmThreshold)
  {
    RunGraded(cfg, xs);
    HistoryGraded(cfg, OpsOf(cfg, xs), k);
    var h := CaseOf(cfg, xs, k);
    forall i | 0 <= i < |h| ensures h[i].strength == Fact || h[i].strength == ByCount(cfg.confirmThreshold) {
      assert ArpGraded(cfg, h[i]);
    }
  }

  /** Every incident is what its own evidence makes of it. */
  lemma CaseDecides(cfg: ArpConfig, xs: seq<Step>, k: Key)
    ensures IncidentOf(Run(cfg, ARP_START, xs).table, k) == Alone(CaseOf(cfg, xs, k))
    ensures k in Run(cfg, ARP_START, xs).table.incidents <==> CaseOf(cfg, xs, k) != []
  {
    RunIsApplied(cfg, xs);
    Demultiplexed(OpsOf(cfg, xs), cfg.idleExpiry, k);
  }

  lemma {:induction false} StepMarksNothing(cfg: ArpConfig, b: Bindings, x: Step)
    ensures forall op :: op in StepOps(cfg, b, x) ==> !op.Mark?
  {
  }

  lemma {:induction false} NeverMarks(cfg: ArpConfig, xs: seq<Step>)
    ensures forall op :: op in OpsOf(cfg, xs) ==> !op.Mark?
  {
    if xs != [] {
      var front := xs[..|xs| - 1];
      NeverMarks(cfg, front);
      StepMarksNothing(cfg, Run(cfg, ARP_START, front).bindings, xs[|xs| - 1]);
    }
  }

  /** The alerts printed about an incident, with their statuses and counts, are those its
      own evidence gives rise to alone. */
  lemma {:induction false} CaseLines(cfg: ArpConfig, xs: seq<Step>, k: Key)
    ensures LinesOf(Run(cfg, ARP_START, xs).table.log, iset{k}) == AloneLines(CaseOf(cfg, xs, k))
  {
    RunIsApplied(cfg, xs);
    NeverMarks(cfg, xs);
    LinesDemultiplexed(OpsOf(cfg, xs), cfg.idleExpiry, k);
  }

  /** Escalation law: whichever checks its evidence comes from and however often it
      decays, an incident is suspected, confirmed or ongoing as its count is below,
      at or above the first of its threshold and its first observed fact. */
  lemma {:induction false} ArpEscalation(cfg: ArpConfig, xs: seq<Step>, k: Key)
    requires k in Run(cfg, ARP_START, xs).table.incidents
    ensures
      var a, h := Run(cfg, ARP_START, xs).table.incidents[k], CaseOf(cfg, xs, k);
      && a.count == |h|
      && Effective(a) == RungAt(a.count, Min(Max(cfg.confirmThreshold, 1), FirstFact(h) + 1))
  {
    var h := CaseOf(cfg, xs, k);
    CaseDecides(cfg, xs, k);
    CaseGraded(cfg, xs, k);
    assert h != [];
    EscalationLaw(h, cfg.confirmThreshold);
  }

  // Decay, exactly.

  function StepTime(x: Step): Option<Time> {
    match x
    case Packet(e) => Some(e.timestamp)
    case Neighbour(_, _, _, now) => Some(now)
    case Lease(_, _, _) => None
    case Tidy(now) => Some(now)
  }

  function StepClock(xs: seq<Step>): Time {
    if xs == [] then 0.0
    else if StepTime(xs[|xs| - 1]).Some? then StepTime(xs[|xs| - 1]).value
    else StepClock(xs[..|xs| - 1])
  }

  /** Times are non-negative and never decrease. */
  predicate Timely(xs: seq<Step>) {
    xs == [] ||
    (Timely(xs[..|xs| - 1]) &&
     (StepTime(xs[|xs| - 1]).Some? ==> StepClock(xs[..|xs| - 1]) <= StepTime(xs[|xs| - 1]).value))
  }

  lemma StepOpsTimes(cfg: ArpConfig, b: Bindings, x: Step, t: Time)
    requires StepTime(x).Some? ==> StepTime(x).value == t
    ensures forall op :: op in StepOps(cfg, b, x) && TimeOf(op).Some? ==> TimeOf(op).value == t
    ensures Sweep(t) in StepOps(cfg, b, x) <==> x.Tidy?
  {
    if x.Tidy? {
      assert StepOps(cfg, b, x)[0] == Sweep(t);
    }
  }

  lemma StepCleanup(cfg: ArpConfig, s: ArpState, x: Step)
    ensures Stepped(cfg, s, x).lastCleanup == if x.Tidy? then x.now else s.lastCleanup
  {
  }

  lemma OpsPunctual(cfg: ArpConfig, ops: seq<Op>, b: Bindings, x: Step, t: Time)
    requires Punctual(ops) && Clock(ops) <= t && (StepTime(x).Some? ==> StepTime(x).value == t)
    ensures Punctual(ops + StepOps(cfg, b, x)) && Clock(ops + StepOps(cfg, b, x)) <= t
    ensures LastSweep(ops + StepOps(cfg, b, x)) == if x.Tidy? then x.now else LastSweep(ops)
  {
    StepOpsTimes(cfg, b, x, t);
    SameTime(ops, StepOps(cfg, b, x), t);
  }

  lemma {:induction false} RunPunctual(cfg: ArpConfig, xs: seq<Step>)
    requires Timely(xs)
    ensures Punctual(OpsOf(cfg, xs)) && Clock(OpsOf(cfg, xs)) <= StepClock(xs)
    ensures Run(cfg, ARP_START, xs).lastCleanup == LastSweep(OpsOf(cfg, xs))
  {
    if xs != [] {
      var front, x := xs[..|xs| - 1], xs[|xs| - 1];
      RunPunctual(cfg, front);
      var s := Run(cfg, ARP_START, front);
      OpsPunctual(cfg, OpsOf(cfg, front), s.bindings, x, StepClock(xs));
      StepCleanup(cfg, s, x);
    }
  }

  /** Between steps an incident is shown as decayed exactly when the latest sweep
      came more than idle_expiry after its last evidence. */
  lemma ArpDecayExact(cfg: ArpConfig, xs: seq<Step>, k: Key)
    requires Timely(xs) && cfg.idleExpiry >= 0.0 && k in Run(cfg, ARP_START, xs).table.incidents
    ensures
      var s := Run(cfg, ARP_START, xs);
      var a := s.table.incidents[k];
      && a.lastSeen <= StepClock(xs) && s.lastCleanup <= StepClock(xs)
      && (a.status == Decayed <==> s.lastCleanup - a.lastSeen > cfg.idleExpiry)
  {
    RunIsApplied(cfg, xs);
    RunPunctual(cfg, xs);
    DecayExact(OpsOf(cfg, xs), k, cfg.idleExpiry);
  }

  /** What the packet's checks find: the sweep, if due, comes first. */
  ghost function Aired(cfg: ArpConfig, s: ArpState, now: Time): ArpState {
    if now - s.lastCleanup > cfg.cleanupInterval then Stepped(cfg, s, Tidy(now)) else s
  }

  lemma {:induction false} WatchAirs(cfg: ArpConfig, s: ArpState, e: PacketEvent)
    ensures Run(cfg, s, WatchSteps(cfg, s.lastCleanup, e)) == Stepped(cfg, Aired(cfg, s, e.timestamp), Packet(e))
  {
    RunSingle(cfg, s, Tidy(e.timestamp));
    RunAppend(cfg, s, [], Packet(e));
    RunAppend(cfg, s, [Tidy(e.timestamp)], Packet(e));
  }

  /** A watched packet is checked against the state found, in which an incident that it
      resumes after a gap of at most idle_expiry is never decayed, and one after a gap
      beyond idle_expiry plus the cleanup interval always is, whatever came between. */
  lemma {:induction false} ResumeFinds(cfg: ArpConfig, xs: seq<Step>, e: PacketEvent, k: Key)
    requires cfg.idleExpiry >= 0.0 && cfg.cleanupInterval >= 0.0
    requires Timely(xs) && StepClock(xs) <= e.timestamp && k in Run(cfg, ARP_START, xs).table.incidents
    ensures
      var s := Run(cfg, ARP_START, xs);
      var found := Aired(cfg, s, e.timestamp);
      var gap := e.timestamp - s.table.incidents[k].lastSeen;
      && Run(cfg, ARP_START, xs + WatchSteps(cfg, s.lastCleanup, e)) == Stepped(cfg, found, Packet(e))
      && k in found.table.incidents
      && (gap <= cfg.idleExpiry ==> found.table.incidents[k].status != Decayed)
      && (gap > cfg.idleExpiry + cfg.cleanupInterval ==> found.table.incidents[k].status == Decayed)
  {
    var s := Run(cfg, ARP_START, xs);
    RunConcat(cfg, ARP_START, xs, WatchSteps(cfg, s.lastCleanup, e));
    WatchAirs(cfg, s, e);
    ArpDecayExact(cfg, xs, k);
    ReachableOrdered(cfg, xs);
    if e.timestamp - s.lastCleanup > cfg.cleanupInterval {
      SweptAt(s.table, k, cfg.idleExpiry, e.timestamp);
    }
  }

  // The clock of the detector as it is called.

  function CallClock(start: Env, calls: seq<(PacketEvent, Env)>): Time {
    if calls == [] then start.now else calls[|calls| - 1].1.now
  }

  /** Each packet comes no earlier than the previous call was done, and the neighbour
      cache is read no earlier than the packet came. */
  predicate Prompt(start: Env, calls: seq<(PacketEvent, Env)>) {
    if calls == [] then start.now >= 0.0
    else
      var front, call := calls[..|calls| - 1], calls[|calls| - 1];
      Prompt(start, front) && CallClock(start, front) <= call.0.timestamp <= call.1.now
  }

  /** Adding steps that all happen at one time t keeps time running forward. */
  lemma {:induction false} SameMoment(xs: seq<Step>, ys: seq<Step>, t: Time)
    requires Timely(xs) && StepClock(xs) <= t
    requires forall y :: y in ys && StepTime(y).Some? ==> StepTime(y).value == t
    ensures Timely(xs + ys) && StepClock(xs + ys) <= t
  {
    if ys == [] {
      assert xs + ys == xs;
    } else {
      var front, y := ys[..|ys| - 1], ys[|ys| - 1];
      assert y in ys && forall x :: x in front ==> x in ys;
      assert (xs + ys)[..|xs + ys| - 1] == xs + front;
      SameMoment(xs, front, t);
    }
  }

  lemma {:induction false} WatchTimely(cfg: ArpConfig, xs: seq<Step>, lastCleanup: Time, e: PacketEvent)
    requires Timely(xs) && StepClock(xs) <= e.timestamp
    ensures Timely(xs + WatchSteps(cfg, lastCleanup, e))
    ensures StepClock(xs + WatchSteps(cfg, lastCleanup, e)) <= e.timestamp
  {
    SameMoment(xs, WatchSteps(cfg, lastCleanup, e), e.timestamp);
  }

  lemma {:induction false} ResyncTimely(xs: seq<Step>, env: Env)
    requires Timely(xs) && StepClock(xs) <= env.now
    ensures Timely(xs + ResyncSteps(env)) && StepClock(xs + ResyncSteps(env)) <= env.now
  {
    SameMoment(xs, ResyncSteps(env), env.now);
  }

  lemma {:induction false} CallTimely(cfg: ArpConfig, xs: seq<Step>, m: Machine, e: PacketEvent, env: Env)
    requires Timely(xs) && StepClock(xs) <= e.timestamp <= env.now
    ensures Timely(xs + CallSteps(cfg, m.s.lastCleanup, m.lastResync, e, env))
    ensures StepClock(xs + CallSteps(cfg, m.s.lastCleanup, m.lastResync, e, env)) <= env.now
  {
    var watch, steps := WatchSteps(cfg, m.s.lastCleanup, e), CallSteps(cfg, m.s.lastCleanup, m.lastResync, e, env);
    WatchTimely(cfg, xs, m.s.lastCleanup, e);
    ResyncTimely(xs + watch, env);
    assert xs + steps == xs || xs + steps == xs + watch || xs + steps == xs + watch + ResyncSteps(env);
  }

  /** Calls whose times do not run backwards make runs whose times do not either. */
  lemma {:induction false} CallsTimely(cfg: ArpConfig, start: Env, calls: seq<(PacketEvent, Env)>)
    requires Prompt(start, calls)
    ensures Timely(StepsOf(cfg, start, calls)) && StepClock(StepsOf(cfg, start, calls)) <= CallClock(start, calls)
  {
    if calls == [] {
      ResyncTimely([], start);
      assert [] + ResyncSteps(start) == ResyncSteps(start);
    } else {
      var front, call := calls[..|calls| - 1], calls[|calls| - 1];
      CallsTimely(cfg, start, front);
      CallTimely(cfg, StepsOf(cfg, start, front), Calls(cfg, start, front), call.0, call.1);
    }
  }

  /** For the detector as it is called: after any sequence of calls whose times do not run
      backwards, an incident is shown as decayed exactly when the latest sweep came more
      than idle_expiry after its last evidence. */
  lemma {:induction false} CalledDecayExact(cfg: ArpConfig, start: Env, calls: seq<(PacketEvent, Env)>, k: Key)
    requires cfg.idleExpiry >= 0.0 && Prompt(start, calls)
    requires k in Calls(cfg, start, calls).s.table.incidents
    ensures
      var s := Calls(cfg, start, calls).s;
      var a := s.table.incidents[k];
      && a.lastSeen <= CallClock(start, calls) && s.lastCleanup <= CallClock(start, calls)
      && (a.status == Decayed <==> s.lastCleanup - a.lastSeen > cfg.idleExpiry)
  {
    CallsAreRuns(cfg, start, calls);
    CallsTimely(cfg, start, calls);
    ArpDecayExact(cfg, StepsOf(cfg, start, calls), k);
  }
}
