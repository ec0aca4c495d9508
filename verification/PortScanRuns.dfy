/** Port-scan runs seen from the table: decay, output and evidence over time. */
module PortScanRuns {
  import opened Net
  import opened Attacks
  import opened Detectors
  import opened DetectorTheory
  import opened PortScanAttacks
  import opened PortScanDetectors
  import opened PortScanTheory

  // A call as operations on the table.

  function UpdateOps(cfg: PortConfig, scans: map<Key, ScanData>, e: PacketEvent, role: Check): seq<Op>
    requires cfg.portAlertThreshold >= 1
  {
    var k := KeyOf(e, role);
    var after := Counted(scans, k, role, e);
    (if SweepMarked(PortsIn(scans, k), PortsIn(after, k), cfg.portAlertThreshold)
     then [Mark(k, PortsIn(after, k))] else []) +
    [Log(ScanEvidence(cfg, after[k], e, role))]
  }

  function CallOps(cfg: PortConfig, s: PortState, e: PacketEvent): seq<Op>
    requires cfg.portAlertThreshold >= 1
  {
    (if SweepDue(cfg, s, e.timestamp) then [Sweep(e.timestamp)] else []) +
    (if RoleOf(e).None? then [] else UpdateOps(cfg, s.scans, e, RoleOf(e).value))
  }

  function OpsOf(cfg: PortConfig, es: seq<PacketEvent>): seq<Op>
    requires cfg.portAlertThreshold >= 1
  {
    if es == [] then []
    else OpsOf(cfg, es[..|es| - 1]) + CallOps(cfg, Run(cfg, es[..|es| - 1]), es[|es| - 1])
  }

  lemma UpdatedIsApplied(cfg: PortConfig, s: PortState, e: PacketEvent, role: Check)
    requires cfg.portAlertThreshold >= 1
    ensures Updated(cfg, s, e, role).table == ApplyAll(s.table, UpdateOps(cfg, s.scans, e, role), cfg.idleExpiry)
  {
    UpdatedIsLogged(cfg, s, e, role);
    var k := KeyOf(e, role);
    var after := Counted(s.scans, k, role, e);
    var ev, mark := ScanEvidence(cfg, after[k], e, role), Mark(k, PortsIn(after, k));
    ApplySingle(s.table, Log(ev), cfg.idleExpiry);
    ApplySingle(s.table, mark, cfg.idleExpiry);
    ApplySingle(Apply(s.table, mark, cfg.idleExpiry), Log(ev), cfg.idleExpiry);
    ApplyAllConcat(s.table, [mark], [Log(ev)], cfg.idleExpiry);
    assert [] + [Log(ev)] == [Log(ev)];
  }

  lemma CalledIsApplied(cfg: PortConfig, s: PortState, e: PacketEvent)
    requires cfg.portAlertThreshold >= 1
    ensures Called(cfg, s, e).table == ApplyAll(s.table, CallOps(cfg, s, e), cfg.idleExpiry)
  {
    var clean := Cleaned(cfg, s, e.timestamp);
    var sweep := if SweepDue(cfg, s, e.timestamp) then [Sweep(e.timestamp)] else [];
    ApplySingle(s.table, Sweep(e.timestamp), cfg.idleExpiry);
    assert clean.table == ApplyAll(s.table, sweep, cfg.idleExpiry) && clean.scans == s.scans;
    if RoleOf(e).Some? {
      UpdatedIsApplied(cfg, clean, e, RoleOf(e).value);
      ApplyAllConcat(s.table, sweep, UpdateOps(cfg, s.scans, e, RoleOf(e).value), cfg.idleExpiry);
    } else {
      assert CallOps(cfg, s, e) == sweep;
    }
  }

  lemma {:induction false} RunIsApplied(cfg: PortConfig, es: seq<PacketEvent>)
    requires cfg.portAlertThreshold >= 1
    ensures Run(cfg, es).table == ApplyAll(EMPTY, OpsOf(cfg, es), cfg.idleExpiry)
  {
    if es != [] {
      var front, e := es[..|es| - 1], es[|es| - 1];
      RunIsApplied(cfg, front);
      CalledIsApplied(cfg, Run(cfg, front), e);
      ApplyAllConcat(EMPTY, OpsOf(cfg, front), CallOps(cfg, Run(cfg, front), e), cfg.idleExpiry);
    }
  }

  /** Conservation of port-scan evidence: an incident's count is the number of its
      packets and of its alerts, all counts together are all alerts, and no incident
      is announced as decayed more often than it received packets. */
  lemma PortEvidenceConserved(cfg: PortConfig, es: seq<PacketEvent>, k: Key)
    requires cfg.portAlertThreshold >= 1
    ensures
      var t := Run(cfg, es).table;
      && CountOf(t, k) == AlertsFor(t.log, k)
      && DecaysFor(t.log, k) <= CountOf(t, k)
      && TotalCount(t) == Alerts(t.log)
  {
    RunIsApplied(cfg, es);
    CountIsAlerts(OpsOf(cfg, es), k, cfg.idleExpiry);
    EvidenceConserved(OpsOf(cfg, es), cfg.idleExpiry);
  }

  // Decay, exactly.

  function TraceClock(es: seq<PacketEvent>): Time {
    if es == [] then 0.0 else es[|es| - 1].timestamp
  }

  /** Timestamps are non-negative and never decrease. */
  predicate Timely(es: seq<PacketEvent>) {
    es == [] || (Timely(es[..|es| - 1]) && TraceClock(es[..|es| - 1]) <= es[|es| - 1].timestamp)
  }

  lemma UpdateOpsTimes(cfg: PortConfig, scans: map<Key, ScanData>, e: PacketEvent, role: Check)
    requires cfg.portAlertThreshold >= 1
    ensures forall op :: op in UpdateOps(cfg, scans, e, role) ==>
              !op.Sweep? && (TimeOf(op).Some? ==> TimeOf(op).value == e.timestamp)
  {
  }

  lemma {:induction false} CallOpsTimes(cfg: PortConfig, s: PortState, e: PacketEvent)
    requires cfg.portAlertThreshold >= 1
    ensures forall op :: op in CallOps(cfg, s, e) && TimeOf(op).Some? ==> TimeOf(op).value == e.timestamp
    ensures Sweep(e.timestamp) in CallOps(cfg, s, e) <==> SweepDue(cfg, s, e.timestamp)
  {
    if RoleOf(e).Some? {
      UpdateOpsTimes(cfg, s.scans, e, RoleOf(e).value);
    }
    if SweepDue(cfg, s, e.timestamp) {
      assert CallOps(cfg, s, e)[0] == Sweep(e.timestamp);
    }
  }

  lemma {:induction false} RunPunctual(cfg: PortConfig, es: seq<PacketEvent>)
    requires cfg.portAlertThreshold >= 1 && Timely(es)
    ensures Punctual(OpsOf(cfg, es)) && Clock(OpsOf(cfg, es)) <= TraceClock(es)
    ensures Run(cfg, es).lastCleanup == LastSweep(OpsOf(cfg, es))
  {
    if es != [] {
      var front, e := es[..|es| - 1], es[|es| - 1];
      RunPunctual(cfg, front);
      CallOpsTimes(cfg, Run(cfg, front), e);
      SameTime(OpsOf(cfg, front), CallOps(cfg, Run(cfg, front), e), e.timestamp);
    }
  }

  /** Between events an incident is shown as decayed exactly when the latest sweep
      came more than idle_expiry after its last packet. */
  lemma PortDecayExact(cfg: PortConfig, es: seq<PacketEvent>, k: Key)
    requires cfg.portAlertThreshold >= 1 && cfg.idleExpiry >= 0.0 && Timely(es)
    requires k in Run(cfg, es).table.incidents
    ensures
      var s := Run(cfg, es);
      var a := s.table.incidents[k];
      && a.lastSeen <= TraceClock(es) && s.lastCleanup <= TraceClock(es)
      && (a.status == Decayed <==> s.lastCleanup - a.lastSeen > cfg.idleExpiry)
  {
    RunIsApplied(cfg, es);
    RunPunctual(cfg, es);
    DecayExact(OpsOf(cfg, es), k, cfg.idleExpiry);
  }

  /** What a resuming packet finds, whatever traffic came between: after a gap of at
      most idle_expiry never a decayed incident, after a gap beyond idle_expiry plus
      the cleanup interval always one. */
  lemma ResumeFinds(cfg: PortConfig, es: seq<PacketEvent>, now: Time, k: Key)
    requires cfg.portAlertThreshold >= 1 && cfg.idleExpiry >= 0.0 && cfg.cleanupInterval >= 0.0
    requires Timely(es) && TraceClock(es) <= now && k in Run(cfg, es).table.incidents
    ensures
      var t := Cleaned(cfg, Run(cfg, es), now).table;
      var gap := now - Run(cfg, es).table.incidents[k].lastSeen;
      && k in t.incidents
      && (gap <= cfg.idleExpiry ==> t.incidents[k].status != Decayed)
      && (gap > cfg.idleExpiry + cfg.cleanupInterval ==> t.incidents[k].status == Decayed)
  {
    var s := Run(cfg, es);
    PortDecayExact(cfg, es, k);
    RunIsApplied(cfg, es);
    RunOrdered(OpsOf(cfg, es), cfg.idleExpiry);
    if SweepDue(cfg, s, now) {
      SweptAt(s.table, k, cfg.idleExpiry, now);
    }
  }

  // [PORT SWEEP] lines.

  function MarksFor(log: seq<Line>, k: Key): nat {
    if log == [] then 0
    else MarksFor(log[..|log| - 1], k) +
         if log[|log| - 1].PortSweep? && log[|log| - 1].key == k then 1 else 0
  }

  lemma MarksGrow(log: seq<Line>, line: Line, k: Key)
    ensures MarksFor(log + [line], k) == MarksFor(log, k) + if line.PortSweep? && line.key == k then 1 else 0
  {
    assert (log + [line])[..|log|] == log;
  }

  lemma {:induction false} SweepMarksNothing(t: Table, i: nat, k: Key, idleExpiry: Time, now: Time)
    requires i <= |t.order|
    ensures MarksFor(SweptFrom(t, i, idleExpiry, now).log, k) == MarksFor(t.log, k)
    decreases |t.order| - i
  {
    if i < |t.order| {
      var first := t.order[i];
      SweepMarksNothing(SweptOne(t, first, idleExpiry, now), i + 1, k, idleExpiry, now);
      if first in t.incidents {
        MarksGrow(t.log, DecayedLine(first, t.incidents[first].count), k);
      }
    }
  }

  lemma TimesAtLeast(x: int, p: int)
    requires x >= 1 && p >= 1
    ensures x * p >= p
  {
    assert x * p == (x - 1) * p + p;
  }

  lemma {:induction false} DivUnique(n: int, p: int, q: int, r: int)
    requires 0 <= r < p && n == q * p + r
    ensures n / p == q && n % p == r
  {
    var q', r' := n / p, n % p;
    assert n == q' * p + r' && 0 <= r' < p;
    assert (q - q') * p == q * p - q' * p == r' - r;
    if q > q' {
      TimesAtLeast(q - q', p);
    } else if q < q' {
      TimesAtLeast(q' - q, p);
    }
  }

  lemma {:induction false} DivStep(n: nat, p: nat)
    requires p >= 1
    ensures (n + 1) / p == n / p + if (n + 1) % p == 0 then 1 else 0
  {
    var q, r := n / p, n % p;
    if r + 1 < p {
      DivUnique(n + 1, p, q, r + 1);
    } else {
      assert (q + 1) * p == q * p + p;
      DivUnique(n + 1, p, q + 1, 0);
    }
  }

  lemma PortsGrow(d: ScanData, role: Check, e: PacketEvent)
    ensures |d.ports| <= |Observed(d, role, e).ports| <= |d.ports| + 1
  {
    assert Observed(d, role, e).ports == d.ports + Ports(e);
    if e.port.Some? && e.port.value !in d.ports {
      assert |d.ports + {e.port.value}| == |d.ports| + 1;
    } else {
      assert d.ports + Ports(e) == d.ports;
    }
  }

  lemma UpdatedPorts(cfg: PortConfig, s: PortState, e: PacketEvent, role: Check, k: Key)
    requires cfg.portAlertThreshold >= 1
    ensures
      var before, after := PortsIn(s.scans, k), PortsIn(Updated(cfg, s, e, role).scans, k);
      before == after || (KeyOf(e, role) == k && after == before + 1)
  {
    PortsGrow(Tracked(s.scans, KeyOf(e, role))[KeyOf(e, role)], role, e);
  }

  lemma UpdatedMarks(cfg: PortConfig, s: PortState, e: PacketEvent, role: Check, k: Key)
    requires cfg.portAlertThreshold >= 1
    ensures
      var before, after := PortsIn(s.scans, k), PortsIn(Updated(cfg, s, e, role).scans, k);
      MarksFor(Updated(cfg, s, e, role).table.log, k) ==
      MarksFor(s.table.log, k) +
      if KeyOf(e, role) == k && SweepMarked(before, after, cfg.portAlertThreshold) then 1 else 0
  {
    var key := KeyOf(e, role);
    var after := PortsIn(Counted(s.scans, key, role, e), key);
    var t, u := Tallied(cfg, s, key, role, e).table, Updated(cfg, s, e, role).table;
    MarksGrow(s.table.log, PortSweep(key, after), k);
    MarksGrow(t.log, u.log[|t.log|], k);
  }

  lemma {:induction false} MarkStep(marks: nat, before: nat, after: nat, p: nat)
    requires p >= 1 && marks == before / p && (after == before || after == before + 1)
    ensures marks + (if SweepMarked(before, after, p) then 1 else 0) == after / p
  {
    DivStep(before, p);
  }

  /** After any trace an incident has printed one [PORT SWEEP] line for each full
      multiple of the port threshold among its distinct ports. */
  lemma {:induction false} SweepLines(cfg: PortConfig, es: seq<PacketEvent>, k: Key)
    requires cfg.portAlertThreshold >= 1
    ensures MarksFor(Run(cfg, es).table.log, k) == PortsIn(Run(cfg, es).scans, k) / cfg.portAlertThreshold
  {
    if es != [] {
      var front, e := es[..|es| - 1], es[|es| - 1];
      SweepLines(cfg, front, k);
      var s := Run(cfg, front);
      if SweepDue(cfg, s, e.timestamp) {
        SweepMarksNothing(s.table, 0, k, cfg.idleExpiry, e.timestamp);
      }
      if RoleOf(e).Some? {
        var clean, role := Cleaned(cfg, s, e.timestamp), RoleOf(e).value;
        UpdatedPorts(cfg, clean, e, role, k);
        UpdatedMarks(cfg, clean, e, role, k);
        MarkStep(MarksFor(clean.table.log, k), PortsIn(clean.scans, k),
                 PortsIn(Updated(cfg, clean, e, role).scans, k), cfg.portAlertThreshold);
      }
    }
  }

  /** The touched ports of an incident are the ports of its packets. */
  lemma {:induction false} TouchedPorts(h: seq<PacketEvent>, p: nat)
    requires forall e :: e in h ==> RoleOf(e).Some?
    ensures p in Scan(h).ports <==> exists i :: 0 <= i < |h| && h[i].port == Some(p)
  {
    if h != [] {
      var front, e := h[..|h| - 1], h[|h| - 1];
      assert e in h && forall x :: x in front ==> x in h;
      TouchedPorts(front, p);
      if i :| 0 <= i < |front| && front[i].port == Some(p) {
        assert h[i].port == Some(p);
      }
    }
  }

  /** The two ends of a packet, told apart by the signal it belongs to. */
  predicate Names(e: PacketEvent, scanner: bool, ip: Ip) {
    match RoleOf(e)
    case Some(Probe) => ip == if scanner then e.srcIp else e.dstIp
    case Some(Reply) => ip == if scanner then e.dstIp else e.srcIp
    case _ => false
  }

  ghost predicate Appears(h: seq<PacketEvent>, scanner: bool, ip: Ip) {
    exists i :: 0 <= i < |h| && Names(h[i], scanner, ip)
  }

  lemma {:induction false} AppearsNext(front: seq<PacketEvent>, e: PacketEvent, scanner: bool, ip: Ip)
    ensures Appears(front + [e], scanner, ip) <==> (Names(e, scanner, ip) || Appears(front, scanner, ip))
  {
    var h := front + [e];
    assert h[|front|] == e;
    if i :| 0 <= i < |h| && Names(h[i], scanner, ip) {
      assert i < |front| ==> h[i] == front[i];
    }
    if i :| 0 <= i < |front| && Names(front[i], scanner, ip) {
      assert h[i] == front[i];
    }
  }

  lemma {:induction false} NextNames(cfg: PortConfig, before: Option<AttackState>, d: ScanData, e: PacketEvent, ip: Ip)
    requires RoleOf(e).Some?
    ensures
      ip in LoneNext(cfg, before, Seen(d, e), e, RoleOf(e).value).claimedIps <==>
      (Names(e, true, ip) || (before.Some? && ip in before.value.claimedIps))
    ensures ip in Seen(d, e).victimIps <==> (Names(e, false, ip) || ip in d.victimIps)
  {
  }

  /** Both directions of an exchange agree on who scans whom: the claimed addresses of an
      incident are the senders of its SYNs and the receivers of its replies, the victim
      addresses the other ends. */
  lemma {:induction false} AddressesNamed(cfg: PortConfig, h: seq<PacketEvent>, ip: Ip)
    requires h != [] && forall e :: e in h ==> RoleOf(e).Some?
    ensures Lone(cfg, h).Some? && (ip in Lone(cfg, h).value.claimedIps <==> Appears(h, true, ip))
    ensures ip in Scan(h).victimIps <==> Appears(h, false, ip)
  {
    var front, e := h[..|h| - 1], h[|h| - 1];
    assert h == front + [e] && e in h && forall x :: x in front ==> x in h;
    if front != [] {
      AddressesNamed(cfg, front, ip);
    }
    LoneStep(cfg, front, e);
    NextNames(cfg, Lone(cfg, front), Scan(front), e, ip);
    AppearsNext(front, e, true, ip);
    AppearsNext(front, e, false, ip);
  }
}
