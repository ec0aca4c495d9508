/** What every run of the port-scan detector obeys. */
module PortScanTheory {
  import opened Net
  import opened Attacks
  import opened Detectors
  import opened DetectorTheory
  import opened PortScanAttacks
  import opened PortScanDetectors

  // One incident alone.

  predicate Concerns(e: PacketEvent, k: Key) {
    RoleOf(e).Some? && KeyOf(e, RoleOf(e).value) == k
  }

  /** The packets of a trace whose role-swapped key is k. */
  function PacketsOf(es: seq<PacketEvent>, k: Key): seq<PacketEvent> {
    if es == [] then []
    else PacketsOf(es[..|es| - 1], k) + if Concerns(es[|es| - 1], k) then [es[|es| - 1]] else []
  }

  function Seen(d: ScanData, e: PacketEvent): ScanData {
    if RoleOf(e).Some? then Observed(d, RoleOf(e).value, e) else d
  }

  /** The counters after the packets h and nothing else. */
  function Scan(h: seq<PacketEvent>): ScanData {
    if h == [] then NO_SCAN else Seen(Scan(h[..|h| - 1]), h[|h| - 1])
  }

  /** The incident after the packets h, with no detector around it. */
  function Lone(cfg: PortConfig, h: seq<PacketEvent>): Option<AttackState> {
    if h == [] then None
    else
      var e, before := h[|h| - 1], Lone(cfg, h[..|h| - 1]);
      if RoleOf(e).None? then before else Some(LoneNext(cfg, before, Scan(h), e, RoleOf(e).value))
  }

  ghost predicate WellKept(s: PortState) {
    Ordered(s.table) && s.scans.Keys == s.table.incidents.Keys
  }

  lemma CleanedAt(cfg: PortConfig, s: PortState, now: Time, k: Key)
    requires WellKept(s)
    ensures WellKept(Cleaned(cfg, s, now)) && Cleaned(cfg, s, now).scans == s.scans
    ensures IncidentOf(Cleaned(cfg, s, now).table, k) == IncidentOf(s.table, k)
  {
    if SweepDue(cfg, s, now) {
      ApplyOrdered(s.table, Sweep(now), cfg.idleExpiry);
      var u := Swept(s.table, cfg.idleExpiry, now);
      forall x ensures x in u.incidents <==> x in s.table.incidents {
        SweptAt(s.table, x, cfg.idleExpiry, now);
      }
      SweptAt(s.table, k, cfg.idleExpiry, now);
    }
  }

  /** What one packet makes of the incident it concerns. */
  function LoneNext(cfg: PortConfig, before: Option<AttackState>, after: ScanData, e: PacketEvent, role: Check): AttackState {
    var a := if before.Some? then before.value else NewAttack(e.timestamp);
    Recorded(WithClaims(a, Claimed(ScannerIp(role, e))), role, e.timestamp,
             Confirmation(ConfirmedBy(after, cfg.threshold)))
  }

  function ScanOf(s: PortState, k: Key): ScanData {
    if k in s.scans then s.scans[k] else NO_SCAN
  }

  /** The evidence one packet is, given the counters that already include it. */
  function ScanEvidence(cfg: PortConfig, after: ScanData, e: PacketEvent, role: Check): Evidence {
    var clauses := ConfirmedBy(after, cfg.threshold);
    Evidence(KeyOf(e, role), role, e.timestamp, Claimed(ScannerIp(role, e)),
             if clauses != [] then Fact else NoFloor, clauses)
  }

  function MarkedFor(cfg: PortConfig, s: PortState, e: PacketEvent, role: Check): Table
    requires cfg.portAlertThreshold >= 1
  {
    var k := KeyOf(e, role);
    Marked(s.table, k, PortsIn(s.scans, k), PortsIn(Counted(s.scans, k, role, e), k), cfg.portAlertThreshold)
  }

  /** For the table, one packet is a possible mark followed by one piece of evidence. */
  lemma UpdatedIsLogged(cfg: PortConfig, s: PortState, e: PacketEvent, role: Check)
    requires cfg.portAlertThreshold >= 1
    ensures
      var k := KeyOf(e, role);
      Updated(cfg, s, e, role).table ==
      Logged(MarkedFor(cfg, s, e, role), ScanEvidence(cfg, Counted(s.scans, k, role, e)[k], e, role))
  {
    var k, t := KeyOf(e, role), MarkedFor(cfg, s, e, role);
    var t1 := Marked(Entered(s.table, k, e.timestamp), k, PortsIn(s.scans, k),
                     PortsIn(Counted(s.scans, k, role, e), k), cfg.portAlertThreshold);
    assert Entered(t, k, e.timestamp) == t1;
  }

  lemma ReportedKeeps(t: Table, k: Key, role: Check, time: Time, ips: set<Ip>, floor: Option<Rung>, clauses: seq<Clause>)
    requires Ordered(t) && k in t.incidents
    ensures Ordered(Reported(t, k, role, time, ips, floor, clauses))
    ensures Reported(t, k, role, time, ips, floor, clauses).incidents.Keys == t.incidents.Keys
  {
  }

  lemma EnteredKeeps(t: Table, k: Key, timestamp: Time)
    requires Ordered(t)
    ensures Ordered(Entered(t, k, timestamp)) && Entered(t, k, timestamp).incidents.Keys == t.incidents.Keys + {k}
  {
  }

  lemma MarkedKeeps(t: Table, k: Key, before: nat, after: nat, portAlertThreshold: int)
    requires portAlertThreshold >= 1
    ensures Marked(t, k, before, after, portAlertThreshold).incidents == t.incidents
    ensures Marked(t, k, before, after, portAlertThreshold).order == t.order
  {
  }

  lemma {:induction false} CountedKeys(scans: map<Key, ScanData>, k: Key, role: Check, e: PacketEvent)
    ensures Counted(scans, k, role, e).Keys == scans.Keys + {k}
  {
  }

  lemma {:induction false} TalliedKept(cfg: PortConfig, s: PortState, k: Key, role: Check, e: PacketEvent)
    requires cfg.portAlertThreshold >= 1 && WellKept(s)
    ensures WellKept(Tallied(cfg, s, k, role, e)) && k in Tallied(cfg, s, k, role, e).table.incidents
  {
    EnteredKeeps(s.table, k, e.timestamp);
    var t, scans := Entered(s.table, k, e.timestamp), Counted(s.scans, k, role, e);
    CountedKeys(s.scans, k, role, e);
    var u := Marked(t, k, PortsIn(s.scans, k), PortsIn(scans, k), cfg.portAlertThreshold);
    MarkedKeeps(t, k, PortsIn(s.scans, k), PortsIn(scans, k), cfg.portAlertThreshold);
    assert Ordered(u);
  }

  lemma UpdatedKept(cfg: PortConfig, s: PortState, e: PacketEvent, role: Check)
    requires cfg.portAlertThreshold >= 1 && WellKept(s)
    ensures WellKept(Updated(cfg, s, e, role))
  {
    var k := KeyOf(e, role);
    TalliedKept(cfg, s, k, role, e);
    var u := Tallied(cfg, s, k, role, e);
    var clauses := ConfirmedBy(u.scans[k], cfg.threshold);
    ReportedKeeps(u.table, k, role, e.timestamp, Claimed(ScannerIp(role, e)), Confirmation(clauses), clauses);
  }

  lemma UpdatedAt(cfg: PortConfig, s: PortState, e: PacketEvent, role: Check, k: Key)
    requires cfg.portAlertThreshold >= 1 && WellKept(s)
    ensures
      IncidentOf(Updated(cfg, s, e, role).table, k) ==
      if KeyOf(e, role) == k
      then Some(LoneNext(cfg, IncidentOf(s.table, k), Observed(ScanOf(s, k), role, e), e, role))
      else IncidentOf(s.table, k)
  {
    UpdatedIsLogged(cfg, s, e, role);
    var key, t := KeyOf(e, role), MarkedFor(cfg, s, e, role);
    var after := Counted(s.scans, key, role, e)[key];
    assert after == Observed(ScanOf(s, key), role, e);
    ApplyAt(t, Log(ScanEvidence(cfg, after, e, role)), cfg.idleExpiry, k);
  }

  lemma {:induction false} CalledAt(cfg: PortConfig, s: PortState, e: PacketEvent, k: Key)
    requires cfg.portAlertThreshold >= 1 && WellKept(s)
    ensures WellKept(Called(cfg, s, e))
    ensures
      var u := Called(cfg, s, e);
      if Concerns(e, k) then
        var d := Seen(ScanOf(s, k), e);
        && k in u.scans && u.scans[k] == d
        && IncidentOf(u.table, k) == Some(LoneNext(cfg, IncidentOf(s.table, k), d, e, RoleOf(e).value))
      else
        && IncidentOf(u.table, k) == IncidentOf(s.table, k)
        && (k in u.scans <==> k in s.scans) && ScanOf(u, k) == ScanOf(s, k)
  {
    CleanedAt(cfg, s, e.timestamp, k);
    if RoleOf(e).Some? {
      UpdatedKept(cfg, Cleaned(cfg, s, e.timestamp), e, RoleOf(e).value);
      UpdatedAt(cfg, Cleaned(cfg, s, e.timestamp), e, RoleOf(e).value, k);
    }
  }

  // Its output alone.

  /** What one packet prints about its incident: a sweep mark if a multiple of distinct
      ports has just been reached, and an alert. */
  function LoneSays(cfg: PortConfig, before: Option<AttackState>, d: ScanData, e: PacketEvent, role: Check): seq<Line>
    requires cfg.portAlertThreshold >= 1
  {
    var k, after := KeyOf(e, role), Observed(d, role, e);
    MarkLines(k, |d.ports|, |after.ports|, cfg.portAlertThreshold) + [AlertOf(before, ScanEvidence(cfg, after, e, role))]
  }

  /** What the packets h print with no detector around them. */
  function LoneLines(cfg: PortConfig, h: seq<PacketEvent>): seq<Line>
    requires cfg.portAlertThreshold >= 1
  {
    if h == [] then []
    else
      var front, e := h[..|h| - 1], h[|h| - 1];
      LoneLines(cfg, front) +
      if RoleOf(e).Some? then LoneSays(cfg, Lone(cfg, front), Scan(front), e, RoleOf(e).value) else []
  }

  lemma {:induction false} LoneLinesNext(cfg: PortConfig, h: seq<PacketEvent>, e: PacketEvent)
    requires cfg.portAlertThreshold >= 1 && RoleOf(e).Some?
    ensures LoneLines(cfg, h + [e]) == LoneLines(cfg, h) + LoneSays(cfg, Lone(cfg, h), Scan(h), e, RoleOf(e).value)
  {
    assert (h + [e])[..|h|] == h;
  }

  function MarkLines(k: Key, before: nat, after: nat, p: int): seq<Line>
    requires p >= 1
  {
    if SweepMarked(before, after, p) then [PortSweep(k, after)] else []
  }

  lemma {:induction false} MarkedSays(t: Table, k: Key, before: nat, after: nat, p: int, ks: iset<Key>)
    requires p >= 1
    ensures LinesOf(Marked(t, k, before, after, p).log, ks) ==
            if k in ks then LinesOf(t.log, ks) + MarkLines(k, before, after, p) else LinesOf(t.log, ks)
  {
    LinesGrow(t.log, PortSweep(k, after), ks);
  }

  lemma {:induction false} Associative(a: seq<Line>, b: seq<Line>, c: seq<Line>)
    ensures a + b + c == a + (b + c)
  {
  }

  /** A possible mark and then an alert, about an incident seen as it was before. */
  lemma {:induction false} MarkThenLog(t: Table, k: Key, before: nat, after: nat, p: int, e: Evidence, ks: iset<Key>)
    requires p >= 1 && e.key == k
    ensures
      LinesOf(Logged(Marked(t, k, before, after, p), e).log, ks) ==
      if k in ks then LinesOf(t.log, ks) + (MarkLines(k, before, after, p) + [AlertOf(IncidentOf(t, k), e)])
      else LinesOf(t.log, ks)
  {
    var u := Marked(t, k, before, after, p);
    MarkedKeeps(t, k, before, after, p);
    MarkedSays(t, k, before, after, p, ks);
    LoggedSays(u, e, ks);
    Associative(LinesOf(t.log, ks), MarkLines(k, before, after, p), [AlertOf(IncidentOf(t, k), e)]);
  }

  lemma {:induction false} CountedIs(s: PortState, e: PacketEvent, role: Check, k: Key)
    ensures Counted(s.scans, k, role, e)[k] == Observed(ScanOf(s, k), role, e)
    ensures PortsIn(s.scans, k) == |ScanOf(s, k).ports|
  {
  }

  lemma {:induction false} UpdatedSays(cfg: PortConfig, s: PortState, e: PacketEvent, role: Check, ks: iset<Key>)
    requires cfg.portAlertThreshold >= 1
    ensures
      var k := KeyOf(e, role);
      LinesOf(Updated(cfg, s, e, role).table.log, ks) ==
      if k in ks then LinesOf(s.table.log, ks) + LoneSays(cfg, IncidentOf(s.table, k), ScanOf(s, k), e, role)
      else LinesOf(s.table.log, ks)
  {
    var k := KeyOf(e, role);
    var after := Observed(ScanOf(s, k), role, e);
    UpdatedIsLogged(cfg, s, e, role);
    CountedIs(s, e, role, k);
    MarkThenLog(s.table, k, |ScanOf(s, k).ports|, |after.ports|, cfg.portAlertThreshold,
                ScanEvidence(cfg, after, e, role), ks);
  }

  lemma {:induction false} CleanedSilent(cfg: PortConfig, s: PortState, now: Time, ks: iset<Key>)
    ensures LinesOf(Cleaned(cfg, s, now).table.log, ks) == LinesOf(s.table.log, ks)
  {
    SweptFromSilent(s.table, 0, ks, cfg.idleExpiry, now);
  }

  lemma {:induction false} CalledSays(cfg: PortConfig, s: PortState, e: PacketEvent, k: Key)
    requires cfg.portAlertThreshold >= 1 && WellKept(s)
    ensures
      LinesOf(Called(cfg, s, e).table.log, iset{k}) ==
      if Concerns(e, k)
      then LinesOf(s.table.log, iset{k}) + LoneSays(cfg, IncidentOf(s.table, k), ScanOf(s, k), e, RoleOf(e).value)
      else LinesOf(s.table.log, iset{k})
  {
    var clean := Cleaned(cfg, s, e.timestamp);
    CleanedAt(cfg, s, e.timestamp, k);
    CleanedSilent(cfg, s, e.timestamp, iset{k});
    if RoleOf(e).Some? {
      UpdatedSays(cfg, clean, e, RoleOf(e).value, iset{k});
    }
  }

  /** The incident of k in state s is what the packets h make of it alone. */
  ghost predicate IsLone(cfg: PortConfig, s: PortState, k: Key, h: seq<PacketEvent>) {
    && IncidentOf(s.table, k) == Lone(cfg, h)
    && (k in s.scans <==> h != [])
    && (k in s.scans ==> s.scans[k] == Scan(h))
  }

  lemma {:induction false} ScanStep(h: seq<PacketEvent>, e: PacketEvent)
    ensures Scan(h + [e]) == Seen(Scan(h), e)
  {
    assert (h + [e])[..|h|] == h;
  }

  /** One more packet, seen by the functions of an incident alone. */
  lemma {:induction false} LoneStep(cfg: PortConfig, h: seq<PacketEvent>, e: PacketEvent)
    requires RoleOf(e).Some?
    ensures Scan(h + [e]) == Seen(Scan(h), e)
    ensures Lone(cfg, h + [e]) == Some(LoneNext(cfg, Lone(cfg, h), Scan(h + [e]), e, RoleOf(e).value))
  {
    assert (h + [e])[..|h|] == h;
  }

  lemma {:induction false} StillLone(cfg: PortConfig, s: PortState, e: PacketEvent, k: Key, h: seq<PacketEvent>)
    requires cfg.portAlertThreshold >= 1 && WellKept(s) && IsLone(cfg, s, k, h)
    ensures WellKept(Called(cfg, s, e))
    ensures IsLone(cfg, Called(cfg, s, e), k, h + if Concerns(e, k) then [e] else [])
  {
    CalledAt(cfg, s, e, k);
    if Concerns(e, k) {
      LoneStep(cfg, h, e);
      assert ScanOf(s, k) == Scan(h);
    } else {
      assert h + [] == h;
    }
  }

  /** Demultiplexing: after any interleaved trace, an incident's counters, sets, open
      probes, times, tallies and effective status are those of one incident fed only
      its own packets, whatever other hosts send and whenever sweeps fire. */
  lemma {:induction false} PortDemultiplexed(cfg: PortConfig, es: seq<PacketEvent>, k: Key)
    requires cfg.portAlertThreshold >= 1
    ensures WellKept(Run(cfg, es))
    ensures IncidentOf(Run(cfg, es).table, k) == Lone(cfg, PacketsOf(es, k))
    ensures k in Run(cfg, es).scans <==> PacketsOf(es, k) != []
    ensures k in Run(cfg, es).scans ==> Run(cfg, es).scans[k] == Scan(PacketsOf(es, k))
  {
    if es != [] {
      var front := es[..|es| - 1];
      PortDemultiplexed(cfg, front, k);
      StillLone(cfg, Run(cfg, front), es[|es| - 1], k, PacketsOf(front, k));
    }
  }

  lemma {:induction false} StillSays(cfg: PortConfig, s: PortState, e: PacketEvent, k: Key, h: seq<PacketEvent>)
    requires cfg.portAlertThreshold >= 1 && WellKept(s) && IsLone(cfg, s, k, h)
    requires LinesOf(s.table.log, iset{k}) == LoneLines(cfg, h)
    ensures LinesOf(Called(cfg, s, e).table.log, iset{k}) == LoneLines(cfg, h + if Concerns(e, k) then [e] else [])
  {
    CalledSays(cfg, s, e, k);
    if Concerns(e, k) {
      LoneLinesNext(cfg, h, e);
      assert ScanOf(s, k) == Scan(h);
    } else {
      assert h + [] == h;
    }
  }

  /** Demultiplexing of the output: all alerts and sweep marks about an incident, in their
      order and with their statuses, counts and clauses, are those of one incident fed
      only its own packets. */
  lemma {:induction false} PortLinesDemultiplexed(cfg: PortConfig, es: seq<PacketEvent>, k: Key)
    requires cfg.portAlertThreshold >= 1
    ensures LinesOf(Run(cfg, es).table.log, iset{k}) == LoneLines(cfg, PacketsOf(es, k))
  {
    if es != [] {
      var front := es[..|es| - 1];
      PortLinesDemultiplexed(cfg, front, k);
      PortDemultiplexed(cfg, front, k);
      StillSays(cfg, Run(cfg, front), es[|es| - 1], k, PacketsOf(front, k));
    }
  }

  lemma {:induction false} PacketsConcern(es: seq<PacketEvent>, k: Key)
    ensures forall e :: e in PacketsOf(es, k) ==> Concerns(e, k) && e in es
  {
    if es != [] {
      PacketsConcern(es[..|es| - 1], k);
    }
  }

  // The conservation law of the counters, and what it makes of the confirmation rule.

  /** How many SYNs reused the tuple of a probe that was still open. */
  function Overwrites(h: seq<PacketEvent>): nat {
    if h == [] then 0
    else
      var front, e := h[..|h| - 1], h[|h| - 1];
      Overwrites(front) + if RoleOf(e) == Some(Probe) && Forward(e) in Scan(front).open then 1 else 0
  }

  /** A packet closes one open probe, or opens one, unless it opens that one again. */
  lemma {:induction false} BalanceStep(d: ScanData, e: PacketEvent)
    ensures
      var u := Seen(d, e);
      var again := if RoleOf(e) == Some(Probe) && Forward(e) in d.open then 1 else 0;
      |u.open| + u.replies + again + d.probes + d.unmatched == |d.open| + d.replies + u.probes + u.unmatched
  {
    if RoleOf(e) == Some(Reply) && Answers(d, e) {
      assert d.open.Keys == (d.open - {Reverse(e)}).Keys + {Reverse(e)};
      assert |(d.open - {Reverse(e)}).Keys| == |d.open.Keys| - 1;
    }
  }

  /** Every probe is open, was answered, or was overwritten. */
  lemma {:induction false} ProbesBalance(h: seq<PacketEvent>)
    ensures |Scan(h).open| + Scan(h).replies + Overwrites(h) == Scan(h).probes + Scan(h).unmatched
  {
    if h != [] {
      ProbesBalance(h[..|h| - 1]);
      BalanceStep(Scan(h[..|h| - 1]), h[|h| - 1]);
    }
  }

  /** What counts toward confirmation. */
  function Weight(d: ScanData): nat {
    d.probes + d.unmatched
  }

  /** Collapse of the confirmation rule: in every reachable incident the matched
      replies never outnumber the probes left over, so the three clauses together
      say no more than the third alone; the slack is exactly the overwritten SYNs. */
  lemma {:induction false} ConfirmationCollapses(cfg: PortConfig, es: seq<PacketEvent>, k: Key)
    requires cfg.portAlertThreshold >= 1 && k in Run(cfg, es).scans
    ensures
      var d := Run(cfg, es).scans[k];
      && |d.open| + (d.replies - d.unmatched) <= d.probes
      && (|d.open| + (d.replies - d.unmatched) == d.probes <==> Overwrites(PacketsOf(es, k)) == 0)
      && d.replies <= Weight(d)
      && (ConfirmedBy(d, cfg.threshold) != [] <==> Weight(d) >= cfg.threshold)
  {
    PortDemultiplexed(cfg, es, k);
    ProbesBalance(PacketsOf(es, k));
  }

  /** The clauses an alert names: the two plain ones exactly when they hold, the combined
      one exactly when it holds and neither of the others does. */
  lemma {:induction false} ClausesNamed(d: ScanData, threshold: int)
    ensures Syns in ConfirmedBy(d, threshold) <==> d.probes >= threshold
    ensures Replies in ConfirmedBy(d, threshold) <==> d.replies >= threshold
    ensures SynsPlusUnmatched in ConfirmedBy(d, threshold) <==>
              (d.probes < threshold && d.replies < threshold <= Weight(d))
  {
    var syns: seq<Clause> := if d.probes >= threshold then [Syns] else [];
    var replies: seq<Clause> := if d.replies >= threshold then [Replies] else [];
    assert (syns + replies == []) <==> (syns == [] && replies == []);
  }

  lemma {:induction false} WeightStep(d: ScanData, e: PacketEvent)
    requires RoleOf(e).Some?
    ensures Weight(d) <= Weight(Seen(d, e)) <= Weight(d) + 1
    ensures Seen(d, e).probes + Seen(d, e).replies == d.probes + d.replies + 1
  {
  }

  /** Replies are outnumbered, and at least every other packet counts. */
  lemma {:induction false} WeightBounds(h: seq<PacketEvent>)
    requires forall e :: e in h ==> RoleOf(e).Some?
    ensures Scan(h).replies <= Weight(Scan(h)) <= |h| <= 2 * Weight(Scan(h))
    ensures Scan(h).probes + Scan(h).replies == |h|
  {
    ProbesBalance(h);
    if h != [] {
      var front, e := h[..|h| - 1], h[|h| - 1];
      assert e in h && forall x :: x in front ==> x in h;
      WeightBounds(front);
      WeightStep(Scan(front), e);
    }
  }

  /** The rung of a scan whose weight is w now and was w0 before its last packet. */
  function ScanRung(first: bool, w0: int, w: int, threshold: int): Rung {
    if w < threshold then Suspected else if first || w0 < threshold then Confirmed else Ongoing
  }

  lemma {:induction false} ScanRungSteps(current: Rung, d: ScanData, first: bool, w0: int, threshold: int)
    requires d.replies <= Weight(d) && w0 <= Weight(d)
    requires if first then current == Suspected else current == Suspected <==> w0 < threshold
    ensures Climb(current, Confirmation(ConfirmedBy(d, threshold))) == ScanRung(first, w0, Weight(d), threshold)
  {
  }

  /** One packet moves the rung as the weights say, whatever came before. */
  lemma {:induction false} NextRung(cfg: PortConfig, before: Option<AttackState>, d: ScanData, e: PacketEvent)
    requires RoleOf(e).Some? && Seen(d, e).replies <= Weight(Seen(d, e))
    requires before.Some? ==> (Effective(before.value) == Suspected <==> Weight(d) < cfg.threshold)
    ensures
      Effective(LoneNext(cfg, before, Seen(d, e), e, RoleOf(e).value)) ==
      ScanRung(before.None?, Weight(d), Weight(Seen(d, e)), cfg.threshold)
  {
    WeightStep(d, e);
    var current := if before.Some? then Effective(before.value) else Suspected;
    ScanRungSteps(current, Seen(d, e), before.None?, Weight(d), cfg.threshold);
  }

  /** The incident has n records and stands above suspicion as soon as its weight is enough. */
  predicate Fits(cfg: PortConfig, a: Option<AttackState>, d: ScanData, n: nat) {
    if n == 0 then a == None
    else a.Some? && a.value.count == n && (Effective(a.value) == Suspected <==> Weight(d) < cfg.threshold)
  }

  lemma {:induction false} NextFits(cfg: PortConfig, before: Option<AttackState>, d: ScanData, e: PacketEvent, n: nat)
    requires RoleOf(e).Some? && Seen(d, e).replies <= Weight(Seen(d, e)) && Fits(cfg, before, d, n)
    ensures Fits(cfg, Some(LoneNext(cfg, before, Seen(d, e), e, RoleOf(e).value)), Seen(d, e), n + 1)
  {
    NextRung(cfg, before, d, e);
    WeightStep(d, e);
  }

  lemma {:induction false} LoneFits(cfg: PortConfig, h: seq<PacketEvent>)
    requires forall e :: e in h ==> RoleOf(e).Some?
    ensures Fits(cfg, Lone(cfg, h), Scan(h), |h|)
  {
    if h != [] {
      var front, e := h[..|h| - 1], h[|h| - 1];
      assert h == front + [e] && e in h && forall x :: x in front ==> x in h;
      LoneFits(cfg, front);
      WeightBounds(h);
      LoneStep(cfg, front, e);
      NextFits(cfg, Lone(cfg, front), Scan(front), e, |front|);
    }
  }

  /** Suspected until the weight meets the threshold, confirmed by the packet that does
      it, ongoing from then on. */
  lemma {:induction false} LoneRung(cfg: PortConfig, h: seq<PacketEvent>)
    requires h != [] && forall e :: e in h ==> RoleOf(e).Some?
    ensures Lone(cfg, h).Some? && Lone(cfg, h).value.count == |h|
    ensures Effective(Lone(cfg, h).value) ==
            ScanRung(|h| == 1, Weight(Scan(h[..|h| - 1])), Weight(Scan(h)), cfg.threshold)
  {
    var front, e := h[..|h| - 1], h[|h| - 1];
    assert h == front + [e] && e in h && forall x :: x in front ==> x in h;
    LoneFits(cfg, front);
    WeightBounds(h);
    LoneStep(cfg, front, e);
    NextRung(cfg, Lone(cfg, front), Scan(front), e);
    LoneFits(cfg, h);
  }

  /** The status of every reachable incident, and the bounds on its count: suspected
      until the weight meets the threshold, confirmed by the packet that does it,
      ongoing from then on. */
  lemma {:induction false} PortStatus(cfg: PortConfig, es: seq<PacketEvent>, k: Key)
    requires cfg.portAlertThreshold >= 1 && k in Run(cfg, es).table.incidents
    ensures
      var a, h := Run(cfg, es).table.incidents[k], PacketsOf(es, k);
      && h != [] && a.count == |h|
      && Effective(a) == ScanRung(|h| == 1, Weight(Scan(h[..|h| - 1])), Weight(Scan(h)), cfg.threshold)
      && (a.count < cfg.threshold ==> Effective(a) == Suspected)
      && (a.count >= 2 * cfg.threshold - 1 ==> Effective(a) != Suspected)
  {
    PortDemultiplexed(cfg, es, k);
    PacketsConcern(es, k);
    LoneRung(cfg, PacketsOf(es, k));
    WeightBounds(PacketsOf(es, k));
  }

  // Both bounds are reached.

  const SCANNER: Host := Mac(1, 0)
  const TARGET: Host := Mac(2, 0)

  function SynOn(port: nat): PacketEvent {
    PacketEvent(0.0, 0, 1, 2, Tcp, Some(port), SCANNER, TARGET, Syn, port, port, 0, 0)
  }

  function RstOn(port: nat): PacketEvent {
    PacketEvent(0.0, 0, 2, 1, Tcp, Some(port), TARGET, SCANNER, Rst, port, port, 0, 1)
  }

  function SynBurst(n: nat): seq<PacketEvent> {
    if n == 0 then [] else SynBurst(n - 1) + [SynOn(n)]
  }

  function Answered(h: seq<PacketEvent>, n: nat): seq<PacketEvent> {
    h + [SynOn(n)] + [RstOn(n)]
  }

  function AnsweredBurst(n: nat): seq<PacketEvent> {
    if n == 0 then [] else Answered(AnsweredBurst(n - 1), n)
  }

  lemma BurstPackets(n: nat)
    ensures Concerns(SynOn(n), Key(0, SCANNER, TARGET)) && Concerns(RstOn(n), Key(0, SCANNER, TARGET))
    ensures RoleOf(SynOn(n)) == Some(Probe) && RoleOf(RstOn(n)) == Some(Reply)
    ensures Reverse(RstOn(n)) == Forward(SynOn(n)) && RstOn(n).ackNo == SynOn(n).seqNo + 1
  {
  }

  lemma OneMore(h: seq<PacketEvent>, e: PacketEvent, k: Key)
    requires Concerns(e, k)
    ensures Scan(h + [e]) == Seen(Scan(h), e) && PacketsOf(h + [e], k) == PacketsOf(h, k) + [e]
  {
    assert (h + [e])[..|h|] == h;
  }

  lemma {:induction false} BareSyn(h: seq<PacketEvent>, n: nat)
    ensures Weight(Scan(h + [SynOn(n)])) == Weight(Scan(h)) + 1
  {
    BurstPackets(n);
    OneMore(h, SynOn(n), Key(0, SCANNER, TARGET));
  }

  lemma {:induction false} SynBurstPackets(n: nat)
    ensures PacketsOf(SynBurst(n), Key(0, SCANNER, TARGET)) == SynBurst(n) && |SynBurst(n)| == n
  {
    if n > 0 {
      SynBurstPackets(n - 1);
      BurstPackets(n);
      OneMore(SynBurst(n - 1), SynOn(n), Key(0, SCANNER, TARGET));
    }
  }

  lemma {:induction false} SynBurstScan(n: nat)
    ensures Weight(Scan(SynBurst(n))) == n
  {
    if n > 0 {
      SynBurstScan(n - 1);
      BareSyn(SynBurst(n - 1), n);
    }
  }

  lemma {:induction false} AnsweredBurstPackets(n: nat)
    ensures PacketsOf(AnsweredBurst(n), Key(0, SCANNER, TARGET)) == AnsweredBurst(n) && |AnsweredBurst(n)| == 2 * n
  {
    if n > 0 {
      AnsweredBurstPackets(n - 1);
      BurstPackets(n);
      var h, k := AnsweredBurst(n - 1), Key(0, SCANNER, TARGET);
      OneMore(h, SynOn(n), k);
      OneMore(h + [SynOn(n)], RstOn(n), k);
    }
  }

  /** Nothing is open and n packets count. */
  predicate Settled(h: seq<PacketEvent>, n: nat) {
    Weight(Scan(h)) == n && Scan(h).open == map[]
  }

  /** A SYN and its reply leave nothing open and count once. */
  lemma {:induction false} AnsweredPair(h: seq<PacketEvent>, u: seq<PacketEvent>, n: nat)
    requires Settled(h, n) && u == Answered(h, n + 1)
    ensures Settled(u, n + 1)
  {
    var k := Key(0, SCANNER, TARGET);
    BurstPackets(n + 1);
    OneMore(h, SynOn(n + 1), k);
    OneMore(h + [SynOn(n + 1)], RstOn(n + 1), k);
    var d := Seen(Scan(h), SynOn(n + 1));
    assert d.open == map[Forward(SynOn(n + 1)) := 1];
    assert Answers(d, RstOn(n + 1));
  }

  lemma {:induction false} AnsweredBurstScan(n: nat)
    ensures Settled(AnsweredBurst(n), n)
  {
    if n > 0 {
      AnsweredBurstScan(n - 1);
      AnsweredPair(AnsweredBurst(n - 1), AnsweredBurst(n), n - 1);
    }
  }

  /** For every threshold: that many bare SYNs already confirm, and two packets fewer
      than twice as many can leave the incident suspected. */
  lemma {:induction false} BoundsReached(cfg: PortConfig)
    requires cfg.portAlertThreshold >= 1 && cfg.threshold >= 1
    ensures
      var k, s := Key(0, SCANNER, TARGET), Run(cfg, SynBurst(cfg.threshold)).table;
      k in s.incidents && s.incidents[k].count == cfg.threshold && Effective(s.incidents[k]) == Confirmed
    ensures cfg.threshold >= 2 ==>
      var k, t := Key(0, SCANNER, TARGET), Run(cfg, AnsweredBurst(cfg.threshold - 1)).table;
      k in t.incidents && t.incidents[k].count == 2 * cfg.threshold - 2 && Effective(t.incidents[k]) == Suspected
  {
    var k, n := Key(0, SCANNER, TARGET), cfg.threshold;
    SynBurstPackets(n);
    SynBurstScan(n);
    SynBurstScan(n - 1);
    assert SynBurst(n)[..n - 1] == SynBurst(n - 1);
    PortDemultiplexed(cfg, SynBurst(n), k);
    PortStatus(cfg, SynBurst(n), k);
    if n >= 2 {
      AnsweredBurstScan(n - 1);
      AnsweredBurstPackets(n - 1);
      PortDemultiplexed(cfg, AnsweredBurst(n - 1), k);
      PortStatus(cfg, AnsweredBurst(n - 1), k);
    }
  }
}
