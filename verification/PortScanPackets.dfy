/** What packets do to port-scan incidents, told in their own fields. */
module PortScanPackets {
  import opened Net
  import opened Attacks
  import opened Detectors
  import opened DetectorTheory
  import opened PortScanAttacks
  import opened PortScanDetectors
  import opened PortScanTheory

  /** A SYN of k's attacker to k's victim. */
  predicate SynFor(e: PacketEvent, k: Key) {
    && e.proto == Tcp && e.port.Some? && e.tcpFlags == Syn
    && k.iface == e.iface && k.attacker == e.srcMac && k.victim == e.dstMac
  }

  /** A reset, a reset with acknowledgment or a SYN-ACK of k's victim to k's attacker. */
  predicate AnswerFor(e: PacketEvent, k: Key) {
    && e.proto == Tcp && e.port.Some? && (e.tcpFlags == Rst || e.tcpFlags == RstAck || e.tcpFlags == SynAck)
    && k.iface == e.iface && k.attacker == e.dstMac && k.victim == e.srcMac
  }

  lemma {:induction false} FieldsDecide(e: PacketEvent, k: Key)
    ensures SynFor(e, k) <==> Concerns(e, k) && RoleOf(e) == Some(Probe)
    ensures AnswerFor(e, k) <==> Concerns(e, k) && RoleOf(e) == Some(Reply)
    ensures Concerns(e, k) <==> SynFor(e, k) || AnswerFor(e, k)
  {
  }

  function SynCount(es: seq<PacketEvent>, k: Key): nat {
    if es == [] then 0 else SynCount(es[..|es| - 1], k) + if SynFor(es[|es| - 1], k) then 1 else 0
  }

  function AnswerCount(es: seq<PacketEvent>, k: Key): nat {
    if es == [] then 0 else AnswerCount(es[..|es| - 1], k) + if AnswerFor(es[|es| - 1], k) then 1 else 0
  }

  function ScanAt(cfg: PortConfig, es: seq<PacketEvent>, k: Key): ScanData
    requires cfg.portAlertThreshold >= 1
  {
    ScanOf(Run(cfg, es), k)
  }

  lemma {:induction false} RunNext(cfg: PortConfig, es: seq<PacketEvent>, e: PacketEvent)
    requires cfg.portAlertThreshold >= 1
    ensures Run(cfg, es + [e]) == Called(cfg, Run(cfg, es), e)
  {
    assert (es + [e])[..|es|] == es;
  }

  /** One more packet moves the scan of k only if it is one of its own. */
  lemma {:induction false} ScanNext(cfg: PortConfig, es: seq<PacketEvent>, e: PacketEvent, k: Key)
    requires cfg.portAlertThreshold >= 1
    ensures ScanAt(cfg, es + [e], k) == if Concerns(e, k) then Seen(ScanAt(cfg, es, k), e) else ScanAt(cfg, es, k)
  {
    RunNext(cfg, es, e);
    PortDemultiplexed(cfg, es, k);
    CalledAt(cfg, Run(cfg, es), e, k);
  }

  // Counts.

  lemma {:induction false} SynsWhere(es: seq<PacketEvent>, k: Key)
    ensures SynCount(es, k) > 0 <==> exists e :: e in es && SynFor(e, k)
    ensures AnswerCount(es, k) > 0 <==> exists e :: e in es && AnswerFor(e, k)
  {
    if es != [] {
      var front, last := es[..|es| - 1], es[|es| - 1];
      SynsWhere(front, k);
      assert last in es && forall e :: e in es <==> e in front || e == last;
    }
  }

  /** What the incident of k records, count and tallies. */
  predicate Tallied(a: Option<AttackState>, syns: nat, answers: nat) {
    if a.None? then syns == 0 && answers == 0
    else
      && a.value.count == syns + answers > 0
      && a.value.checkCounts[Probe] == syns && a.value.checkCounts[Reply] == answers
  }

  lemma {:induction false} TalliedNext(cfg: PortConfig, a: Option<AttackState>, d: ScanData, e: PacketEvent, role: Check,
                                       syns: nat, answers: nat)
    requires Tallied(a, syns, answers) && (role == Probe || role == Reply)
    ensures
      Tallied(Some(LoneNext(cfg, a, d, e, role)),
              if role == Probe then syns + 1 else syns, if role == Reply then answers + 1 else answers)
  {
  }

  lemma {:induction false} CountsNext(cfg: PortConfig, es: seq<PacketEvent>, e: PacketEvent, k: Key)
    requires cfg.portAlertThreshold >= 1
    requires Tallied(IncidentOf(Run(cfg, es).table, k), SynCount(es, k), AnswerCount(es, k))
    ensures
      var syns := SynCount(es, k) + if SynFor(e, k) then 1 else 0;
      var answers := AnswerCount(es, k) + if AnswerFor(e, k) then 1 else 0;
      Tallied(IncidentOf(Run(cfg, es + [e]).table, k), syns, answers)
  {
    var s := Run(cfg, es);
    RunNext(cfg, es, e);
    PortDemultiplexed(cfg, es, k);
    CalledAt(cfg, s, e, k);
    FieldsDecide(e, k);
    if Concerns(e, k) {
      TalliedNext(cfg, IncidentOf(s.table, k), Seen(ScanOf(s, k), e), e, RoleOf(e).value, SynCount(es, k), AnswerCount(es, k));
    }
  }

  lemma {:induction false} CountsAre(cfg: PortConfig, es: seq<PacketEvent>, k: Key)
    requires cfg.portAlertThreshold >= 1
    ensures Tallied(IncidentOf(Run(cfg, es).table, k), SynCount(es, k), AnswerCount(es, k))
  {
    if es != [] {
      var front, e := es[..|es| - 1], es[|es| - 1];
      CountsAre(cfg, front, k);
      CountsNext(cfg, front, e, k);
      assert es == front + [e];
    }
  }

  lemma {:induction false} SignalsNext(d: ScanData, e: PacketEvent, k: Key)
    ensures
      var u := if Concerns(e, k) then Seen(d, e) else d;
      && u.probes == d.probes + (if SynFor(e, k) then 1 else 0)
      && u.replies == d.replies + (if AnswerFor(e, k) then 1 else 0)
  {
    FieldsDecide(e, k);
  }

  lemma {:induction false} SignalsAre(cfg: PortConfig, es: seq<PacketEvent>, k: Key)
    requires cfg.portAlertThreshold >= 1
    ensures ScanAt(cfg, es, k).probes == SynCount(es, k) && ScanAt(cfg, es, k).replies == AnswerCount(es, k)
  {
    if es != [] {
      var front, e := es[..|es| - 1], es[|es| - 1];
      SignalsAre(cfg, front, k);
      ScanNext(cfg, front, e, k);
      SignalsNext(ScanAt(cfg, front, k), e, k);
      assert es == front + [e];
    }
  }

  /** Which packets count, for every trace: an incident exists if and only if its attacker
      sent its victim a SYN or got a reset or SYN-ACK from it on that interface, and its
      counters are the numbers of such packets. */
  lemma {:induction false} PacketsCounted(cfg: PortConfig, es: seq<PacketEvent>, k: Key)
    requires cfg.portAlertThreshold >= 1
    ensures k in Run(cfg, es).table.incidents <==> exists e :: e in es && (SynFor(e, k) || AnswerFor(e, k))
    ensures k in Run(cfg, es).table.incidents ==>
      var a, d := Run(cfg, es).table.incidents[k], ScanAt(cfg, es, k);
      && k in Run(cfg, es).scans
      && d.probes == a.checkCounts[Probe] == SynCount(es, k)
      && d.replies == a.checkCounts[Reply] == AnswerCount(es, k)
      && a.count == SynCount(es, k) + AnswerCount(es, k)
  {
    CountsAre(cfg, es, k);
    SignalsAre(cfg, es, k);
    SynsWhere(es, k);
    PortDemultiplexed(cfg, es, k);
  }

  // Connections.

  /** A SYN of k that opens c, and a reply of k on c with this acknowledgment. */
  predicate OpensConn(e: PacketEvent, k: Key, c: Conn) {
    SynFor(e, k) && c.srcIp == e.srcIp && c.srcPort == e.srcPort && c.dstIp == e.dstIp && c.dstPort == e.dstPort
  }

  predicate AnswersConn(e: PacketEvent, k: Key, c: Conn, ack: nat) {
    && AnswerFor(e, k) && e.ackNo == ack
    && c.srcIp == e.dstIp && c.srcPort == e.dstPort && c.dstIp == e.srcIp && c.dstPort == e.srcPort
  }

  /** The i-th packet is the latest SYN on c, and nothing since has answered it. */
  predicate OpenSince(es: seq<PacketEvent>, k: Key, i: int, c: Conn) {
    && 0 <= i < |es| && OpensConn(es[i], k, c)
    && forall j :: i < j < |es| ==> !OpensConn(es[j], k, c) && !AnswersConn(es[j], k, c, es[i].seqNo + 1)
  }

  /** What one packet does to the open probe of c. */
  lemma {:induction false} ConnNext(d: ScanData, e: PacketEvent, k: Key, c: Conn)
    ensures
      var u := if Concerns(e, k) then Seen(d, e).open else d.open;
      if OpensConn(e, k, c) then c in u && u[c] == e.seqNo + 1
      else
        && (c in u <==> c in d.open && !AnswersConn(e, k, c, d.open[c]))
        && (c in u ==> u[c] == d.open[c])
  {
    FieldsDecide(e, k);
    assert c == Conn(c.srcIp, c.srcPort, c.dstIp, c.dstPort);
  }

  ghost predicate OpenIs(es: seq<PacketEvent>, k: Key, c: Conn, open: map<Conn, nat>) {
    && (c in open <==> exists i :: OpenSince(es, k, i, c))
    && (forall i :: OpenSince(es, k, i, c) ==> c in open && open[c] == es[i].seqNo + 1)
  }

  lemma {:induction false} OpenSinceNext(es: seq<PacketEvent>, e: PacketEvent, k: Key, i: int, c: Conn)
    ensures
      OpenSince(es + [e], k, i, c) <==>
      if i == |es| then OpensConn(e, k, c)
      else OpenSince(es, k, i, c) && !OpensConn(e, k, c) && !AnswersConn(e, k, c, es[i].seqNo + 1)
  {
    var u := es + [e];
    assert u[|es|] == e && forall j :: 0 <= j < |es| ==> u[j] == es[j];
  }

  lemma {:induction false} OpenIsNext(es: seq<PacketEvent>, e: PacketEvent, k: Key, c: Conn, d: ScanData)
    requires OpenIs(es, k, c, d.open)
    ensures OpenIs(es + [e], k, c, if Concerns(e, k) then Seen(d, e).open else d.open)
  {
    ConnNext(d, e, k, c);
    forall i ensures
      OpenSince(es + [e], k, i, c) <==>
      if i == |es| then OpensConn(e, k, c)
      else OpenSince(es, k, i, c) && !OpensConn(e, k, c) && !AnswersConn(e, k, c, es[i].seqNo + 1)
    {
      OpenSinceNext(es, e, k, i, c);
    }
    var u := if Concerns(e, k) then Seen(d, e).open else d.open;
    if OpensConn(e, k, c) {
      assert OpenSince(es + [e], k, |es|, c);
    } else if i :| OpenSince(es, k, i, c) {
      assert OpenSince(es + [e], k, i, c) <==> c in u;
    }
  }

  /** What the matching means, for every trace of any hosts: a connection has an open probe
      in an incident if and only if its latest SYN there has not since been answered by a
      reply on the reversed tuple that acknowledges the SYN's number plus one, which is
      the number kept. */
  lemma {:induction false} OpenInRun(cfg: PortConfig, es: seq<PacketEvent>, k: Key, c: Conn)
    requires cfg.portAlertThreshold >= 1
    ensures OpenIs(es, k, c, ScanAt(cfg, es, k).open)
  {
    if es == [] {
      assert forall i :: !OpenSince(es, k, i, c);
    } else {
      var front, e := es[..|es| - 1], es[|es| - 1];
      OpenInRun(cfg, front, k, c);
      ScanNext(cfg, front, e, k);
      OpenIsNext(front, e, k, c, ScanAt(cfg, front, k));
      assert es == front + [e];
    }
  }

  /** The reply answers a SYN of its incident that is still open. */
  ghost predicate AnswersOne(es: seq<PacketEvent>, k: Key, r: PacketEvent) {
    exists i :: OpenSince(es, k, i, Conn(r.dstIp, r.dstPort, r.srcIp, r.srcPort)) && r.ackNo == es[i].seqNo + 1
  }

  /** How many replies of k answered no open SYN. */
  ghost function Strays(es: seq<PacketEvent>, k: Key): nat {
    if es == [] then 0
    else
      var front, e := es[..|es| - 1], es[|es| - 1];
      Strays(front, k) + if AnswerFor(e, k) && !AnswersOne(front, k, e) then 1 else 0
  }

  lemma {:induction false} StrayNext(es: seq<PacketEvent>, e: PacketEvent, k: Key, d: ScanData)
    requires OpenIs(es, k, Conn(e.dstIp, e.dstPort, e.srcIp, e.srcPort), d.open)
    ensures
      var u := if Concerns(e, k) then Seen(d, e) else d;
      u.unmatched == d.unmatched + if AnswerFor(e, k) && !AnswersOne(es, k, e) then 1 else 0
  {
    FieldsDecide(e, k);
    var c := Conn(e.dstIp, e.dstPort, e.srcIp, e.srcPort);
    if i :| OpenSince(es, k, i, c) {
      assert d.open[c] == es[i].seqNo + 1;
      assert AnswersOne(es, k, e) <==> d.open[c] == e.ackNo;
    }
  }

  /** The unmatched replies of an incident are those that answered none of its open SYNs. */
  lemma {:induction false} StraysCounted(cfg: PortConfig, es: seq<PacketEvent>, k: Key)
    requires cfg.portAlertThreshold >= 1
    ensures ScanAt(cfg, es, k).unmatched == Strays(es, k)
  {
    if es != [] {
      var front, e := es[..|es| - 1], es[|es| - 1];
      StraysCounted(cfg, front, k);
      OpenInRun(cfg, front, k, Conn(e.dstIp, e.dstPort, e.srcIp, e.srcPort));
      StrayNext(front, e, k, ScanAt(cfg, front, k));
      ScanNext(cfg, front, e, k);
      assert es == front + [e];
    }
  }

  // Ports and addresses.

  predicate PortOf(e: PacketEvent, k: Key, p: nat) {
    (SynFor(e, k) || AnswerFor(e, k)) && e.port == Some(p)
  }

  predicate ScannerAt(e: PacketEvent, k: Key, ip: Ip) {
    (SynFor(e, k) && e.srcIp == ip) || (AnswerFor(e, k) && e.dstIp == ip)
  }

  predicate TargetAt(e: PacketEvent, k: Key, ip: Ip) {
    (SynFor(e, k) && e.dstIp == ip) || (AnswerFor(e, k) && e.srcIp == ip)
  }

  lemma {:induction false} SetsNext(d: ScanData, e: PacketEvent, k: Key, n: nat)
    ensures
      var u := if Concerns(e, k) then Seen(d, e) else d;
      (n in u.ports <==> n in d.ports || PortOf(e, k, n)) && (n in u.victimIps <==> n in d.victimIps || TargetAt(e, k, n))
  {
    FieldsDecide(e, k);
  }

  /** The ports touched and the victim's addresses, for every trace. */
  lemma {:induction false} SetsAre(cfg: PortConfig, es: seq<PacketEvent>, k: Key, n: nat)
    requires cfg.portAlertThreshold >= 1
    ensures n in ScanAt(cfg, es, k).ports <==> exists e :: e in es && PortOf(e, k, n)
    ensures n in ScanAt(cfg, es, k).victimIps <==> exists e :: e in es && TargetAt(e, k, n)
  {
    if es != [] {
      var front, last := es[..|es| - 1], es[|es| - 1];
      SetsAre(cfg, front, k, n);
      ScanNext(cfg, front, last, k);
      SetsNext(ScanAt(cfg, front, k), last, k, n);
      assert es == front + [last];
      assert last in es && forall e :: e in es <==> e in front || e == last;
    }
  }

  function ClaimsOf(a: Option<AttackState>): set<Ip> {
    if a.Some? then a.value.claimedIps else {}
  }

  lemma {:induction false} ClaimsNext(cfg: PortConfig, es: seq<PacketEvent>, e: PacketEvent, k: Key, ip: Ip)
    requires cfg.portAlertThreshold >= 1
    ensures
      ip in ClaimsOf(IncidentOf(Run(cfg, es + [e]).table, k)) <==>
      ip in ClaimsOf(IncidentOf(Run(cfg, es).table, k)) || ScannerAt(e, k, ip)
  {
    RunNext(cfg, es, e);
    PortDemultiplexed(cfg, es, k);
    CalledAt(cfg, Run(cfg, es), e, k);
    FieldsDecide(e, k);
  }

  /** The scanner's claimed addresses, for every trace. */
  lemma {:induction false} ScannersAre(cfg: PortConfig, es: seq<PacketEvent>, k: Key, ip: Ip)
    requires cfg.portAlertThreshold >= 1
    ensures ip in ClaimsOf(IncidentOf(Run(cfg, es).table, k)) <==> exists e :: e in es && ScannerAt(e, k, ip)
  {
    if es != [] {
      var front, last := es[..|es| - 1], es[|es| - 1];
      ScannersAre(cfg, front, k, ip);
      ClaimsNext(cfg, front, last, k, ip);
      assert es == front + [last];
      assert last in es && forall e :: e in es <==> e in front || e == last;
    }
  }

  // Status.

  /** What counts toward confirmation. */
  ghost function WeightOf(es: seq<PacketEvent>, k: Key): nat {
    SynCount(es, k) + Strays(es, k)
  }

  lemma {:induction false} WeightIs(cfg: PortConfig, es: seq<PacketEvent>, k: Key)
    requires cfg.portAlertThreshold >= 1
    ensures Weight(Scan(PacketsOf(es, k))) == WeightOf(es, k)
  {
    SignalsAre(cfg, es, k);
    StraysCounted(cfg, es, k);
    PortDemultiplexed(cfg, es, k);
  }

  lemma {:induction false} PacketsNext(es: seq<PacketEvent>, e: PacketEvent, k: Key)
    requires Concerns(e, k)
    ensures PacketsOf(es + [e], k) == PacketsOf(es, k) + [e]
  {
    assert (es + [e])[..|es|] == es;
  }

  /** The status after every packet that counts: suspected while SYNs and unmatched replies
      together are below the threshold, confirmed by the packet that ends this, ongoing
      from then on. */
  lemma {:induction false} RungIs(cfg: PortConfig, es: seq<PacketEvent>, e: PacketEvent, k: Key)
    requires cfg.portAlertThreshold >= 1 && (SynFor(e, k) || AnswerFor(e, k))
    ensures
      var t, u := Run(cfg, es).table, Run(cfg, es + [e]).table;
      && k in u.incidents
      && Effective(u.incidents[k]) ==
         if WeightOf(es + [e], k) < cfg.threshold then Suspected
         else if k !in t.incidents || WeightOf(es, k) < cfg.threshold then Confirmed
         else Ongoing
  {
    var h := PacketsOf(es, k);
    FieldsDecide(e, k);
    PacketsNext(es, e, k);
    PortDemultiplexed(cfg, es, k);
    PortDemultiplexed(cfg, es + [e], k);
    PortStatus(cfg, es + [e], k);
    assert (h + [e])[..|h|] == h;
    WeightIs(cfg, es, k);
    WeightIs(cfg, es + [e], k);
  }

  // Output.

  /** The clauses as an alert lists them: first SYNs, then replies, each at most once, and
      the combined clause only on its own. */
  lemma {:induction false} ClausesListed(d: ScanData, threshold: int)
    ensures
      ConfirmedBy(d, threshold) ==
      match (d.probes >= threshold, d.replies >= threshold)
      case (true, true) => [Clause.Syns, Replies]
      case (true, false) => [Clause.Syns]
      case (false, true) => [Replies]
      case (false, false) => if d.probes + d.unmatched < threshold then [] else [SynsPlusUnmatched]
  {
  }

  /** The last line printed is an alert on k, under the signal's name, with the status, the
      count and the clauses that now hold. */
  ghost predicate LastAlert(cfg: PortConfig, s: PortState, k: Key, signal: Check) {
    && k in s.table.incidents && k in s.scans && s.table.log != []
    && s.table.log[|s.table.log| - 1] ==
       Alert(k, signal, s.table.incidents[k].status, s.table.incidents[k].count, ConfirmedBy(s.scans[k], cfg.threshold))
  }

  lemma {:induction false} UpdatedPrints(cfg: PortConfig, s: PortState, e: PacketEvent, role: Check)
    requires cfg.portAlertThreshold >= 1
    ensures LastAlert(cfg, Updated(cfg, s, e, role), KeyOf(e, role), role)
  {
  }

  lemma {:induction false} CalledPrints(cfg: PortConfig, s: PortState, e: PacketEvent, k: Key)
    requires cfg.portAlertThreshold >= 1 && (SynFor(e, k) || AnswerFor(e, k))
    ensures LastAlert(cfg, Called(cfg, s, e), k, if SynFor(e, k) then Probe else Reply)
  {
    FieldsDecide(e, k);
    UpdatedPrints(cfg, Cleaned(cfg, s, e.timestamp), e, RoleOf(e).value);
  }

  /** Every packet that counts prints one alert, last of all. */
  lemma {:induction false} AlertPrinted(cfg: PortConfig, es: seq<PacketEvent>, e: PacketEvent, k: Key)
    requires cfg.portAlertThreshold >= 1 && (SynFor(e, k) || AnswerFor(e, k))
    ensures LastAlert(cfg, Run(cfg, es + [e]), k, if SynFor(e, k) then Probe else Reply)
  {
    RunNext(cfg, es, e);
    CalledPrints(cfg, Run(cfg, es), e, k);
  }

  lemma {:induction false} UpdatedAnnouncesNone(cfg: PortConfig, s: PortState, e: PacketEvent, role: Check, k: Key)
    requires cfg.portAlertThreshold >= 1
    ensures DecaysFor(Updated(cfg, s, e, role).table.log, k) == DecaysFor(s.table.log, k)
    ensures Updated(cfg, s, e, role).lastCleanup == s.lastCleanup
  {
    UpdatedIsLogged(cfg, s, e, role);
    var key, t := KeyOf(e, role), MarkedFor(cfg, s, e, role);
    var ev := ScanEvidence(cfg, Counted(s.scans, key, role, e)[key], e, role);
    LoggedPrints(t, ev);
    LogGrows(t.log, AlertOf(IncidentOf(t, key), ev), k);
    LogGrows(s.table.log, PortSweep(key, PortsIn(Counted(s.scans, key, role, e), key)), k);
  }

  lemma {:induction false} CleanedAnnounces(cfg: PortConfig, s: PortState, now: Time, k: Key)
    requires Ordered(s.table)
    ensures
      var t, u := s.table, Cleaned(cfg, s, now);
      && u.lastCleanup == (if now - s.lastCleanup > cfg.cleanupInterval then now else s.lastCleanup)
      && DecaysFor(u.table.log, k) ==
         DecaysFor(t.log, k) +
         if now - s.lastCleanup > cfg.cleanupInterval && k in t.incidents && t.incidents[k].status != Decayed
            && now - t.incidents[k].lastSeen > cfg.idleExpiry then 1 else 0
  {
    if SweepDue(cfg, s, now) {
      SweptFromCounts(s.table, 0, k, cfg.idleExpiry, now);
      SweptAt(s.table, k, cfg.idleExpiry, now);
    }
  }

  /** The sweep comes before the packet that triggers it, whatever packet that is: an
      incident is announced as decayed exactly when more than the cleanup interval has
      passed since the last sweep and more than idle_expiry since the incident's last
      packet, even if this very packet resumes it. */
  lemma {:induction false} DecayPrinted(cfg: PortConfig, es: seq<PacketEvent>, e: PacketEvent, k: Key)
    requires cfg.portAlertThreshold >= 1
    ensures
      var s, u := Run(cfg, es), Run(cfg, es + [e]);
      && u.lastCleanup == (if e.timestamp - s.lastCleanup > cfg.cleanupInterval then e.timestamp else s.lastCleanup)
      && DecaysFor(u.table.log, k) ==
         DecaysFor(s.table.log, k) +
         if e.timestamp - s.lastCleanup > cfg.cleanupInterval
            && k in s.table.incidents && s.table.incidents[k].status != Decayed
            && e.timestamp - s.table.incidents[k].lastSeen > cfg.idleExpiry then 1 else 0
  {
    var s := Run(cfg, es);
    RunNext(cfg, es, e);
    PortDemultiplexed(cfg, es, k);
    CleanedAnnounces(cfg, s, e.timestamp, k);
    if RoleOf(e).Some? {
      UpdatedAnnouncesNone(cfg, Cleaned(cfg, s, e.timestamp), e, RoleOf(e).value, k);
    }
  }
}
