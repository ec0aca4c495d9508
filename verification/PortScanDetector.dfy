/** port_scan_detector.py: one incident per (interface, scanner, target). */
module PortScanDetectors {
  import opened Net
  import opened Attacks
  import opened Detectors
  import opened PortScanAttacks

  datatype PortConfig = PortConfig(
    threshold: int, idleExpiry: Time, cleanupInterval: Time, portAlertThreshold: int)

  datatype PortState = PortState(table: Table, scans: map<Key, ScanData>, lastCleanup: Time)

  const PORT_START: PortState := PortState(EMPTY, map[], 0.0)

  /** Which signal a packet belongs to, if any. */
  function RoleOf(e: PacketEvent): Option<Check> {
    if e.port.None? || e.proto != Tcp then None
    else match e.tcpFlags
    case Syn => Some(Probe)
    case Rst => Some(Reply)
    case RstAck => Some(Reply)
    case SynAck => Some(Reply)
    case _ => None
  }

  /** A probe names its sender as the attacker, a reply its receiver. */
  function KeyOf(e: PacketEvent, role: Check): Key {
    if role == Probe then Key(e.iface, e.srcMac, e.dstMac) else Key(e.iface, e.dstMac, e.srcMac)
  }

  /** The clauses that hold; the combined one is tried only when neither of the others does. */
  function ConfirmedBy(d: ScanData, threshold: int): seq<Clause> {
    var alone := (if d.probes >= threshold then [Syns] else []) + (if d.replies >= threshold then [Replies] else []);
    if alone == [] && d.probes + d.unmatched >= threshold then [SynsPlusUnmatched] else alone
  }

  /** The scans with one for k, created if missing. */
  function Tracked(scans: map<Key, ScanData>, k: Key): map<Key, ScanData> {
    if k in scans then scans else scans[k := NO_SCAN]
  }

  /** The distinct-port count has just reached a multiple of the alert threshold. */
  predicate SweepMarked(before: nat, after: nat, portAlertThreshold: int)
    requires portAlertThreshold >= 1
  {
    after != before && after != 0 && after % portAlertThreshold == 0
  }

  function Marked(t: Table, k: Key, before: nat, after: nat, portAlertThreshold: int): Table
    requires portAlertThreshold >= 1
  {
    if SweepMarked(before, after, portAlertThreshold) then t.(log := t.log + [PortSweep(k, after)]) else t
  }

  function Confirmation(clauses: seq<Clause>): Option<Rung> {
    if clauses != [] then Some(Confirmed) else None
  }

  function Counted(scans: map<Key, ScanData>, k: Key, role: Check, e: PacketEvent): map<Key, ScanData> {
    Tracked(scans, k)[k := Observed(Tracked(scans, k)[k], role, e)]
  }

  function PortsIn(scans: map<Key, ScanData>, k: Key): nat {
    if k in scans then |scans[k].ports| else 0
  }

  /** Enter the incident, count the packet in it and mark a port sweep. */
  function Tallied(cfg: PortConfig, s: PortState, k: Key, role: Check, e: PacketEvent): PortState
    requires cfg.portAlertThreshold >= 1
  {
    var scans := Counted(s.scans, k, role, e);
    PortState(Marked(Entered(s.table, k, e.timestamp), k, PortsIn(s.scans, k), PortsIn(scans, k), cfg.portAlertThreshold),
              scans, s.lastCleanup)
  }

  /** Record the packet under the clauses its counters meet. */
  function Judged(cfg: PortConfig, s: PortState, k: Key, role: Check, e: PacketEvent): PortState
    requires k in s.table.incidents && k in s.scans
  {
    var clauses := ConfirmedBy(s.scans[k], cfg.threshold);
    s.(table := Reported(s.table, k, role, e.timestamp, Claimed(ScannerIp(role, e)), Confirmation(clauses), clauses))
  }

  /** Fold one packet into its incident. */
  function Updated(cfg: PortConfig, s: PortState, e: PacketEvent, role: Check): PortState
    requires cfg.portAlertThreshold >= 1
  {
    Judged(cfg, Tallied(cfg, s, KeyOf(e, role), role, e), KeyOf(e, role), role, e)
  }

  predicate SweepDue(cfg: PortConfig, s: PortState, now: Time) {
    now - s.lastCleanup > cfg.cleanupInterval
  }

  /** The time-gated decay sweep, before anything else is done with a packet. */
  function Cleaned(cfg: PortConfig, s: PortState, now: Time): PortState {
    if SweepDue(cfg, s, now) then s.(table := Swept(s.table, cfg.idleExpiry, now), lastCleanup := now) else s
  }

  /** SYNs go to the probe signal, resets and SYN-ACKs to the reply signal. */
  function Routed(cfg: PortConfig, s: PortState, e: PacketEvent): PortState
    requires cfg.portAlertThreshold >= 1
  {
    if RoleOf(e).None? then s else Updated(cfg, s, e, RoleOf(e).value)
  }

  function Called(cfg: PortConfig, s: PortState, e: PacketEvent): PortState
    requires cfg.portAlertThreshold >= 1
  {
    Routed(cfg, Cleaned(cfg, s, e.timestamp), e)
  }

  function Run(cfg: PortConfig, es: seq<PacketEvent>): PortState
    requires cfg.portAlertThreshold >= 1
  {
    if es == [] then PORT_START else Called(cfg, Run(cfg, es[..|es| - 1]), es[|es| - 1])
  }

  class PortScanDetector {
    const cfg: PortConfig
    const table: Detector
    var scans: map<Key, PortScanAttack>
    var lastCleanup: Time
    ghost var data: map<Key, ScanData>  // what the scans hold
    ghost var parts: set<object>        // the scan objects

    /** Each scan sits on the table's incident of the same key. */
    ghost predicate Linked()
      reads this`scans, table`incidents
    {
      && scans.Keys == table.incidents.Keys
      && forall k :: k in scans ==> scans[k].base == table.incidents[k] && scans[k].base.key == k
    }

    ghost predicate Matched()
      reads this`scans, this`data, this`parts, parts
    {
      && scans.Keys == data.Keys
      && forall k :: k in scans ==> scans[k] in parts && scans[k].Data() == data[k]
    }

    ghost predicate Separate()
      reads this`parts, table`repr
    {
      && this !in parts && table !in parts && this !in table.repr
      && parts !! table.repr
    }

    ghost predicate Valid()
      reads this`scans, this`data, this`parts, table, table.repr, parts
    {
      match cfg
      case PortConfig(_, idleExpiry, _, portAlertThreshold) =>
        && portAlertThreshold >= 1 && table.idleExpiry == idleExpiry
        && table.Valid() && Linked() && Matched() && Separate()
    }

    ghost function View(): PortState
      reads this, table
    {
      PortState(table.view, data, lastCleanup)
    }

    /** Work on the table alone leaves the scans as they were. */
    twostate lemma ScansKept()
      requires old(Linked() && Matched() && Separate())
      requires unchanged(this`scans, this`data, this`parts, table`incidents, table`repr) && unchanged(parts)
      ensures Linked() && Matched() && Separate()
    {
    }

    twostate lemma MatchedKept()
      requires old(Matched()) && unchanged(this`scans, this`data, this`parts) && unchanged(parts)
      ensures Matched()
    {
    }

    constructor (cfg: PortConfig)
      requires cfg.portAlertThreshold >= 1
      ensures Valid() && View() == PORT_START && this.cfg == cfg && fresh(table) && parts == {} && table.repr == {}
    {
      this.cfg := cfg;
      table := new Detector(cfg.idleExpiry);
      scans, lastCleanup := map[], 0.0;
      data, parts := map[], {};
    }

    function PortCount(key: Key): (n: nat)
      requires Matched()
      reads this`scans, this`data, this`parts, parts
      ensures n == PortsIn(data, key)
    {
      if key in scans then |scans[key].touchedPorts| else 0
    }

    method NewScan(key: Key, timestamp: Time) returns (scan: PortScanAttack)
      ensures fresh(scan) && fresh(scan.base) && scan as object != scan.base && scan.Data() == NO_SCAN
      ensures scan.base.Holds(key, cfg.idleExpiry, NewAttack(timestamp))
    {
      var a := new Attack(key, timestamp, cfg.idleExpiry);
      scan := new PortScanAttack(a);
    }

    method Track(scan: PortScanAttack)
      requires Matched() && Separate() && scan.base.key !in scans && scan.Data() == NO_SCAN
      requires scan !in table.repr
      modifies this`scans, this`data, this`parts
      ensures Matched() && Separate() && parts == old(parts) + {scan}
      ensures scans == old(scans)[scan.base.key := scan] && data == Tracked(old(data), scan.base.key)
    {
      scans := scans[scan.base.key := scan];
      data, parts := Tracked(data, scan.base.key), parts + {scan};
    }

    /** Put a new incident and its scan under their key. */
    method Insert(scan: PortScanAttack, timestamp: Time)
      requires Valid() && scan.base.key !in scans && scan.Data() == NO_SCAN
      requires scan !in table.repr && scan.base !in parts && scan as object != scan.base
      requires scan.base.Holds(scan.base.key, cfg.idleExpiry, NewAttack(timestamp))
      modifies this`scans, this`data, this`parts, table
      ensures Valid() && parts == old(parts) + {scan} && table.repr == old(table.repr) + {scan.base}
      ensures scans == old(scans)[scan.base.key := scan] && data == Tracked(old(data), scan.base.key)
      ensures table.view == Entered(old(table.view), scan.base.key, timestamp)
    {
      table.Insert(scan.base);
      MatchedKept();
      Track(scan);
    }

    method GetAttack(key: Key, timestamp: Time)
      requires Valid()
      modifies this`scans, this`data, this`parts, table
      ensures Valid() && fresh(parts - old(parts)) && fresh(table.repr - old(table.repr))
      ensures key in scans && data == Tracked(old(data), key)
      ensures table.view == Entered(old(table.view), key, timestamp)
    {
      if key !in scans {
        var scan := NewScan(key, timestamp);
        Insert(scan, timestamp);
      }
    }

    method UpdateScan(key: Key, role: Check, e: PacketEvent)
      requires Matched() && this !in parts && key in scans
      requires forall k :: k in scans && k != key ==> scans[k] != scans[key]
      modifies this`data, scans[key]
      ensures Matched() && data == old(data)[key := Observed(old(data)[key], role, e)]
    {
      scans[key].UpdateAttack(role, e);
      data := data[key := Observed(data[key], role, e)];
    }

    /** update_attack on one incident. */
    method Observe(key: Key, role: Check, e: PacketEvent)
      requires Valid() && key in scans
      modifies this`data, parts
      ensures Valid() && table.repr == old(table.repr)
      ensures data == old(data)[key := Observed(old(data)[key], role, e)]
    {
      assert scans[key] !in table.repr && scans[key] as object != table;
      UpdateScan(key, role, e);
      assert table.Valid();
    }

    /** The before/after comparison keeps repeat hits on known ports from firing again. */
    method AlertNewPorts(key: Key, before: nat, after: nat)
      requires Valid()
      modifies table`log, table`view
      ensures Valid() && parts == old(parts) && table.repr == old(table.repr)
      ensures table.view == Marked(old(table.view), key, before, after, cfg.portAlertThreshold)
    {
      if after != before && after != 0 && after % cfg.portAlertThreshold == 0 {
        table.PrintSweep(key, after);
        ScansKept();
      }
    }

    /** The detector alone decides; the attack never judges its counts. */
    method Clauses(key: Key) returns (confirmedBy: seq<Clause>)
      requires Matched() && key in scans
      ensures confirmedBy == ConfirmedBy(data[key], cfg.threshold)
    {
      var scan := scans[key];
      confirmedBy := [];
      if scan.probePacketCount >= cfg.threshold {
        confirmedBy := confirmedBy + [Syns];
      }
      if scan.replyPacketCount >= cfg.threshold {
        confirmedBy := confirmedBy + [Replies];
      }
      if confirmedBy == [] && scan.probePacketCount + scan.unmatchedReplyCount >= cfg.threshold {
        confirmedBy := confirmedBy + [SynsPlusUnmatched];
      }
    }

    method Accuse(key: Key, role: Check, e: PacketEvent, confirmedBy: seq<Clause>)
      requires Valid() && key in table.incidents
      modifies table`log, table`view, table.repr
      ensures Valid() && table.repr == old(table.repr)
      ensures table.view == Reported(old(table.view), key, role, e.timestamp, Claimed(ScannerIp(role, e)),
                                     Confirmation(confirmedBy), confirmedBy)
    {
      table.Report(table.incidents[key], role, e.timestamp, ScannerIp(role, e), Confirmation(confirmedBy), confirmedBy);
      ScansKept();
    }

    /** Record one packet under the clauses that hold, and alert. */
    method Judge(key: Key, role: Check, e: PacketEvent)
      requires Valid() && key in scans
      modifies table`log, table`view, table.repr
      ensures Valid() && table.repr == old(table.repr)
      ensures View() == Judged(cfg, old(View()), key, role, e)
    {
      var confirmedBy := Clauses(key);
      Accuse(key, role, e, confirmedBy);
    }

    method Enroll(key: Key, role: Check, e: PacketEvent)
      requires Valid()
      modifies this`scans, this`data, this`parts, table, parts
      ensures Valid() && fresh(parts - old(parts)) && fresh(table.repr - old(table.repr))
      ensures table.view == Entered(old(table.view), key, e.timestamp)
      ensures key in scans && data == Counted(old(data), key, role, e)
    {
      GetAttack(key, e.timestamp);
      Observe(key, role, e);
    }

    /** The distinct-port counts before and after the packet is counted. */
    method Count(key: Key, role: Check, e: PacketEvent) returns (before: nat, after: nat)
      requires Valid()
      modifies this`scans, this`data, this`parts, table, parts
      ensures Valid() && fresh(parts - old(parts)) && fresh(table.repr - old(table.repr))
      ensures table.view == Entered(old(table.view), key, e.timestamp)
      ensures key in scans && data == Counted(old(data), key, role, e)
      ensures before == PortsIn(old(data), key) && after == PortsIn(data, key)
    {
      before := PortCount(key);
      Enroll(key, role, e);
      after := PortCount(key);
    }

    /** Enter the incident, count the packet in it and mark a port sweep. */
    method Tally(key: Key, role: Check, e: PacketEvent)
      requires Valid()
      modifies this`scans, this`data, this`parts, table, parts
      ensures Valid() && fresh(parts - old(parts)) && fresh(table.repr - old(table.repr))
      ensures key in scans && data == Counted(old(data), key, role, e)
      ensures table.view == Marked(Entered(old(table.view), key, e.timestamp), key,
                                   PortsIn(old(data), key), PortsIn(data, key), cfg.portAlertThreshold)
    {
      var before, after := Count(key, role, e);
      AlertNewPorts(key, before, after);
    }

    /** Fold one packet into its incident. */
    method UpdateIncident(e: PacketEvent, role: Check)
      requires Valid()
      modifies this`scans, this`data, this`parts, table, parts, table.repr
      ensures Valid() && fresh(parts - old(parts)) && fresh(table.repr - old(table.repr))
      ensures View() == Updated(cfg, old(View()), e, role)
    {
      var key := if role == Probe then Key(e.iface, e.srcMac, e.dstMac) else Key(e.iface, e.dstMac, e.srcMac);
      Tally(key, role, e);
      assert View() == Tallied(cfg, old(View()), key, role, e);
      Judge(key, role, e);
    }

    method SweepTable(now: Time)
      requires Valid()
      modifies table`log, table`view, table.repr
      ensures Valid() && table.repr == old(table.repr) && table.view == Swept(old(table.view), cfg.idleExpiry, now)
    {
      table.ExpireIdle(now);
      ScansKept();
    }

    method ExpireIdle(now: Time)
      requires Valid()
      modifies this`lastCleanup, table`log, table`view, table.repr
      ensures Valid()
      ensures View() == old(View()).(table := Swept(old(View()).table, cfg.idleExpiry, now), lastCleanup := now)
    {
      SweepTable(now);
      lastCleanup := now;
    }

    method Route(e: PacketEvent)
      requires Valid()
      modifies this`scans, this`data, this`parts, table, parts, table.repr
      ensures Valid() && fresh(parts - old(parts)) && fresh(table.repr - old(table.repr))
      ensures View() == Routed(cfg, old(View()), e)
    {
      var role := RoleOf(e);
      if role.Some? {
        UpdateIncident(e, role.value);
      }
    }

    /** The time-gated sweep runs first, so a packet that resumes a long-idle
        incident finds it decayed. */
    method Call(e: PacketEvent)
      requires Valid()
      modifies this, table, parts, table.repr
      ensures Valid() && fresh(parts - old(parts)) && fresh(table.repr - old(table.repr))
      ensures View() == Called(cfg, old(View()), e)
    {
      if e.timestamp - lastCleanup > cfg.cleanupInterval {
        ExpireIdle(e.timestamp);
      }
      Route(e);
    }
  }
}
