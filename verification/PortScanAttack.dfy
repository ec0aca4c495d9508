/** port_scan_attack.py: matching SYNs with the replies they draw. */
module PortScanAttacks {
  import opened Net
  import opened Attacks

  /** A connection as its initiator names it. */
  datatype Conn = Conn(srcIp: Ip, srcPort: nat, dstIp: Ip, dstPort: nat)

  function Forward(e: PacketEvent): Conn {
    Conn(e.srcIp, e.srcPort, e.dstIp, e.dstPort)
  }

  function Reverse(e: PacketEvent): Conn {
    Conn(e.dstIp, e.dstPort, e.srcIp, e.srcPort)
  }

  datatype ScanData = ScanData(
    probes: nat, replies: nat, unmatched: nat, ports: set<nat>, victimIps: set<Ip>, open: map<Conn, nat>)

  const NO_SCAN: ScanData := ScanData(0, 0, 0, {}, {}, map[])

  function Ports(e: PacketEvent): set<nat> {
    if e.port.Some? then {e.port.value} else {}
  }

  /** A reply answers a SYN of its own connection whose sequence number it acknowledges. */
  predicate Answers(d: ScanData, e: PacketEvent) {
    Reverse(e) in d.open && d.open[Reverse(e)] == e.ackNo
  }

  function Observed(d: ScanData, role: Check, e: PacketEvent): ScanData {
    var d := d.(ports := d.ports + Ports(e));
    match role
    case Probe =>
      d.(probes := d.probes + 1, victimIps := d.victimIps + {e.dstIp}, open := d.open[Forward(e) := e.seqNo + 1])
    case Reply =>
      var d := d.(replies := d.replies + 1, victimIps := d.victimIps + {e.srcIp});
      if Answers(d, e) then d.(open := d.open - {Reverse(e)}) else d.(unmatched := d.unmatched + 1)
    case _ => d
  }

  /** The address the scanner used: a SYN travels from it, a reply to it. */
  function ScannerIp(role: Check, e: PacketEvent): Option<Ip> {
    match role
    case Probe => Some(e.srcIp)
    case Reply => Some(e.dstIp)
    case _ => None
  }

  class PortScanAttack {
    const base: Attack
    var probePacketCount: nat
    var replyPacketCount: nat
    var unmatchedReplyCount: nat
    var touchedPorts: set<nat>
    var victimIps: set<Ip>
    var openProbes: map<Conn, nat>

    ghost function Data(): ScanData
      reads this
    {
      ScanData(probePacketCount, replyPacketCount, unmatchedReplyCount, touchedPorts, victimIps, openProbes)
    }

    constructor (base: Attack)
      ensures this.base == base && Data() == NO_SCAN
    {
      this.base := base;
      probePacketCount, replyPacketCount, unmatchedReplyCount := 0, 0, 0;
      touchedPorts, victimIps, openProbes := {}, {}, map[];
    }

    method UpdateAttack(role: Check, e: PacketEvent)
      modifies this
      ensures Data() == Observed(old(Data()), role, e)
    {
      if e.port.Some? {
        touchedPorts := touchedPorts + {e.port.value};
      }
      if role == Probe {
        probePacketCount := probePacketCount + 1;
        victimIps := victimIps + {e.dstIp};
        openProbes := openProbes[Forward(e) := e.seqNo + 1];
      } else if role == Reply {
        replyPacketCount := replyPacketCount + 1;
        victimIps := victimIps + {e.srcIp};
        var key := Reverse(e);
        if key in openProbes && openProbes[key] == e.ackNo {
          openProbes := openProbes - {key};
        } else {
          unmatchedReplyCount := unmatchedReplyCount + 1;
        }
      }
    }
  }
}
