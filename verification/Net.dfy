/** The vocabulary every other module shares: addresses, packets, incident keys
    and the names of the pieces of evidence. */
module Net {

  datatype Option<+T> = None | Some(value: T)

  /** Exact, ordered capture time. */
  type Time = real

  /** A capture interface and an IPv4 address, each as its number. */
  type Iface = nat
  type Ip = nat

  /** What the program keeps in a MAC field. An address is its 48 bits together
      with the spelling of its text (0 is all lower case), because the program
      compares texts and lower-cases only some of them. AllHosts and UnknownHost
      are the two victim labels the gateway check writes in place of an address. */
  datatype Host = NoMac | Mac(bits: nat, spelling: nat) | AllHosts | UnknownHost

  const BROADCAST: Host := Mac(0xffff_ffff_ffff, 0)

  function Lower(h: Host): Host {
    if h.Mac? then h.(spelling := 0) else h
  }

  /** A frame address that singles out one receiver: present and, whatever its
      spelling, not the broadcast address. */
  predicate Unicast(h: Host) {
    h != NoMac && Lower(h) != BROADCAST
  }

  datatype Proto = Arp | Tcp | Udp

  datatype Flags = NoFlags | Syn | Rst | RstAck | SynAck | OtherFlags

  /** One parsed packet. The fields after dstMac carry meaning for TCP only. */
  datatype PacketEvent = PacketEvent(
    timestamp: Time, iface: Iface, srcIp: Ip, dstIp: Ip, proto: Proto, port: Option<nat>,
    srcMac: Host, dstMac: Host, tcpFlags: Flags, srcPort: nat, dstPort: nat, seqNo: nat, ackNo: nat)

  /** The identity of an incident: (interface, attacker, victim). */
  datatype Key = Key(iface: Iface, attacker: Host, victim: Host)

  /** The names evidence is tallied under. */
  datatype Check =
    | Probe
    | Reply
    | GatewayImpersonation
    | GatewayImpersonationBroadcast
    | HostImpersonation
    | HostImpersonationRouterTargeted
    | HostsRouterCachePoisoned
    | RouterCachePoisoned
    | HostsHostCachePoisoned

  /** The clauses that can confirm a port scan. */
  datatype Clause = Syns | Replies | SynsPlusUnmatched
}
