/** The detectors as a capture drives them, one packet after another. */
module Detection {
  import opened Net
  import ArpSpoofDetectors
  import ArpEvidence
  import PortScanDetectors

  /** The environment speaks only of interfaces that are watched. */
  ghost predicate Local(cfg: ArpSpoofDetectors.ArpConfig, env: ArpSpoofDetectors.Env) {
    forall l :: l in env.leases || l in env.neighbours ==> l.iface in cfg.own
  }

  method HandOver(d: ArpSpoofDetectors.ArpSpoofDetector, e: PacketEvent, env: ArpSpoofDetectors.Env)
    requires d.Valid() && Local(d.cfg, env)
    modifies d, d.table, d.table.repr
    ensures d.Valid() && fresh(d.table.repr - old(d.table.repr))
    ensures
      ArpEvidence.Machine(d.View(), d.lastResync) ==
      ArpEvidence.Called(d.cfg, old(ArpEvidence.Machine(d.View(), d.lastResync)), e, env)
  {
    d.Call(e, env);
  }

  /** Start an ARP detector and hand it every packet: the state is the one the theorems
      about calls speak of. */
  method WatchArp(cfg: ArpSpoofDetectors.ArpConfig, start: ArpSpoofDetectors.Env,
                  calls: seq<(PacketEvent, ArpSpoofDetectors.Env)>)
      returns (d: ArpSpoofDetectors.ArpSpoofDetector)
    requires Local(cfg, start) && forall i :: 0 <= i < |calls| ==> Local(cfg, calls[i].1)
    ensures fresh(d) && d.cfg == cfg && d.Valid()
    ensures ArpEvidence.Machine(d.View(), d.lastResync) == ArpEvidence.Calls(cfg, start, calls)
  {
    d := new ArpSpoofDetectors.ArpSpoofDetector(cfg, start);
    for i := 0 to |calls|
      invariant d.cfg == cfg && d.Valid() && fresh(d.table) && fresh(d.table.repr)
      invariant ArpEvidence.Machine(d.View(), d.lastResync) == ArpEvidence.Calls(cfg, start, calls[..i])
    {
      HandOver(d, calls[i].0, calls[i].1);
      ArpEvidence.CallsNext(cfg, start, calls, i);
    }
    assert calls[..|calls|] == calls;
  }

  /** Start a port-scan detector and hand it every packet. */
  method WatchPorts(cfg: PortScanDetectors.PortConfig, es: seq<PacketEvent>)
      returns (d: PortScanDetectors.PortScanDetector)
    requires cfg.portAlertThreshold >= 1
    ensures fresh(d) && d.cfg == cfg && d.Valid()
    ensures d.View() == PortScanDetectors.Run(cfg, es)
  {
    d := new PortScanDetectors.PortScanDetector(cfg);
    for i := 0 to |es|
      invariant d.cfg == cfg && d.Valid() && fresh(d.table) && fresh(d.table.repr) && fresh(d.parts)
      invariant d.View() == PortScanDetectors.Run(cfg, es[..i])
    {
      assert es[..i + 1][..i] == es[..i];
      d.Call(es[i]);
    }
    assert es[..|es|] == es;
  }
}
