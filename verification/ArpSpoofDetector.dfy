/** arp_spoof_detector.py: whom to believe about an address, and who lied about one. */
module ArpSpoofDetectors {
  import opened Net
  import opened Attacks
  import opened Detectors

  /** The router's own address and MAC on one interface. */
  datatype Identity = Identity(ip: Ip, mac: Host)

  datatype ArpConfig = ArpConfig(
    own: map<Iface, Identity>, confirmThreshold: int, learnThreshold: int,
    idleExpiry: Time, resyncInterval: Time, cleanupInterval: Time)

  /** Where a binding lives, and who is a candidate for one. */
  datatype Place = Place(iface: Iface, ip: Ip)
  datatype Candidate = Candidate(iface: Iface, ip: Ip, mac: Host)
  datatype Pending = Pending(count: nat, lastSeen: Time)

  type Bindings = map<Place, Host>
  type Waiting = map<Candidate, Pending>

  /** A claim to be checked: a packet's, or a neighbour-cache entry's without destination. */
  datatype Claim = Claim(
    iface: Iface, srcIp: Ip, srcMac: Host, dstIp: Option<Ip>, dstMac: Host, proto: Proto, time: Time)

  datatype ArpState = ArpState(bindings: Bindings, pending: Waiting, table: Table, lastCleanup: Time)

  const ARP_START: ArpState := ArpState(map[], map[], EMPTY, 0.0)

  // The checks: what evidence a claim is.

  /** Somebody else says they are the router. */
  predicate ClaimsRouter(id: Identity, c: Claim) {
    c.srcIp == id.ip && c.srcMac != id.mac
  }

  function GatewayVictim(dstMac: Host): Host {
    if dstMac == BROADCAST then AllHosts else if dstMac == NoMac then UnknownHost else dstMac
  }

  function CheckGateway(cfg: ArpConfig, id: Identity, c: Claim): Option<Evidence> {
    if !ClaimsRouter(id, c) then None
    else Some(Evidence(
      Key(c.iface, c.srcMac, GatewayVictim(c.dstMac)),
      if c.dstMac == BROADCAST then GatewayImpersonationBroadcast else GatewayImpersonation,
      c.time, {c.srcIp}, if c.proto == Arp then ByCount(cfg.confirmThreshold) else Fact, []))
  }

  /** A packet for the router arrived elsewhere: its sender's cache is poisoned. */
  function CheckRouterCache(id: Identity, c: Claim): Option<Evidence> {
    if c.dstIp == Some(id.ip) && Unicast(c.dstMac) && c.dstMac != id.mac then
      Some(Evidence(Key(c.iface, c.dstMac, c.srcMac), HostsRouterCachePoisoned, c.time, {}, Fact, []))
    else None
  }

  /** The packet went to a MAC other than the one bound to its destination. */
  predicate Misdelivered(b: Bindings, c: Claim) {
    && c.dstIp.Some? && Place(c.iface, c.dstIp.value) in b && Unicast(c.dstMac)
    && var known := b[Place(c.iface, c.dstIp.value)]; known != NoMac && c.dstMac != known
  }

  function CheckHostCache(id: Identity, b: Bindings, c: Claim): Option<Evidence> {
    if !Misdelivered(b, c) then None
    else if c.srcMac == id.mac then
      Some(Evidence(Key(c.iface, c.dstMac, b[Place(c.iface, c.dstIp.value)]), RouterCachePoisoned,
                    c.time, {c.dstIp.value}, Fact, []))
    else
      Some(Evidence(Key(c.iface, c.dstMac, c.srcMac), HostsHostCachePoisoned, c.time, {c.dstIp.value}, Fact, []))
  }

  /** The claim conflicts with a binding. */
  function CheckImpersonation(cfg: ArpConfig, id: Identity, b: Bindings, c: Claim): Option<Evidence> {
    var place := Place(c.iface, c.srcIp);
    if place !in b || b[place] == c.srcMac then None
    else Some(Evidence(
      Key(c.iface, c.srcMac, if c.dstMac == id.mac then id.mac else b[place]),
      if c.dstMac == id.mac then HostImpersonationRouterTargeted else HostImpersonation,
      c.time, {c.srcIp}, ByCount(cfg.confirmThreshold), []))
  }

  function Raised(t: Table, e: Option<Evidence>): Table {
    if e.Some? then Logged(t, e.value) else t
  }

  // Learning bindings.

  /** A candidate's count goes on unless it has been idle too long. */
  function NextCount(p: Waiting, who: Candidate, idleExpiry: Time, now: Time): nat {
    if who !in p || now - p[who].lastSeen > idleExpiry then 1 else p[who].count + 1
  }

  function Candidates(p: Waiting, place: Place): (c: map<Host, nat>)
    ensures forall m :: m in c <==> Candidate(place.iface, place.ip, m) in p
    ensures forall m :: m in c ==> c[m] == p[Candidate(place.iface, place.ip, m)].count
  {
    map k | k in p && k.iface == place.iface && k.ip == place.ip :: k.mac := p[k].count
  }

  ghost function Winners(c: map<Host, nat>): set<Host> {
    set m | m in c && forall x :: x in c ==> c[x] <= c[m]
  }

  function Cleared(p: Waiting, place: Place): Waiting {
    map k | k in p && !(k.iface == place.iface && k.ip == place.ip) :: p[k]
  }

  datatype Trust = Trust(bindings: Bindings, pending: Waiting)

  /** The highest-volume candidate wins the address; a tie defers the decision. */
  ghost function Resolved(t: Trust, place: Place): Trust {
    var winners := Winners(Candidates(t.pending, place));
    if m :| winners == {m} then Trust(t.bindings[place := m], Cleared(t.pending, place)) else t
  }

  ghost function Learned(cfg: ArpConfig, t: Trust, c: Claim): Trust {
    var who, place := Candidate(c.iface, c.srcIp, c.srcMac), Place(c.iface, c.srcIp);
    var count := NextCount(t.pending, who, cfg.idleExpiry, c.time);
    var t1 := t.(pending := t.pending[who := Pending(count, c.time)]);
    if count >= cfg.learnThreshold then Resolved(t1, place) else t1
  }

  // DHCP.

  /** A lease overrides what was learned, except about the router; a MAC it moves
      loses its other addresses on that interface. */
  function Leased(own: Identity, b: Bindings, place: Place, mac: Host): Bindings {
    if place.ip == own.ip || (place in b && b[place] == mac) then b
    else (map k | k in b && !(k.iface == place.iface && b[k] == mac && k != place) :: b[k])[place := mac]
  }

  // Runs.

  datatype Step =
    | Packet(e: PacketEvent)
    | Neighbour(iface: Iface, ip: Ip, mac: Host, now: Time)
    | Lease(iface: Iface, ip: Ip, mac: Host)
    | Tidy(now: Time)

  function PacketClaim(e: PacketEvent): Claim {
    Claim(e.iface, e.srcIp, e.srcMac, Some(e.dstIp), e.dstMac, e.proto, e.timestamp)
  }

  function NeighbourClaim(iface: Iface, ip: Ip, mac: Host, now: Time): Claim {
    Claim(iface, ip, mac, None, NoMac, Arp, now)
  }

  /** The table after the two checks on where a packet was delivered. */
  function Delivered(id: Identity, b: Bindings, t: Table, c: Claim): Table {
    Raised(Raised(t, CheckRouterCache(id, c)), CheckHostCache(id, b, c))
  }

  /** What the source's claim does: teach about an unbound address, conflict with a bound one. */
  ghost function SourceChecked(cfg: ArpConfig, s: ArpState, c: Claim): ArpState
    requires c.iface in cfg.own
  {
    if Place(c.iface, c.srcIp) in s.bindings
    then s.(table := Raised(s.table, CheckImpersonation(cfg, cfg.own[c.iface], s.bindings, c)))
    else
      var learned := Learned(cfg, Trust(s.bindings, s.pending), c);
      s.(bindings := learned.bindings, pending := learned.pending)
  }

  /** The checks in their fixed order, with their two short circuits. */
  ghost function Checked(cfg: ArpConfig, s: ArpState, c: Claim): ArpState
    requires c.iface in cfg.own
  {
    var id := cfg.own[c.iface];
    var gateway := CheckGateway(cfg, id, c);
    if gateway.Some? then s.(table := Raised(s.table, gateway))
    else SourceChecked(cfg, s.(table := Delivered(id, s.bindings, s.table, c)), c)
  }

  ghost function Stepped(cfg: ArpConfig, s: ArpState, x: Step): ArpState {
    match x
    case Packet(e) => if e.iface in cfg.own then Checked(cfg, s, PacketClaim(e)) else s
    case Neighbour(iface, ip, mac, now) =>
      if iface in cfg.own && ip != cfg.own[iface].ip then Checked(cfg, s, NeighbourClaim(iface, ip, mac, now)) else s
    case Lease(iface, ip, mac) =>
      if iface in cfg.own then s.(bindings := Leased(cfg.own[iface], s.bindings, Place(iface, ip), mac)) else s
    case Tidy(now) => s.(table := Swept(s.table, cfg.idleExpiry, now), lastCleanup := now)
  }

  ghost function Run(cfg: ArpConfig, s: ArpState, xs: seq<Step>): ArpState {
    if xs == [] then s else Stepped(cfg, Run(cfg, s, xs[..|xs| - 1]), xs[|xs| - 1])
  }

  /** What a resync reads: the leases already matched to their interface, the
      neighbour-cache entries in order, and the clock. */
  datatype LeaseLine = LeaseLine(iface: Iface, ip: Ip, mac: Host)
  datatype Env = Env(leases: seq<LeaseLine>, neighbours: seq<LeaseLine>, now: Time)

  function LeaseSteps(env: Env): seq<Step> {
    seq(|env.leases|, i requires 0 <= i < |env.leases| =>
      Lease(env.leases[i].iface, env.leases[i].ip, env.leases[i].mac))
  }

  function NeighbourSteps(env: Env): seq<Step> {
    seq(|env.neighbours|, i requires 0 <= i < |env.neighbours| =>
      Neighbour(env.neighbours[i].iface, env.neighbours[i].ip, env.neighbours[i].mac, env.now))
  }

  function ResyncSteps(env: Env): seq<Step> {
    LeaseSteps(env) + NeighbourSteps(env)
  }

  /** A sweep if due, then the packet's checks. */
  function WatchSteps(cfg: ArpConfig, lastCleanup: Time, e: PacketEvent): seq<Step> {
    (if e.timestamp - lastCleanup > cfg.cleanupInterval then [Tidy(e.timestamp)] else []) + [Packet(e)]
  }

  /** The steps one packet sets off, ending in a resync if that is due. */
  function CallSteps(cfg: ArpConfig, lastCleanup: Time, lastResync: Time, e: PacketEvent, env: Env): seq<Step> {
    if e.iface !in cfg.own then []
    else
      WatchSteps(cfg, lastCleanup, e) +
      (if e.timestamp - lastResync > cfg.resyncInterval then ResyncSteps(env) else [])
  }

  class ArpSpoofDetector {
    const cfg: ArpConfig
    const table: Detector
    var bindings: Bindings
    var pendingState: Waiting
    var lastCleanup: Time
    var lastResync: Time

    ghost predicate Valid()
      reads table, table.repr
    {
      table.Valid() && table.idleExpiry == cfg.idleExpiry && this !in table.repr
    }

    ghost function View(): ArpState
      reads this, table
    {
      ArpState(bindings, pendingState, table.view, lastCleanup)
    }

    /** Seed the router's identity, then resync so that bindings are not empty at the
        first packet. */
    constructor (cfg: ArpConfig, env: Env)
      requires forall l :: l in env.leases || l in env.neighbours ==> l.iface in cfg.own
      ensures Valid() && this.cfg == cfg && lastResync == 0.0
      ensures View() == Run(cfg, ARP_START, ResyncSteps(env))
      ensures fresh(table) && fresh(table.repr)
    {
      this.cfg := cfg;
      table := new Detector(cfg.idleExpiry);
      bindings, pendingState := map[], map[];
      lastCleanup, lastResync := 0.0, 0.0;
      new;
      ResyncAll(env);
    }

    /** Fetch the incident, decide the floor, record and alert. */
    method Raise(key: Key, check: Check, timestamp: Time, claimedIp: Option<Ip>, strength: Strength)
      requires Valid()
      modifies table, table.repr
      ensures Valid() && fresh(table.repr - old(table.repr))
      ensures table.view == Logged(old(table.view), Evidence(key, check, timestamp, Claimed(claimedIp), strength, []))
    {
      var a := table.GetAttack(key, timestamp);
      assert this !in table.repr;
      var minStatus := if strength.Fact? || (strength.ByCount? && a.count + 1 >= strength.threshold)
                       then Some(Confirmed) else None;
      table.Report(a, check, timestamp, claimedIp, minStatus, []);
    }

    method GatewayCheck(c: Claim) returns (fired: bool)
      requires Valid() && c.iface in cfg.own
      modifies table, table.repr
      ensures Valid() && fresh(table.repr - old(table.repr))
      ensures fired == CheckGateway(cfg, cfg.own[c.iface], c).Some?
      ensures table.view == Raised(old(table.view), CheckGateway(cfg, cfg.own[c.iface], c))
    {
      var own := cfg.own[c.iface];
      if c.srcIp != own.ip {
        return false;
      }
      if c.srcMac != own.mac {
        var isBroadcast := c.dstMac == BROADCAST;
        var victim := if isBroadcast then AllHosts else if c.dstMac == NoMac then UnknownHost else c.dstMac;
        var check := if isBroadcast then GatewayImpersonationBroadcast else GatewayImpersonation;
        var strength := if c.proto == Tcp || c.proto == Udp then Fact else ByCount(cfg.confirmThreshold);
        Raise(Key(c.iface, c.srcMac, victim), check, c.time, Some(c.srcIp), strength);
        return true;
      }
      return false;
    }

    method RouterCacheCheck(c: Claim)
      requires Valid() && c.iface in cfg.own
      modifies table, table.repr
      ensures Valid() && fresh(table.repr - old(table.repr))
      ensures table.view == Raised(old(table.view), CheckRouterCache(cfg.own[c.iface], c))
    {
      var own := cfg.own[c.iface];
      if c.dstIp != Some(own.ip) || !Unicast(c.dstMac) || c.dstMac == own.mac {
        return;
      }
      Raise(Key(c.iface, c.dstMac, c.srcMac), HostsRouterCachePoisoned, c.time, None, Fact);
    }

    method HostCacheCheck(c: Claim)
      requires Valid() && c.iface in cfg.own
      modifies table, table.repr
      ensures Valid() && fresh(table.repr - old(table.repr))
      ensures table.view == Raised(old(table.view), CheckHostCache(cfg.own[c.iface], bindings, c))
    {
      if c.dstIp.None? || Place(c.iface, c.dstIp.value) !in bindings {
        return;
      }
      var known := bindings[Place(c.iface, c.dstIp.value)];
      if known == NoMac || !Unicast(c.dstMac) || c.dstMac == known {
        return;
      }
      if c.srcMac == cfg.own[c.iface].mac {
        Raise(Key(c.iface, c.dstMac, known), RouterCachePoisoned, c.time, c.dstIp, Fact);
      } else {
        Raise(Key(c.iface, c.dstMac, c.srcMac), HostsHostCachePoisoned, c.time, c.dstIp, Fact);
      }
    }

    /** Runs only on bound addresses, so the look-up always succeeds. */
    method ImpersonationCheck(c: Claim)
      requires Valid() && c.iface in cfg.own && Place(c.iface, c.srcIp) in bindings
      modifies table, table.repr
      ensures Valid() && fresh(table.repr - old(table.repr))
      ensures table.view == Raised(old(table.view), CheckImpersonation(cfg, cfg.own[c.iface], bindings, c))
    {
      var known, own := bindings[Place(c.iface, c.srcIp)], cfg.own[c.iface];
      if known == c.srcMac {
        return;
      }
      var victim, check := known, HostImpersonation;
      if c.dstMac == own.mac {
        victim, check := own.mac, HostImpersonationRouterTargeted;
      }
      Raise(Key(c.iface, c.srcMac, victim), check, c.time, Some(c.srcIp), ByCount(cfg.confirmThreshold));
    }

    ghost function Trusted(): Trust
      reads this
    {
      Trust(bindings, pendingState)
    }

    method TrackCount(who: Candidate, timestamp: Time) returns (count: nat)
      modifies this`pendingState
      ensures count == NextCount(old(pendingState), who, cfg.idleExpiry, timestamp)
      ensures pendingState == old(pendingState)[who := Pending(count, timestamp)]
    {
      if who !in pendingState || timestamp - pendingState[who].lastSeen > cfg.idleExpiry {
        count := 1;
      } else {
        count := pendingState[who].count + 1;
      }
      pendingState := pendingState[who := Pending(count, timestamp)];
    }

    /** The largest count among the candidates. */
    method BestCount(c: map<Host, nat>) returns (best: nat)
      requires c != map[]
      ensures (exists m :: m in c && c[m] == best) && forall m :: m in c ==> c[m] <= best
    {
      var first :| first in c;
      best := c[first];
      var rest := c.Keys - {first};
      while rest != {}
        invariant rest <= c.Keys && exists m :: m in c && c[m] == best
        invariant forall m :: m in c && m !in rest ==> c[m] <= best
        decreases |rest|
      {
        var m :| m in rest;
        if c[m] > best {
          best := c[m];
        }
        rest := rest - {m};
      }
    }

    /** Drop every candidate for one address: the contest is over either way. */
    method ClearCandidates(place: Place, macs: set<Host>)
      requires forall m :: m in macs <==> Candidate(place.iface, place.ip, m) in pendingState
      modifies this`pendingState
      ensures pendingState == Cleared(old(pendingState), place)
    {
      var rest := macs;
      while rest != {}
        invariant rest <= macs
        invariant forall k :: k in pendingState <==>
          (k in old(pendingState) && !(k.iface == place.iface && k.ip == place.ip && k.mac !in rest))
        invariant forall k :: k in pendingState ==> pendingState[k] == old(pendingState)[k]
        decreases |rest|
      {
        var m :| m in rest;
        rest := rest - {m};
        pendingState := pendingState - {Candidate(place.iface, place.ip, m)};
      }
      forall k | k in old(pendingState) && k.iface == place.iface && k.ip == place.ip
        ensures k !in pendingState
      {
        assert k == Candidate(place.iface, place.ip, k.mac);
      }
    }

    method ResolvePending(place: Place)
      modifies this`bindings, this`pendingState
      ensures Trusted() == Resolved(old(Trusted()), place)
    {
      var candidates := Candidates(pendingState, place);
      if candidates == map[] {
        return;
      }
      var best := BestCount(candidates);
      var winners := set m | m in candidates && candidates[m] == best;
      ghost var top :| top in candidates && candidates[top] == best;
      assert top in winners && winners == Winners(candidates);
      if |winners| > 1 {
        return;
      }
      var winner :| winner in winners;
      assert winners == {winner} by {
        assert |winners - {winner}| == 0;
      }
      bindings := bindings[place := winner];
      ClearCandidates(place, candidates.Keys);
    }

    method NewBindingCheck(c: Claim) returns (unbound: bool)
      modifies this`bindings, this`pendingState
      ensures unbound == (Place(c.iface, c.srcIp) !in old(bindings))
      ensures Trusted() == if unbound then Learned(cfg, old(Trusted()), c) else old(Trusted())
    {
      var place := Place(c.iface, c.srcIp);
      if place in bindings {
        return false;
      }
      var count := TrackCount(Candidate(c.iface, c.srcIp, c.srcMac), c.time);
      if count >= cfg.learnThreshold {
        ResolvePending(place);
      }
      return true;
    }

    method DeliveryChecks(c: Claim)
      requires Valid() && c.iface in cfg.own
      modifies table, table.repr
      ensures Valid() && fresh(table.repr - old(table.repr))
      ensures table.view == Delivered(cfg.own[c.iface], bindings, old(table.view), c)
    {
      RouterCacheCheck(c);
      HostCacheCheck(c);
    }

    method SourceChecks(c: Claim)
      requires Valid() && c.iface in cfg.own
      modifies this`bindings, this`pendingState, table, table.repr
      ensures Valid() && fresh(table.repr - old(table.repr))
      ensures View() == SourceChecked(cfg, old(View()), c)
    {
      var unbound := NewBindingCheck(c);
      if unbound {
        return;
      }
      ImpersonationCheck(c);
    }

    method RunChecks(c: Claim)
      requires Valid() && c.iface in cfg.own
      modifies this`bindings, this`pendingState, table, table.repr
      ensures Valid() && fresh(table.repr - old(table.repr))
      ensures View() == Checked(cfg, old(View()), c)
    {
      var explained := GatewayCheck(c);
      if explained {
        return;
      }
      DeliveryChecks(c);
      SourceChecks(c);
    }

    method ApplyAuthoritative(iface: Iface, ip: Ip, mac: Host)
      requires iface in cfg.own
      modifies this`bindings
      ensures bindings == Leased(cfg.own[iface], old(bindings), Place(iface, ip), mac)
    {
      if ip == cfg.own[iface].ip {
        return;
      }
      var key := Place(iface, ip);
      if key in bindings && bindings[key] == mac {
        return;
      }
      var stale := set k | k in bindings && k.iface == iface && bindings[k] == mac && k != key;
      var kept := bindings - stale;
      assert kept == map k | k in bindings && !(k.iface == iface && bindings[k] == mac && k != key) :: bindings[k];
      bindings := kept[key := mac];
    }

    method ResyncFromLeases(env: Env)
      requires Valid() && forall l :: l in env.leases ==> l.iface in cfg.own
      modifies this`bindings
      ensures Valid() && View() == Run(cfg, old(View()), LeaseSteps(env))
    {
      var n := |env.leases|;
      for i := 0 to n
        invariant Valid() && View() == Run(cfg, old(View()), LeaseSteps(env)[..i])
      {
        assert LeaseSteps(env)[..i + 1][..i] == LeaseSteps(env)[..i];
        var l := env.leases[i];
        ApplyAuthoritative(l.iface, l.ip, l.mac);
      }
      assert LeaseSteps(env)[..n] == LeaseSteps(env);
    }

    /** The router's own address is skipped, so it is never learned from here. */
    method ResyncFromNeighbours(env: Env)
      requires Valid() && forall l :: l in env.neighbours ==> l.iface in cfg.own
      modifies this`bindings, this`pendingState, table, table.repr
      ensures Valid() && fresh(table.repr - old(table.repr))
      ensures View() == Run(cfg, old(View()), NeighbourSteps(env))
    {
      var n := |env.neighbours|;
      for i := 0 to n
        invariant Valid() && fresh(table.repr - old(table.repr))
        invariant View() == Run(cfg, old(View()), NeighbourSteps(env)[..i])
      {
        assert NeighbourSteps(env)[..i + 1][..i] == NeighbourSteps(env)[..i];
        var l := env.neighbours[i];
        if l.ip != cfg.own[l.iface].ip {
          RunChecks(NeighbourClaim(l.iface, l.ip, l.mac, env.now));
        }
      }
      assert NeighbourSteps(env)[..n] == NeighbourSteps(env);
    }

    /** Leases first, then the neighbour cache. */
    method ResyncAll(env: Env)
      requires Valid() && forall l :: l in env.leases || l in env.neighbours ==> l.iface in cfg.own
      modifies this`bindings, this`pendingState, table, table.repr
      ensures Valid() && fresh(table.repr - old(table.repr))
      ensures View() == Run(cfg, old(View()), ResyncSteps(env))
    {
      RunConcat(cfg, View(), LeaseSteps(env), NeighbourSteps(env));
      ResyncFromLeases(env);
      ResyncFromNeighbours(env);
    }

    method ExpireIdle(now: Time)
      requires Valid()
      modifies this`lastCleanup, table, table.repr
      ensures Valid() && table.repr == old(table.repr) && View() == Stepped(cfg, old(View()), Tidy(now))
    {
      table.ExpireIdle(now);
      lastCleanup := now;
    }

    method Watch(e: PacketEvent)
      requires Valid() && e.iface in cfg.own
      modifies this`bindings, this`pendingState, this`lastCleanup, table, table.repr
      ensures Valid() && fresh(table.repr - old(table.repr))
      ensures View() == Run(cfg, old(View()), WatchSteps(cfg, old(lastCleanup), e))
    {
      ghost var s := View();
      RunSingle(cfg, s, Tidy(e.timestamp));
      RunAppend(cfg, s, [], Packet(e));
      RunAppend(cfg, s, [Tidy(e.timestamp)], Packet(e));
      if e.timestamp - lastCleanup > cfg.cleanupInterval {
        ExpireIdle(e.timestamp);
      }
      RunChecks(PacketClaim(e));
    }

    /** Sweep if due, check the packet, resync if due: the packet that triggers a
        resync is judged by the bindings from before it. */
    method Call(e: PacketEvent, env: Env)
      requires Valid() && forall l :: l in env.leases || l in env.neighbours ==> l.iface in cfg.own
      modifies this, table, table.repr
      ensures Valid() && fresh(table.repr - old(table.repr))
      ensures View() == Run(cfg, old(View()), CallSteps(cfg, old(lastCleanup), old(lastResync), e, env))
      ensures lastResync == if e.iface in cfg.own && e.timestamp - old(lastResync) > cfg.resyncInterval
                            then e.timestamp else old(lastResync)
    {
      if e.iface !in cfg.own {
        return;
      }
      RunConcat(cfg, View(), WatchSteps(cfg, lastCleanup, e), ResyncSteps(env));
      RunConcat(cfg, View(), WatchSteps(cfg, lastCleanup, e), []);
      Watch(e);
      if e.timestamp - lastResync > cfg.resyncInterval {
        ResyncAll(env);
        lastResync := e.timestamp;
      }
    }
  }

  lemma {:induction false} RunConcat(cfg: ArpConfig, s: ArpState, xs: seq<Step>, ys: seq<Step>)
    ensures Run(cfg, s, xs + ys) == Run(cfg, Run(cfg, s, xs), ys)
  {
    if ys == [] {
      assert xs + ys == xs;
    } else {
      assert (xs + ys)[..|xs + ys| - 1] == xs + ys[..|ys| - 1];
      RunConcat(cfg, s, xs, ys[..|ys| - 1]);
    }
  }

  lemma RunAppend(cfg: ArpConfig, s: ArpState, xs: seq<Step>, x: Step)
    ensures Run(cfg, s, xs + [x]) == Stepped(cfg, Run(cfg, s, xs), x)
  {
    assert (xs + [x])[..|xs|] == xs;
  }

  lemma RunSingle(cfg: ArpConfig, s: ArpState, x: Step)
    ensures Run(cfg, s, [x]) == Stepped(cfg, s, x)
  {
    assert [x][..0] == [];
  }
}
