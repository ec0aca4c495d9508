/** What packets, cache entries and leases do, told in their own fields. */
module ArpPackets {
  import opened Net
  import opened Attacks
  import opened Detectors
  import opened DetectorTheory
  import opened ArpSpoofDetectors
  import opened ArpLearning
  import opened ArpTruth

  // Evidence.

  /** Somebody says at srcIp that they are srcMac, in a frame for dstMac and about dstIp
      if that is known: this is evidence of the named kind against k. */
  predicate Accuses(id: Identity, b: Bindings, iface: Iface, srcIp: Ip, srcMac: Host,
                    dstIp: Option<Ip>, dstMac: Host, k: Key, check: Check)
  {
    var asRouter := srcIp == id.ip && srcMac != id.mac;
    var owned := Place(iface, srcIp) in b && b[Place(iface, srcIp)] != srcMac;
    var strayed := dstIp.Some? && ToOneHost(dstMac) && Place(iface, dstIp.value) in b
                   && b[Place(iface, dstIp.value)] != NoMac && b[Place(iface, dstIp.value)] != dstMac;
    match check
    case GatewayImpersonation =>
      && asRouter && dstMac != Mac(0xffff_ffff_ffff, 0)
      && k == Key(iface, srcMac, if dstMac == NoMac then UnknownHost else dstMac)
    case GatewayImpersonationBroadcast =>
      asRouter && dstMac == Mac(0xffff_ffff_ffff, 0) && k == Key(iface, srcMac, AllHosts)
    case HostImpersonation =>
      !asRouter && owned && dstMac != id.mac && k == Key(iface, srcMac, b[Place(iface, srcIp)])
    case HostImpersonationRouterTargeted =>
      !asRouter && owned && dstMac == id.mac && k == Key(iface, srcMac, id.mac)
    case HostsRouterCachePoisoned =>
      !asRouter && dstIp == Some(id.ip) && ToOneHost(dstMac) && dstMac != id.mac && k == Key(iface, dstMac, srcMac)
    case RouterCachePoisoned =>
      !asRouter && strayed && srcMac == id.mac && k == Key(iface, dstMac, b[Place(iface, dstIp.value)])
    case HostsHostCachePoisoned =>
      !asRouter && strayed && srcMac != id.mac && k == Key(iface, dstMac, srcMac)
    case _ => false
  }

  /** The address that evidence of this kind puts into its attacker's mouth. */
  function Mouthed(srcIp: Ip, dstIp: Option<Ip>, check: Check): Option<Ip> {
    match check
    case HostsRouterCachePoisoned => None
    case RouterCachePoisoned => dstIp
    case HostsHostCachePoisoned => dstIp
    case _ => Some(srcIp)
  }

  function Tally(t: Table, k: Key, check: Check): nat {
    if k in t.incidents then t.incidents[k].checkCounts[check] else 0
  }

  function Named(t: Table, k: Key): set<Ip> {
    if k in t.incidents then t.incidents[k].claimedIps else {}
  }

  predicate Is(e: Option<Evidence>, k: Key, check: Check) {
    e.Some? && e.value.key == k && e.value.check == check
  }

  lemma {:induction false} RaisedTallies(t: Table, e: Option<Evidence>, k: Key, check: Check)
    ensures Tally(Raised(t, e), k, check) == Tally(t, k, check) + if Is(e, k, check) then 1 else 0
    ensures Named(Raised(t, e), k) == Named(t, k) + if e.Some? && e.value.key == k then e.value.claimed else {}
  {
  }

  /** Each kind of evidence comes from one check, and just when the fields say so. */
  lemma {:induction false} ChecksAccuse(cfg: ArpConfig, b: Bindings, c: Claim, k: Key, check: Check)
    requires c.iface in cfg.own
    ensures
      var id := cfg.own[c.iface];
      var accuses := Accuses(id, b, c.iface, c.srcIp, c.srcMac, c.dstIp, c.dstMac, k, check);
      if ClaimsRouter(id, c) then accuses <==> Is(CheckGateway(cfg, id, c), k, check)
      else
        && (check == HostsRouterCachePoisoned ==> (accuses <==> Is(CheckRouterCache(id, c), k, check)))
        && (check == RouterCachePoisoned || check == HostsHostCachePoisoned ==>
              (accuses <==> Is(CheckHostCache(id, b, c), k, check)))
        && (check == HostImpersonation || check == HostImpersonationRouterTargeted ==>
              (accuses <==> Is(CheckImpersonation(cfg, id, b, c), k, check)))
        && (check in {GatewayImpersonation, GatewayImpersonationBroadcast, Probe, Reply} ==> !accuses)
  {
  }

  lemma {:induction false} ChecksKinds(cfg: ArpConfig, b: Bindings, c: Claim, k: Key, check: Check)
    requires c.iface in cfg.own
    ensures
      var id := cfg.own[c.iface];
      && (Is(CheckRouterCache(id, c), k, check) ==> check == HostsRouterCachePoisoned)
      && (Is(CheckHostCache(id, b, c), k, check) ==> check == RouterCachePoisoned || check == HostsHostCachePoisoned)
      && (Is(CheckImpersonation(cfg, id, b, c), k, check) ==>
            check == HostImpersonation || check == HostImpersonationRouterTargeted)
  {
  }

  /** Exactly the evidence that the fields amount to is recorded, in any state. */
  lemma {:induction false} ClaimTallies(cfg: ArpConfig, s: ArpState, c: Claim, k: Key, check: Check)
    requires c.iface in cfg.own
    ensures
      Tally(Checked(cfg, s, c).table, k, check) ==
      Tally(s.table, k, check) +
      if Accuses(cfg.own[c.iface], s.bindings, c.iface, c.srcIp, c.srcMac, c.dstIp, c.dstMac, k, check) then 1 else 0
  {
    var id := cfg.own[c.iface];
    ChecksAccuse(cfg, s.bindings, c, k, check);
    ChecksKinds(cfg, s.bindings, c, k, check);
    if ClaimsRouter(id, c) {
      RaisedTallies(s.table, CheckGateway(cfg, id, c), k, check);
    } else {
      var r, h := CheckRouterCache(id, c), CheckHostCache(id, s.bindings, c);
      var t1 := Raised(s.table, r);
      RaisedTallies(s.table, r, k, check);
      RaisedTallies(t1, h, k, check);
      RaisedTallies(Raised(t1, h), CheckImpersonation(cfg, id, s.bindings, c), k, check);
    }
  }

  ghost predicate Mouths(id: Identity, b: Bindings, iface: Iface, srcIp: Ip, srcMac: Host,
                         dstIp: Option<Ip>, dstMac: Host, k: Key, ip: Ip)
  {
    exists check: Check ::
      Accuses(id, b, iface, srcIp, srcMac, dstIp, dstMac, k, check) && Mouthed(srcIp, dstIp, check) == Some(ip)
  }

  lemma {:induction false} ChecksMouth(cfg: ArpConfig, b: Bindings, c: Claim, k: Key, ip: Ip)
    requires c.iface in cfg.own
    ensures
      var id := cfg.own[c.iface];
      var g, r, h, i := CheckGateway(cfg, id, c), CheckRouterCache(id, c), CheckHostCache(id, b, c), CheckImpersonation(cfg, id, b, c);
      var mouths := Mouths(id, b, c.iface, c.srcIp, c.srcMac, c.dstIp, c.dstMac, k, ip);
      if ClaimsRouter(id, c) then mouths <==> (g.value.key == k && ip in g.value.claimed)
      else mouths <==> ((h.Some? && h.value.key == k && ip in h.value.claimed) ||
                        (i.Some? && i.value.key == k && ip in i.value.claimed))
    ensures CheckRouterCache(cfg.own[c.iface], c).Some? ==> CheckRouterCache(cfg.own[c.iface], c).value.claimed == {}
  {
    var id := cfg.own[c.iface];
    var g, h, i := CheckGateway(cfg, id, c), CheckHostCache(id, b, c), CheckImpersonation(cfg, id, b, c);
    if ClaimsRouter(id, c) {
      ChecksAccuse(cfg, b, c, k, g.value.check);
      assert Accuses(id, b, c.iface, c.srcIp, c.srcMac, c.dstIp, c.dstMac, k, g.value.check) <==> g.value.key == k;
    } else {
      if h.Some? {
        ChecksAccuse(cfg, b, c, k, h.value.check);
        assert Accuses(id, b, c.iface, c.srcIp, c.srcMac, c.dstIp, c.dstMac, k, h.value.check) <==> h.value.key == k;
      }
      if i.Some? {
        ChecksAccuse(cfg, b, c, k, i.value.check);
        assert Accuses(id, b, c.iface, c.srcIp, c.srcMac, c.dstIp, c.dstMac, k, i.value.check) <==> i.value.key == k;
      }
    }
  }

  lemma {:induction false} ClaimNames(cfg: ArpConfig, s: ArpState, c: Claim, k: Key, ip: Ip)
    requires c.iface in cfg.own
    ensures
      ip in Named(Checked(cfg, s, c).table, k) <==>
      (ip in Named(s.table, k) ||
       Mouths(cfg.own[c.iface], s.bindings, c.iface, c.srcIp, c.srcMac, c.dstIp, c.dstMac, k, ip))
  {
    var id := cfg.own[c.iface];
    ChecksMouth(cfg, s.bindings, c, k, ip);
    if ClaimsRouter(id, c) {
      RaisedTallies(s.table, CheckGateway(cfg, id, c), k, Probe);
    } else {
      var r, h := CheckRouterCache(id, c), CheckHostCache(id, s.bindings, c);
      var t1 := Raised(s.table, r);
      RaisedTallies(s.table, r, k, Probe);
      RaisedTallies(t1, h, k, Probe);
      RaisedTallies(Raised(t1, h), CheckImpersonation(cfg, id, s.bindings, c), k, Probe);
    }
  }

  // Trust.

  /** What one claim teaches, told in its fields: nothing if it falsely claims to be the
      router or its address is bound; else the candidate counts on, or anew after an idle
      gap, until it owns the address and the contest for it is over. */
  ghost predicate Taught(cfg: ArpConfig, s: Trust, u: Trust, iface: Iface, ip: Ip, mac: Host, now: Time)
    requires iface in cfg.own
  {
    var place, who := Place(iface, ip), Candidate(iface, ip, mac);
    var count := if who in s.pending && now - s.pending[who].lastSeen <= cfg.idleExpiry then s.pending[who].count + 1 else 1;
    if (ip == cfg.own[iface].ip && mac != cfg.own[iface].mac) || place in s.bindings then
      u.bindings == s.bindings && u.pending == s.pending
    else if count < cfg.learnThreshold then
      u.bindings == s.bindings && u.pending == s.pending[who := Pending(count, now)]
    else
      && u.bindings == s.bindings[place := mac]
      && (forall k: Candidate :: k in u.pending <==> k in s.pending && !(k.iface == iface && k.ip == ip))
      && (forall k: Candidate :: k in u.pending ==> u.pending[k] == s.pending[k])
  }

  lemma {:induction false} ClaimTaught(cfg: ArpConfig, s: ArpState, c: Claim)
    requires c.iface in cfg.own && Below(s.pending, cfg.learnThreshold)
    ensures Taught(cfg, TrustOf(s), TrustOf(Checked(cfg, s, c)), c.iface, c.srcIp, c.srcMac, c.time)
  {
    CheckedTrust(cfg, s, c);
    LearningIsFirst(cfg, TrustOf(s), c);
  }

  // Packets and cache entries.

  /** In every reachable state a packet on a watched interface leaves exactly the evidence
      that its fields amount to, of each kind and against each incident, puts exactly the
      addresses at issue into attackers' mouths, and teaches what its source says. */
  lemma {:induction false} PacketJudged(cfg: ArpConfig, xs: seq<Step>, e: PacketEvent, k: Key, check: Check, ip: Ip)
    requires e.iface in cfg.own
    ensures
      var s, u, id := Run(cfg, ARP_START, xs), Run(cfg, ARP_START, xs + [Packet(e)]), cfg.own[e.iface];
      && Tally(u.table, k, check) ==
         Tally(s.table, k, check) +
         (if Accuses(id, s.bindings, e.iface, e.srcIp, e.srcMac, Some(e.dstIp), e.dstMac, k, check) then 1 else 0)
      && (ip in Named(u.table, k) <==>
           (ip in Named(s.table, k) ||
            Mouths(id, s.bindings, e.iface, e.srcIp, e.srcMac, Some(e.dstIp), e.dstMac, k, ip)))
      && Taught(cfg, TrustOf(s), TrustOf(u), e.iface, e.srcIp, e.srcMac, e.timestamp)
  {
    var s := Run(cfg, ARP_START, xs);
    RunAppend(cfg, ARP_START, xs, Packet(e));
    RunBelow(cfg, xs);
    ClaimTallies(cfg, s, PacketClaim(e), k, check);
    ClaimNames(cfg, s, PacketClaim(e), k, ip);
    ClaimTaught(cfg, s, PacketClaim(e));
  }

  /** A packet on any other interface changes nothing. */
  lemma {:induction false} PacketIgnored(cfg: ArpConfig, xs: seq<Step>, e: PacketEvent)
    requires e.iface !in cfg.own
    ensures Run(cfg, ARP_START, xs + [Packet(e)]) == Run(cfg, ARP_START, xs)
  {
    RunAppend(cfg, ARP_START, xs, Packet(e));
  }

  /** A neighbour-cache entry is judged as a claim without destination, unless it is about
      the router's own address: then it changes nothing. */
  lemma {:induction false} NeighbourJudged(cfg: ArpConfig, xs: seq<Step>, iface: Iface, srcIp: Ip, mac: Host, now: Time,
                                           k: Key, check: Check, ip: Ip)
    requires iface in cfg.own
    ensures
      var s, u := Run(cfg, ARP_START, xs), Run(cfg, ARP_START, xs + [Neighbour(iface, srcIp, mac, now)]);
      var id := cfg.own[iface];
      if srcIp == id.ip then u == s
      else
        && Tally(u.table, k, check) ==
           Tally(s.table, k, check) + (if Accuses(id, s.bindings, iface, srcIp, mac, None, NoMac, k, check) then 1 else 0)
        && (ip in Named(u.table, k) <==>
             (ip in Named(s.table, k) || Mouths(id, s.bindings, iface, srcIp, mac, None, NoMac, k, ip)))
        && Taught(cfg, TrustOf(s), TrustOf(u), iface, srcIp, mac, now)
  {
    var s, c := Run(cfg, ARP_START, xs), NeighbourClaim(iface, srcIp, mac, now);
    RunAppend(cfg, ARP_START, xs, Neighbour(iface, srcIp, mac, now));
    RunBelow(cfg, xs);
    if srcIp != cfg.own[iface].ip {
      ClaimTallies(cfg, s, c, k, check);
      ClaimNames(cfg, s, c, k, ip);
      ClaimTaught(cfg, s, c);
    }
  }

  // How far evidence carries an incident.

  /** The rung after evidence that is a fact or only a claim: up to confirmed at once, or
      when the threshold is met, and to ongoing from there. */
  function NextRung(before: Option<AttackState>, fact: bool, threshold: int): Rung {
    var count := if before.Some? then before.value.count else 0;
    if before.Some? && Effective(before.value) != Suspected then Ongoing
    else if fact || count + 1 >= threshold then Confirmed
    else Suspected
  }

  lemma {:induction false} LoggedRung(t: Table, e: Evidence, threshold: int)
    requires e.strength == Fact || e.strength == ByCount(threshold)
    ensures
      var a := Logged(t, e).incidents[e.key];
      && e.key in Logged(t, e).incidents
      && a.status == Active(NextRung(IncidentOf(t, e.key), e.strength == Fact, threshold))
      && a.lastSeen == e.time && a.count == CountOf(t, e.key) + 1
  {
  }

  /** The victim of a false claim to be the router, by the frame's receiver. */
  function Deceived(dstMac: Host): Host {
    if dstMac == NoMac then UnknownHost
    else if dstMac == Mac(0xffff_ffff_ffff, 0) then AllHosts
    else dstMac
  }

  /** In every reachable state a false claim to be the router adds one to the incident of
      its sender against its receiver and to no other; traffic is proof at once, an ARP
      announcement only when the threshold is met. */
  lemma {:induction false} FalseRouterPacket(cfg: ArpConfig, xs: seq<Step>, e: PacketEvent, k: Key)
    requires e.iface in cfg.own && e.srcIp == cfg.own[e.iface].ip && e.srcMac != cfg.own[e.iface].mac
    ensures
      var t, u := Run(cfg, ARP_START, xs).table, Run(cfg, ARP_START, xs + [Packet(e)]).table;
      && CountOf(u, k) == CountOf(t, k) + (if k == Key(e.iface, e.srcMac, Deceived(e.dstMac)) then 1 else 0)
      && (k == Key(e.iface, e.srcMac, Deceived(e.dstMac)) ==>
            k in u.incidents && u.incidents[k].lastSeen == e.timestamp
            && u.incidents[k].status == Active(NextRung(IncidentOf(t, k), e.proto == Tcp || e.proto == Udp, cfg.confirmThreshold)))
  {
    var t, id, c := Run(cfg, ARP_START, xs).table, cfg.own[e.iface], PacketClaim(e);
    RunAppend(cfg, ARP_START, xs, Packet(e));
    var g := CheckGateway(cfg, id, c);
    RaisedCount(t, g, k);
    LoggedRung(t, g.value, cfg.confirmThreshold);
  }

  /** False claims to be the router that went to different addresses never share an incident. */
  lemma {:induction false} VictimsApart(d: Host, d': Host)
    requires (d == NoMac || d.Mac?) && (d' == NoMac || d'.Mac?)
    ensures Deceived(d) == Deceived(d') <==> d == d'
  {
  }

  lemma {:induction false} ImpersonationKey(cfg: ArpConfig, s: ArpState, c: Claim)
    requires c.iface in cfg.own && !ClaimsRouter(cfg.own[c.iface], c)
    requires CheckImpersonation(cfg, cfg.own[c.iface], s.bindings, c).Some?
    requires Place(c.iface, cfg.own[c.iface].ip) in s.bindings ==>
               s.bindings[Place(c.iface, cfg.own[c.iface].ip)] == cfg.own[c.iface].mac
    ensures
      var id := cfg.own[c.iface];
      var k := CheckImpersonation(cfg, id, s.bindings, c).value.key;
      && !(CheckRouterCache(id, c).Some? && CheckRouterCache(id, c).value.key == k)
      && !(CheckHostCache(id, s.bindings, c).Some? && CheckHostCache(id, s.bindings, c).value.key == k)
  {
    HitsAtMostTwice(cfg, s.bindings, c, CheckImpersonation(cfg, cfg.own[c.iface], s.bindings, c).value.key);
  }

  lemma {:induction false} RaisedElsewhere(t: Table, e: Option<Evidence>, k: Key)
    requires !(e.Some? && e.value.key == k)
    ensures IncidentOf(Raised(t, e), k) == IncidentOf(t, k) && CountOf(Raised(t, e), k) == CountOf(t, k)
  {
  }

  /** In every reachable state a packet whose source says it has an address bound to
      another MAC adds one to the incident of its sender against the owner, or against
      the router if it was sent to the router, and that counts toward the threshold only. */
  lemma {:induction false} ImpostorPacket(cfg: ArpConfig, xs: seq<Step>, e: PacketEvent)
    requires e.iface in cfg.own && e.srcIp != cfg.own[e.iface].ip
    requires
      var b := Run(cfg, ARP_START, xs).bindings;
      Place(e.iface, e.srcIp) in b && b[Place(e.iface, e.srcIp)] != e.srcMac
    ensures
      var s, u := Run(cfg, ARP_START, xs), Run(cfg, ARP_START, xs + [Packet(e)]).table;
      var router := cfg.own[e.iface].mac;
      var k := Key(e.iface, e.srcMac, if e.dstMac == router then router else s.bindings[Place(e.iface, e.srcIp)]);
      && k in u.incidents && u.incidents[k].count == CountOf(s.table, k) + 1
      && e.srcIp in u.incidents[k].claimedIps && u.incidents[k].lastSeen == e.timestamp
      && u.incidents[k].status == Active(NextRung(IncidentOf(s.table, k), false, cfg.confirmThreshold))
  {
    var s, id, c := Run(cfg, ARP_START, xs), cfg.own[e.iface], PacketClaim(e);
    RunAppend(cfg, ARP_START, xs, Packet(e));
    RunRouterSafe(cfg, xs);
    var r, h, i := CheckRouterCache(id, c), CheckHostCache(id, s.bindings, c), CheckImpersonation(cfg, id, s.bindings, c);
    var t1 := Raised(s.table, r);
    ImpersonationKey(cfg, s, c);
    RaisedElsewhere(s.table, r, i.value.key);
    RaisedElsewhere(t1, h, i.value.key);
    LoggedRung(Raised(t1, h), i.value, cfg.confirmThreshold);
  }

  /** In every reachable state a packet delivered to a MAC that is not the router's, or not
      the bound owner's, puts that MAC above suspicion. */
  lemma {:induction false} StrayPacket(cfg: ArpConfig, xs: seq<Step>, e: PacketEvent)
    requires e.iface in cfg.own && !(e.srcIp == cfg.own[e.iface].ip && e.srcMac != cfg.own[e.iface].mac)
    requires ToOneHost(e.dstMac)
    ensures
      var s, u := Run(cfg, ARP_START, xs), Run(cfg, ARP_START, xs + [Packet(e)]).table;
      e.dstIp == cfg.own[e.iface].ip && e.dstMac != cfg.own[e.iface].mac ==>
        Convicted(s.table, u, Key(e.iface, e.dstMac, e.srcMac), {})
    ensures
      var s, u := Run(cfg, ARP_START, xs), Run(cfg, ARP_START, xs + [Packet(e)]).table;
      var place := Place(e.iface, e.dstIp);
      place in s.bindings && s.bindings[place] != NoMac && s.bindings[place] != e.dstMac ==>
        var victim := if e.srcMac == cfg.own[e.iface].mac then s.bindings[place] else e.srcMac;
        Convicted(s.table, u, Key(e.iface, e.dstMac, victim), {e.dstIp})
  {
    RunAppend(cfg, ARP_START, xs, Packet(e));
    MisdirectionIsCaught(cfg, xs, PacketClaim(e));
  }
}
