/** Segments on which nobody lies, and the first lie. */
module ArpTruth {
  import opened Net
  import opened Attacks
  import opened Detectors
  import opened DetectorTheory
  import opened ArpSpoofDetectors
  import opened ArpEvidence
  import opened ArpLearning

  /** A fixed owner for every address, the router's included. */
  predicate RouterOwns(cfg: ArpConfig, truth: map<Place, Host>) {
    forall i :: i in cfg.own ==> Place(i, cfg.own[i].ip) in truth && truth[Place(i, cfg.own[i].ip)] == cfg.own[i].mac
  }

  predicate Owns(truth: map<Place, Host>, iface: Iface, ip: Ip, mac: Host) {
    Place(iface, ip) in truth && truth[Place(iface, ip)] == mac
  }

  /** The source is the owner of its address, and so is the receiver, unless the packet
      went to everybody or its receiver is not known. */
  predicate TruthfulClaim(truth: map<Place, Host>, c: Claim) {
    && Owns(truth, c.iface, c.srcIp, c.srcMac)
    && (c.dstIp.Some? && Unicast(c.dstMac) && Place(c.iface, c.dstIp.value) in truth ==>
          truth[Place(c.iface, c.dstIp.value)] == c.dstMac)
  }

  /** The frame is addressed to one host: to a MAC, and not to the broadcast address in
      any spelling. */
  predicate ToOneHost(m: Host) {
    m != NoMac && !(m.Mac? && m.bits == 0xffff_ffff_ffff)
  }

  predicate Truthful(cfg: ArpConfig, truth: map<Place, Host>, x: Step) {
    match x
    case Packet(e) => e.iface in cfg.own ==>
      && Owns(truth, e.iface, e.srcIp, e.srcMac)
      && (ToOneHost(e.dstMac) && Place(e.iface, e.dstIp) in truth ==> truth[Place(e.iface, e.dstIp)] == e.dstMac)
    case Neighbour(iface, ip, mac, _) => iface in cfg.own ==> Owns(truth, iface, ip, mac)
    case Lease(iface, ip, mac) => iface in cfg.own ==> Owns(truth, iface, ip, mac)
    case Tidy(_) => true
  }

  /** Everything believed or considered is true, and nobody stands accused. */
  ghost predicate Clean(truth: map<Place, Host>, s: ArpState) {
    && (forall p :: p in s.bindings ==> p in truth && s.bindings[p] == truth[p])
    && (forall k :: k in s.pending ==> Owns(truth, k.iface, k.ip, k.mac))
    && s.table.incidents == map[] && s.table.order == []
  }

  lemma TruthIsNoEvidence(cfg: ArpConfig, truth: map<Place, Host>, s: ArpState, c: Claim)
    requires c.iface in cfg.own && RouterOwns(cfg, truth) && Clean(truth, s) && TruthfulClaim(truth, c)
    ensures CheckOps(cfg, s.bindings, c) == []
  {
    var id := cfg.own[c.iface];
    assert CheckGateway(cfg, id, c).None?;
    assert CheckRouterCache(id, c).None?;
    assert CheckHostCache(id, s.bindings, c).None?;
    assert CheckImpersonation(cfg, id, s.bindings, c).None?;
  }

  lemma TruthfulStep(cfg: ArpConfig, truth: map<Place, Host>, s: ArpState, x: Step)
    requires RouterOwns(cfg, truth) && Clean(truth, s) && Truthful(cfg, truth, x)
    requires Below(s.pending, cfg.learnThreshold)
    ensures Clean(truth, Stepped(cfg, s, x))
  {
    if ClaimOf(cfg, x).Some? {
      var c := ClaimOf(cfg, x).value;
      assert TruthfulClaim(truth, c);
      TruthIsNoEvidence(cfg, truth, s, c);
      CheckedIsApplied(cfg, s, c);
      CheckedTrust(cfg, s, c);
      LearningIsFirst(cfg, TrustOf(s), c);
    }
  }

  /** Soundness: if every packet, cache entry and lease of a run tells the truth, then
      bindings and candidates stay within the truth and no incident is ever created. */
  lemma {:induction false} TruthfulRun(cfg: ArpConfig, truth: map<Place, Host>, xs: seq<Step>)
    requires RouterOwns(cfg, truth) && forall x :: x in xs ==> Truthful(cfg, truth, x)
    ensures Clean(truth, Run(cfg, ARP_START, xs))
  {
    if xs != [] {
      var front := xs[..|xs| - 1];
      assert xs[|xs| - 1] in xs && forall x :: x in front ==> x in xs;
      TruthfulRun(cfg, truth, front);
      RunBelow(cfg, front);
      TruthfulStep(cfg, truth, Run(cfg, ARP_START, front), xs[|xs| - 1]);
    }
  }

  /** The source claims the router's address, or a bound one, with another MAC. */
  predicate Lies(cfg: ArpConfig, b: Bindings, c: Claim)
    requires c.iface in cfg.own
  {
    ClaimsRouter(cfg.own[c.iface], c) || (Place(c.iface, c.srcIp) in b && b[Place(c.iface, c.srcIp)] != c.srcMac)
  }

  /** The key of an incident that names the sender. */
  function Accusation(cfg: ArpConfig, b: Bindings, c: Claim): Key
    requires c.iface in cfg.own && Lies(cfg, b, c)
  {
    var id := cfg.own[c.iface];
    Key(c.iface, c.srcMac,
        if ClaimsRouter(id, c) then GatewayVictim(c.dstMac)
        else if c.dstMac == id.mac then id.mac else b[Place(c.iface, c.srcIp)])
  }

  lemma LoggedCounts(t: Table, e: Evidence)
    ensures
      var u := Logged(t, e);
      && e.key in u.incidents && u.incidents[e.key].count == CountOf(t, e.key) + 1
      && u.incidents[e.key].checkCounts[e.check] >= 1 && e.claimed <= u.incidents[e.key].claimedIps
      && |u.log| == |t.log| + 1 && u.log[|t.log|].Alert? && u.log[|t.log|].key == e.key && u.log[|t.log|].check == e.check
  {
  }

  lemma RaisedKeeps(t: Table, e: Option<Evidence>, k: Key)
    ensures CountOf(t, k) <= CountOf(Raised(t, e), k)
  {
  }

  /** The incident has more evidence in u than in t, stands above suspicion, and its
      attacker is known to have answered for the addresses ips. */
  predicate Convicted(t: Table, u: Table, k: Key, ips: set<Ip>) {
    && k in u.incidents && CountOf(t, k) < u.incidents[k].count
    && Effective(u.incidents[k]) != Suspected && ips <= u.incidents[k].claimedIps
  }

  lemma FactConvicts(t: Table, e: Evidence)
    requires e.strength == Fact
    ensures Convicted(t, Logged(t, e), e.key, e.claimed)
  {
  }

  lemma ConvictionStands(t: Table, u: Table, e: Option<Evidence>, k: Key, ips: set<Ip>)
    requires Convicted(t, u, k, ips)
    ensures Convicted(t, Raised(u, e), k, ips)
  {
  }

  lemma ConvictedBefore(t: Table, e: Option<Evidence>, u: Table, k: Key, ips: set<Ip>)
    requires Convicted(Raised(t, e), u, k, ips)
    ensures Convicted(t, u, k, ips)
  {
    RaisedKeeps(t, e, k);
  }

  /** A packet for the router went to another MAC. */
  predicate RouterBypassed(id: Identity, c: Claim) {
    c.dstIp == Some(id.ip) && Unicast(c.dstMac) && c.dstMac != id.mac
  }

  /** Completeness for receivers: in every reachable state a packet that went to a MAC
      other than the router's, or than the one bound to its destination, puts the
      receiver at once above suspicion, against the sender, or against the rightful
      owner if it is the router that was misled. */
  lemma {:induction false} MisdirectionIsCaught(cfg: ArpConfig, xs: seq<Step>, c: Claim)
    requires c.iface in cfg.own && !ClaimsRouter(cfg.own[c.iface], c)
    ensures
      var s, id := Run(cfg, ARP_START, xs), cfg.own[c.iface];
      RouterBypassed(id, c) ==> Convicted(s.table, Checked(cfg, s, c).table, Key(c.iface, c.dstMac, c.srcMac), {})
    ensures
      var s, id := Run(cfg, ARP_START, xs), cfg.own[c.iface];
      Misdelivered(s.bindings, c) ==>
        var owner := s.bindings[Place(c.iface, c.dstIp.value)];
        var victim := if c.srcMac == id.mac then owner else c.srcMac;
        Convicted(s.table, Checked(cfg, s, c).table, Key(c.iface, c.dstMac, victim), {c.dstIp.value})
  {
    var s, id := Run(cfg, ARP_START, xs), cfg.own[c.iface];
    var r, h := CheckRouterCache(id, c), CheckHostCache(id, s.bindings, c);
    var i := CheckImpersonation(cfg, id, s.bindings, c);
    var t1 := Raised(s.table, r);
    var t2 := Raised(t1, h);
    assert Checked(cfg, s, c).table == Raised(t2, i);
    if r.Some? {
      FactConvicts(s.table, r.value);
      ConvictionStands(s.table, t1, h, r.value.key, {});
      ConvictionStands(s.table, t2, i, r.value.key, {});
    }
    if h.Some? {
      FactConvicts(t1, h.value);
      ConvictedBefore(s.table, r, t2, h.value.key, h.value.claimed);
      ConvictionStands(s.table, t2, i, h.value.key, h.value.claimed);
    }
  }

  /** The checks speak exactly when something is wrong: in every reachable state a claim
      adds evidence if and only if its source lies or it went to the wrong MAC. */
  lemma {:induction false} EvidenceIffWrong(cfg: ArpConfig, xs: seq<Step>, c: Claim)
    requires c.iface in cfg.own
    ensures
      var s, id := Run(cfg, ARP_START, xs), cfg.own[c.iface];
      TotalCount(Checked(cfg, s, c).table) != TotalCount(s.table) <==>
      (Lies(cfg, s.bindings, c) || RouterBypassed(id, c) || Misdelivered(s.bindings, c))
  {
    var s, id := Run(cfg, ARP_START, xs), cfg.own[c.iface];
    ReachableOrdered(cfg, xs);
    CheckedIsApplied(cfg, s, c);
    ChecksAreFew(cfg, s.bindings, c);
    LogsAppended(s.table, CheckOps(cfg, s.bindings, c), cfg.idleExpiry);
    assert CheckOps(cfg, s.bindings, c) == [] <==>
      (CheckGateway(cfg, id, c).None? && CheckRouterCache(id, c).None? &&
       CheckHostCache(id, s.bindings, c).None? && CheckImpersonation(cfg, id, s.bindings, c).None?);
  }

  /** What the sender of a lie is accused of. */
  function Charge(id: Identity, c: Claim): Check {
    if c.srcIp == id.ip then
      (if c.dstMac == BROADCAST then GatewayImpersonationBroadcast else GatewayImpersonation)
    else
      (if c.dstMac == id.mac then HostImpersonationRouterTargeted else HostImpersonation)
  }

  /** Completeness for sources: in every reachable state a false source claim on the
      router's address or on a bound one is recorded, in an incident whose attacker
      is the sender and whose claimed addresses include the one it lied about, and
      the last line printed is that alert, under the name of the lie. */
  lemma {:induction false} LieIsCaught(cfg: ArpConfig, xs: seq<Step>, c: Claim)
    requires c.iface in cfg.own && Lies(cfg, Run(cfg, ARP_START, xs).bindings, c)
    ensures
      var s := Run(cfg, ARP_START, xs);
      var k, t := Accusation(cfg, s.bindings, c), Checked(cfg, s, c).table;
      && k.attacker == c.srcMac && k in t.incidents
      && t.incidents[k].count > CountOf(s.table, k) && c.srcIp in t.incidents[k].claimedIps
      && t.log != [] && t.log[|t.log| - 1].Alert? && t.log[|t.log| - 1].key == k
      && t.log[|t.log| - 1].check == Charge(cfg.own[c.iface], c)
  {
    var s, id := Run(cfg, ARP_START, xs), cfg.own[c.iface];
    var k := Accusation(cfg, s.bindings, c);
    RunRouterSafe(cfg, xs);
    if ClaimsRouter(id, c) {
      LoggedCounts(s.table, CheckGateway(cfg, id, c).value);
    } else {
      var r, h := CheckRouterCache(id, c), CheckHostCache(id, s.bindings, c);
      var t1 := Raised(s.table, r);
      var t2 := Raised(t1, h);
      RaisedKeeps(s.table, r, k);
      RaisedKeeps(t1, h, k);
      LoggedCounts(t2, CheckImpersonation(cfg, id, s.bindings, c).value);
    }
  }

  function Hit(e: Option<Evidence>, k: Key): nat {
    if e.Some? && e.value.key == k then 1 else 0
  }

  lemma {:induction false} RaisedCount(t: Table, e: Option<Evidence>, k: Key)
    ensures CountOf(Raised(t, e), k) == CountOf(t, k) + Hit(e, k)
  {
  }

  /** A claim that passes the gateway check raises a count as often as the other three
      checks name its incident. */
  lemma {:induction false} ClaimHits(cfg: ArpConfig, s: ArpState, c: Claim, k: Key)
    requires c.iface in cfg.own && !ClaimsRouter(cfg.own[c.iface], c)
    ensures
      var id := cfg.own[c.iface];
      CountOf(Checked(cfg, s, c).table, k) ==
      CountOf(s.table, k) + Hit(CheckRouterCache(id, c), k) + Hit(CheckHostCache(id, s.bindings, c), k)
        + Hit(CheckImpersonation(cfg, id, s.bindings, c), k)
  {
    var id := cfg.own[c.iface];
    var r, h := CheckRouterCache(id, c), CheckHostCache(id, s.bindings, c);
    var t1 := Raised(s.table, r);
    var t2 := Raised(t1, h);
    RaisedCount(s.table, r, k);
    RaisedCount(t1, h, k);
    RaisedCount(t2, CheckImpersonation(cfg, id, s.bindings, c), k);
  }

  /** A packet for the router went to another MAC although the router's own address has
      been learned, and the router has a MAC. */
  predicate DoublyWrong(id: Identity, b: Bindings, c: Claim) {
    !ClaimsRouter(id, c) && RouterBypassed(id, c) && Place(c.iface, id.ip) in b && id.mac != NoMac
  }

  /** Which pairs of checks can name one incident: only the two on delivery, and only
      when the packet is doubly wrong. */
  lemma {:induction false} HitsAtMostTwice(cfg: ArpConfig, b: Bindings, c: Claim, k: Key)
    requires c.iface in cfg.own && !ClaimsRouter(cfg.own[c.iface], c)
    requires Place(c.iface, cfg.own[c.iface].ip) in b ==> b[Place(c.iface, cfg.own[c.iface].ip)] == cfg.own[c.iface].mac
    ensures
      var id := cfg.own[c.iface];
      var n := Hit(CheckRouterCache(id, c), k) + Hit(CheckHostCache(id, b, c), k) + Hit(CheckImpersonation(cfg, id, b, c), k);
      n <= 2 && (n == 2 <==> (DoublyWrong(id, b, c) && k == Key(c.iface, c.dstMac, c.srcMac)))
  {
    var id := cfg.own[c.iface];
    var r, h, i := CheckRouterCache(id, c), CheckHostCache(id, b, c), CheckImpersonation(cfg, id, b, c);
    assert i.Some? && r.Some? ==> i.value.key != r.value.key;
    assert i.Some? && h.Some? ==> i.value.key != h.value.key;
    assert r.Some? && h.Some? ==> r.value.key == h.value.key == Key(c.iface, c.dstMac, c.srcMac);
    assert r.Some? && h.Some? <==> DoublyWrong(id, b, c);
  }

  /** Counts are of evidence, not of packets: in every reachable state one claim adds at
      most two to the count of any incident, and it adds two if and only if it is doubly
      wrong and the incident is the receiver's against the sender. */
  lemma {:induction false} CountedTwice(cfg: ArpConfig, xs: seq<Step>, c: Claim, k: Key)
    requires c.iface in cfg.own
    ensures
      var s := Run(cfg, ARP_START, xs);
      var n := CountOf(Checked(cfg, s, c).table, k) - CountOf(s.table, k);
      && 0 <= n <= 2
      && (n == 2 <==> (DoublyWrong(cfg.own[c.iface], s.bindings, c) && k == Key(c.iface, c.dstMac, c.srcMac)))
  {
    var s, id := Run(cfg, ARP_START, xs), cfg.own[c.iface];
    if ClaimsRouter(id, c) {
      RaisedCount(s.table, CheckGateway(cfg, id, c), k);
    } else {
      RunRouterSafe(cfg, xs);
      ClaimHits(cfg, s, c, k);
      HitsAtMostTwice(cfg, s.bindings, c, k);
    }
  }
}
