/** Laws of the ARP detector that do not hold without exception: just when they do, and
    runs in which they do not. */
module ArpExceptions {
  import opened Net
  import opened DetectorTheory
  import opened ArpSpoofDetectors
  import opened ArpEvidence
  import opened ArpLearning
  import opened ArpProvenance
  import opened ArpDhcp
  import opened ArpTruth

  // One MAC, one address.

  /** The step is the claim that makes its candidate the owner, and the MAC already owns
      another address of the interface. */
  predicate Shares(cfg: ArpConfig, s: ArpState, x: Step) {
    ClaimOf(cfg, x).Some? &&
    var c := ClaimOf(cfg, x).value;
    && Teaches(cfg, s.bindings, c)
    && NextCount(s.pending, Candidate(c.iface, c.srcIp, c.srcMac), cfg.idleExpiry, c.time) >= cfg.learnThreshold
    && exists q :: q in s.bindings && q.iface == c.iface && s.bindings[q] == c.srcMac
  }

  lemma {:induction false} BindKeepsOneEach(cfg: ArpConfig, b: Bindings, p: Place, mac: Host)
    requires OneAddressEach(cfg, b) && p !in b && p.iface in cfg.own
    ensures OneAddressEach(cfg, b[p := mac]) <==> !(exists q :: q in b && q.iface == p.iface && b[q] == mac)
  {
    var u := b[p := mac];
    if q :| q in b && q.iface == p.iface && b[q] == mac {
      assert p in u && q in u && u[p] == u[q];
    }
  }

  /** One step keeps every MAC to one address if and only if it is not the last claim that
      learning needs, made by a MAC that already owns another address. */
  lemma {:induction false} StepOneAddressEach(cfg: ArpConfig, s: ArpState, x: Step)
    requires Below(s.pending, cfg.learnThreshold) && OneAddressEach(cfg, s.bindings)
    ensures OneAddressEach(cfg, Stepped(cfg, s, x).bindings) <==> !Shares(cfg, s, x)
  {
    if ClaimOf(cfg, x).Some? {
      var c := ClaimOf(cfg, x).value;
      CheckedTrust(cfg, s, c);
      LearningIsFirst(cfg, TrustOf(s), c);
      if Teaches(cfg, s.bindings, c) {
        BindKeepsOneEach(cfg, s.bindings, Place(c.iface, c.srcIp), c.srcMac);
      }
    } else if x.Lease? {
      LeaseKeepsOneEach(cfg, s, x);
    }
  }

  lemma {:induction false} OneEachSoFar(cfg: ArpConfig, xs: seq<Step>, n: nat)
    requires n <= |xs| && forall i: nat :: i < n ==> !Shares(cfg, After(cfg, xs, i), xs[i])
    ensures OneAddressEach(cfg, After(cfg, xs, n).bindings)
  {
    if n > 0 {
      OneEachSoFar(cfg, xs, n - 1);
      AfterNext(cfg, xs, n - 1);
      StepOneAddressEach(cfg, After(cfg, xs, n - 1), xs[n - 1]);
    }
  }

  /** Throughout a run no MAC holds two addresses of one interface if and only if no step
      of it is such a claim: leases never bring it about, learning alone can. */
  lemma {:induction false} RunOneAddressEach(cfg: ArpConfig, xs: seq<Step>)
    ensures
      (forall n: nat :: n <= |xs| ==> OneAddressEach(cfg, After(cfg, xs, n).bindings)) <==>
      (forall n: nat :: n < |xs| ==> !Shares(cfg, After(cfg, xs, n), xs[n]))
  {
    if forall n: nat :: n < |xs| ==> !Shares(cfg, After(cfg, xs, n), xs[n]) {
      forall n: nat | n <= |xs| ensures OneAddressEach(cfg, After(cfg, xs, n).bindings) {
        OneEachSoFar(cfg, xs, n);
      }
    }
    if forall n: nat :: n <= |xs| ==> OneAddressEach(cfg, After(cfg, xs, n).bindings) {
      forall n: nat | n < |xs| ensures !Shares(cfg, After(cfg, xs, n), xs[n]) {
        AfterNext(cfg, xs, n);
        assert OneAddressEach(cfg, After(cfg, xs, n + 1).bindings);
        StepOneAddressEach(cfg, After(cfg, xs, n), xs[n]);
      }
    }
  }

  // Learning at time zero.

  function Repeated(x: Step, n: nat): seq<Step> {
    if n == 0 then [] else Repeated(x, n - 1) + [x]
  }

  lemma {:induction false} RepeatedOnly(x: Step, n: nat)
    ensures forall y :: y in Repeated(x, n) ==> y == x
  {
    if n > 0 {
      RepeatedOnly(x, n - 1);
    }
  }

  lemma {:induction false} RepeatedClaims(cfg: ArpConfig, x: Step, n: nat, k: Candidate)
    requires Claims(cfg, x, k)
    ensures ClaimCount(cfg, Repeated(x, n), k) == n
  {
    if n > 0 {
      RepeatedClaims(cfg, x, n - 1, k);
      assert Repeated(x, n)[..|Repeated(x, n)| - 1] == Repeated(x, n - 1);
    }
  }

  lemma {:induction false} CountConcat(cfg: ArpConfig, xs: seq<Step>, ys: seq<Step>, k: Candidate)
    ensures ClaimCount(cfg, xs + ys, k) == ClaimCount(cfg, xs, k) + ClaimCount(cfg, ys, k)
  {
    if ys == [] {
      assert xs + ys == xs;
    } else {
      assert (xs + ys)[..|xs + ys| - 1] == xs + ys[..|ys| - 1];
      CountConcat(cfg, xs, ys[..|ys| - 1], k);
    }
  }

  /** Claims that all come at time zero never pause. */
  lemma {:induction false} AtOnceSteady(cfg: ArpConfig, ys: seq<Step>, k: Candidate)
    requires cfg.idleExpiry >= 0.0 && forall y :: y in ys ==> At(y) == 0.0
    ensures Steady(cfg, ys, k) && LastClaim(cfg, ys, k) == 0.0
  {
    if ys != [] {
      assert ys[|ys| - 1] in ys && forall y :: y in ys[..|ys| - 1] ==> y in ys;
      AtOnceSteady(cfg, ys[..|ys| - 1], k);
    }
  }

  /** Enough claims at time zero, amid others but no leases, get their address bound. */
  lemma {:induction false} LearnedAtOnce(cfg: ArpConfig, ys: seq<Step>, k: Candidate)
    requires cfg.idleExpiry >= 0.0 && forall y :: y in ys ==> At(y) == 0.0 && !y.Lease?
    requires !(k.iface in cfg.own && k.ip == cfg.own[k.iface].ip && k.mac != cfg.own[k.iface].mac)
    requires ClaimCount(cfg, ys, k) >= 1 && ClaimCount(cfg, ys, k) >= cfg.learnThreshold
    ensures Place(k.iface, k.ip) in Run(cfg, ARP_START, ys).bindings
  {
    AtOnceSteady(cfg, ys, k);
    LearningCompletes(cfg, [], ys, k);
    assert [] + ys == ys;
  }

  // A run in which one MAC comes to hold two addresses.

  function TwoAddresses(iface: Iface, ip1: Ip, ip2: Ip, mac: Host, n: nat): seq<Step> {
    Repeated(Neighbour(iface, ip1, mac, 0.0), n) + Repeated(Neighbour(iface, ip2, mac, 0.0), n)
  }

  lemma {:induction false} TwoAddressesAre(iface: Iface, ip1: Ip, ip2: Ip, mac: Host, n: nat)
    ensures forall y :: y in TwoAddresses(iface, ip1, ip2, mac, n) ==>
              y == Neighbour(iface, ip1, mac, 0.0) || y == Neighbour(iface, ip2, mac, 0.0)
  {
    RepeatedOnly(Neighbour(iface, ip1, mac, 0.0), n);
    RepeatedOnly(Neighbour(iface, ip2, mac, 0.0), n);
  }

  /** Each of the two candidates claims often enough. */
  lemma {:induction false} TwoAddressesClaimed(cfg: ArpConfig, iface: Iface, ip1: Ip, ip2: Ip, mac: Host, n: nat)
    requires iface in cfg.own && ip1 != cfg.own[iface].ip && ip2 != cfg.own[iface].ip
    ensures ClaimCount(cfg, TwoAddresses(iface, ip1, ip2, mac, n), Candidate(iface, ip1, mac)) >= n
    ensures ClaimCount(cfg, TwoAddresses(iface, ip1, ip2, mac, n), Candidate(iface, ip2, mac)) >= n
  {
    var x, y := Neighbour(iface, ip1, mac, 0.0), Neighbour(iface, ip2, mac, 0.0);
    var k, l := Candidate(iface, ip1, mac), Candidate(iface, ip2, mac);
    RepeatedClaims(cfg, x, n, k);
    RepeatedClaims(cfg, y, n, l);
    CountConcat(cfg, Repeated(x, n), Repeated(y, n), k);
    CountConcat(cfg, Repeated(x, n), Repeated(y, n), l);
  }

  lemma {:induction false} TwoAddressesBound(cfg: ArpConfig, iface: Iface, ip1: Ip, ip2: Ip, mac: Host)
    requires iface in cfg.own && cfg.learnThreshold >= 1 && cfg.idleExpiry >= 0.0
    requires ip1 != cfg.own[iface].ip && ip2 != cfg.own[iface].ip
    ensures
      var b := Run(cfg, ARP_START, TwoAddresses(iface, ip1, ip2, mac, cfg.learnThreshold)).bindings;
      Place(iface, ip1) in b && Place(iface, ip2) in b
  {
    var xs := TwoAddresses(iface, ip1, ip2, mac, cfg.learnThreshold);
    TwoAddressesAre(iface, ip1, ip2, mac, cfg.learnThreshold);
    TwoAddressesClaimed(cfg, iface, ip1, ip2, mac, cfg.learnThreshold);
    LearnedAtOnce(cfg, xs, Candidate(iface, ip1, mac));
    LearnedAtOnce(cfg, xs, Candidate(iface, ip2, mac));
  }

  /** The owners under which all those claims are true. */
  function Owners(cfg: ArpConfig, p: Place, q: Place, mac: Host): map<Place, Host> {
    (map i | i in cfg.own :: Place(i, cfg.own[i].ip) := cfg.own[i].mac)[p := mac][q := mac]
  }

  /** Whatever the learning threshold: enough claims by one MAC to each of two addresses,
      none of them a false claim about another host, leave it bound to both. */
  lemma {:induction false} LearningShares(cfg: ArpConfig, iface: Iface, ip1: Ip, ip2: Ip, mac: Host)
    requires iface in cfg.own && cfg.learnThreshold >= 1 && cfg.idleExpiry >= 0.0
    requires ip1 != ip2 && ip1 != cfg.own[iface].ip && ip2 != cfg.own[iface].ip
    ensures !OneAddressEach(cfg, Run(cfg, ARP_START, TwoAddresses(iface, ip1, ip2, mac, cfg.learnThreshold)).bindings)
  {
    var n, p, q := cfg.learnThreshold, Place(iface, ip1), Place(iface, ip2);
    var xs, truth := TwoAddresses(iface, ip1, ip2, mac, n), Owners(cfg, p, q, mac);
    TwoAddressesAre(iface, ip1, ip2, mac, n);
    TruthfulRun(cfg, truth, xs);
    TwoAddressesBound(cfg, iface, ip1, ip2, mac);
    var b := Run(cfg, ARP_START, xs).bindings;
    assert b[p] == mac && b[q] == mac;
  }

  // A run after which one packet counts twice.

  /** The router speaks for itself, to everybody. */
  function RouterSpeaks(iface: Iface, id: Identity): PacketEvent {
    PacketEvent(0.0, iface, id.ip, id.ip, Arp, None, id.mac, BROADCAST, NoFlags, 0, 0, 0, 0)
  }

  /** Whatever the learning threshold: once the router has spoken often enough, every
      packet for it that goes to a wrong MAC counts twice against the receiver. */
  lemma {:induction false} RouterLearned(cfg: ArpConfig, c: Claim)
    requires c.iface in cfg.own && cfg.learnThreshold >= 1 && cfg.idleExpiry >= 0.0
    requires !ClaimsRouter(cfg.own[c.iface], c) && RouterBypassed(cfg.own[c.iface], c) && cfg.own[c.iface].mac != NoMac
    ensures
      var xs := Repeated(Packet(RouterSpeaks(c.iface, cfg.own[c.iface])), cfg.learnThreshold);
      var s, k := Run(cfg, ARP_START, xs), Key(c.iface, c.dstMac, c.srcMac);
      CountOf(Checked(cfg, s, c).table, k) == CountOf(s.table, k) + 2
  {
    var id, n := cfg.own[c.iface], cfg.learnThreshold;
    var x, k := Packet(RouterSpeaks(c.iface, id)), Candidate(c.iface, id.ip, id.mac);
    RepeatedOnly(x, n);
    RepeatedClaims(cfg, x, n, k);
    LearnedAtOnce(cfg, Repeated(x, n), k);
    CountedTwice(cfg, Repeated(x, n), c, Key(c.iface, c.dstMac, c.srcMac));
  }
}
