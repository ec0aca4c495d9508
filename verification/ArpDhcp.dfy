/** DHCP as the authority: who holds which address once leases have been applied. */
module ArpDhcp {
  import opened Net
  import opened ArpSpoofDetectors

  predicate Bound(b: Bindings, p: Place, mac: Host) {
    p in b && b[p] == mac
  }

  /** A lease that DHCP may write on this interface. */
  predicate Writes(cfg: ArpConfig, x: Step, iface: Iface) {
    x.Lease? && x.iface == iface && iface in cfg.own && x.ip != cfg.own[iface].ip
  }

  /** The lease gives the address to another MAC, or the MAC to another address. */
  predicate Conflicts(cfg: ArpConfig, x: Step, p: Place, mac: Host) {
    Writes(cfg, x, p.iface) && (x.ip == p.ip) != (x.mac == mac)
  }

  predicate Grants(cfg: ArpConfig, x: Step, p: Place, mac: Host) {
    Writes(cfg, x, p.iface) && x.ip == p.ip && x.mac == mac
  }

  predicate Undisputed(cfg: ArpConfig, xs: seq<Step>, p: Place, mac: Host) {
    forall i :: 0 <= i < |xs| ==> !Conflicts(cfg, xs[i], p, mac)
  }

  /** Some lease grants the pair and no later one conflicts with it. */
  predicate Granted(cfg: ArpConfig, xs: seq<Step>, p: Place, mac: Host) {
    exists j :: 0 <= j < |xs| && Grants(cfg, xs[j], p, mac) && Undisputed(cfg, xs[j..], p, mac)
  }

  /** On each watched interface no MAC holds two addresses. */
  ghost predicate OneAddressEach(cfg: ArpConfig, b: Bindings) {
    forall p, q :: p in b && q in b && p.iface == q.iface && p.iface in cfg.own && b[p] == b[q] ==> p == q
  }

  predicate LeasesOnly(xs: seq<Step>) {
    forall x :: x in xs ==> x.Lease?
  }

  lemma LeaseStep(cfg: ArpConfig, s: ArpState, x: Step, p: Place, mac: Host)
    requires x.Lease? && OneAddressEach(cfg, s.bindings)
    ensures
      Bound(Stepped(cfg, s, x).bindings, p, mac) <==>
      (Grants(cfg, x, p, mac) || (Bound(s.bindings, p, mac) && !Conflicts(cfg, x, p, mac)))
  {
  }

  lemma LeaseKeepsOneEach(cfg: ArpConfig, s: ArpState, x: Step)
    requires x.Lease? && OneAddressEach(cfg, s.bindings)
    ensures OneAddressEach(cfg, Stepped(cfg, s, x).bindings)
  {
  }

  lemma LeaseTouchesBindings(cfg: ArpConfig, s: ArpState, x: Step)
    requires x.Lease?
    ensures Stepped(cfg, s, x) == s.(bindings := Stepped(cfg, s, x).bindings)
  {
  }

  lemma {:induction false} GrantedNext(cfg: ArpConfig, xs: seq<Step>, x: Step, p: Place, mac: Host)
    ensures
      Granted(cfg, xs + [x], p, mac) <==>
      (Grants(cfg, x, p, mac) || (Granted(cfg, xs, p, mac) && !Conflicts(cfg, x, p, mac)))
  {
    var ys := xs + [x];
    if Granted(cfg, ys, p, mac) && !Grants(cfg, x, p, mac) {
      var j :| 0 <= j < |ys| && Grants(cfg, ys[j], p, mac) && Undisputed(cfg, ys[j..], p, mac);
      assert ys[j..] == xs[j..] + [x];
      assert ys[j..][|xs[j..]|] == x;
      forall i | 0 <= i < |xs[j..]| ensures !Conflicts(cfg, xs[j..][i], p, mac) {
        assert ys[j..][i] == xs[j..][i];
      }
    }
    if Grants(cfg, x, p, mac) {
      assert ys[|xs|] == x && ys[|xs|..] == [x];
    } else if Granted(cfg, xs, p, mac) && !Conflicts(cfg, x, p, mac) {
      var j :| 0 <= j < |xs| && Grants(cfg, xs[j], p, mac) && Undisputed(cfg, xs[j..], p, mac);
      assert ys[j..] == xs[j..] + [x] && ys[j] == xs[j];
    }
  }

  lemma {:induction false} UndisputedNext(cfg: ArpConfig, xs: seq<Step>, x: Step, p: Place, mac: Host)
    ensures Undisputed(cfg, xs + [x], p, mac) <==> (Undisputed(cfg, xs, p, mac) && !Conflicts(cfg, x, p, mac))
  {
    var ys := xs + [x];
    assert ys[|xs|] == x && forall i :: 0 <= i < |xs| ==> ys[i] == xs[i];
  }

  lemma {:induction false} LeasesKeepOneEach(cfg: ArpConfig, s: ArpState, xs: seq<Step>)
    requires LeasesOnly(xs) && OneAddressEach(cfg, s.bindings)
    ensures OneAddressEach(cfg, Run(cfg, s, xs).bindings)
  {
    if xs != [] {
      var front, x := xs[..|xs| - 1], xs[|xs| - 1];
      assert x in xs && forall y :: y in front ==> y in xs;
      LeasesKeepOneEach(cfg, s, front);
      LeaseKeepsOneEach(cfg, Run(cfg, s, front), x);
    }
  }

  /** What any list of leases makes of bindings that hold one address per MAC. */
  lemma {:induction false} LeaseRun(cfg: ArpConfig, s: ArpState, xs: seq<Step>, p: Place, mac: Host)
    requires LeasesOnly(xs) && OneAddressEach(cfg, s.bindings)
    ensures
      Bound(Run(cfg, s, xs).bindings, p, mac) <==>
      (Granted(cfg, xs, p, mac) || (Bound(s.bindings, p, mac) && Undisputed(cfg, xs, p, mac)))
  {
    if xs != [] {
      var front, x := xs[..|xs| - 1], xs[|xs| - 1];
      assert x in xs && forall y :: y in front ==> y in xs;
      LeaseRun(cfg, s, front, p, mac);
      LeasesKeepOneEach(cfg, s, front);
      LeaseStep(cfg, Run(cfg, s, front), x, p, mac);
      GrantedNext(cfg, front, x, p, mac);
      UndisputedNext(cfg, front, x, p, mac);
      assert xs == front + [x];
    }
  }

  /** Last writer wins: after leases alone no MAC holds two addresses of one interface,
      and a pair is bound exactly when some lease other than for the router's address
      granted it and no later lease there shares just its address or just its MAC. */
  lemma LastWriterWins(cfg: ArpConfig, xs: seq<Step>, p: Place, mac: Host)
    requires LeasesOnly(xs)
    ensures OneAddressEach(cfg, Run(cfg, ARP_START, xs).bindings)
    ensures Bound(Run(cfg, ARP_START, xs).bindings, p, mac) <==> Granted(cfg, xs, p, mac)
  {
    LeasesKeepOneEach(cfg, ARP_START, xs);
    LeaseRun(cfg, ARP_START, xs, p, mac);
  }

  // Applying the same leases again.

  ghost predicate Settles(cfg: ArpConfig, s: ArpState, xs: seq<Step>) {
    Run(cfg, Run(cfg, s, xs), xs) == Run(cfg, s, xs)
  }

  lemma {:induction false} LeasesTouchBindings(cfg: ArpConfig, s: ArpState, xs: seq<Step>)
    requires LeasesOnly(xs)
    ensures Run(cfg, s, xs) == s.(bindings := Run(cfg, s, xs).bindings)
  {
    if xs != [] {
      var front, x := xs[..|xs| - 1], xs[|xs| - 1];
      assert x in xs && forall y :: y in front ==> y in xs;
      LeasesTouchBindings(cfg, s, front);
      LeaseTouchesBindings(cfg, Run(cfg, s, front), x);
    }
  }

  lemma SameBindings(b: Bindings, c: Bindings)
    requires forall p, mac :: Bound(b, p, mac) <==> Bound(c, p, mac)
    ensures b == c
  {
    forall p | p in b ensures p in c && c[p] == b[p] {
      assert Bound(b, p, b[p]);
    }
    forall p | p in c ensures p in b {
      assert Bound(c, p, c[p]);
    }
  }

  lemma OneEachSettles(cfg: ArpConfig, s: ArpState, xs: seq<Step>)
    requires LeasesOnly(xs) && OneAddressEach(cfg, s.bindings)
    ensures Settles(cfg, s, xs)
  {
    var u := Run(cfg, s, xs);
    LeasesKeepOneEach(cfg, s, xs);
    forall p, mac ensures Bound(u.bindings, p, mac) <==> Bound(Run(cfg, u, xs).bindings, p, mac) {
      LeaseRun(cfg, s, xs, p, mac);
      LeaseRun(cfg, u, xs, p, mac);
    }
    SameBindings(u.bindings, Run(cfg, u, xs).bindings);
    LeasesTouchBindings(cfg, u, xs);
  }

  /** Two addresses on one MAC: a lease that finds its pair already bound clears
      nothing, so the second time round the other address goes too. */
  lemma SharedMacUnsettled(cfg: ArpConfig, s: ArpState, p: Place, q: Place, other: Host)
    requires p in s.bindings && q in s.bindings && p != q && p.iface == q.iface && p.iface in cfg.own
    requires s.bindings[p] == s.bindings[q] != other && p.ip != cfg.own[p.iface].ip
    ensures !Settles(cfg, s, [Lease(p.iface, p.ip, s.bindings[p]), Lease(p.iface, p.ip, other)])
  {
    var mac := s.bindings[p];
    var x, y := Lease(p.iface, p.ip, mac), Lease(p.iface, p.ip, other);
    RunPair(cfg, s, x, y);
    var u := Run(cfg, s, [x, y]);
    assert Stepped(cfg, s, x) == s;
    assert Bound(u.bindings, q, mac) && Bound(u.bindings, p, other);
    RunPair(cfg, u, x, y);
    assert q !in Stepped(cfg, u, x).bindings;
  }

  lemma RunPair(cfg: ArpConfig, s: ArpState, x: Step, y: Step)
    ensures Run(cfg, s, [x, y]) == Stepped(cfg, Stepped(cfg, s, x), y)
  {
    RunSingle(cfg, s, x);
    RunAppend(cfg, s, [x], y);
    assert [x] + [y] == [x, y];
  }

  /** Reapplying a list of leases changes nothing, whatever the list, exactly when no
      MAC held two addresses to begin with. */
  lemma ReapplyingLeases(cfg: ArpConfig, s: ArpState)
    ensures (forall xs :: LeasesOnly(xs) ==> Settles(cfg, s, xs)) <==> OneAddressEach(cfg, s.bindings)
  {
    if OneAddressEach(cfg, s.bindings) {
      forall xs | LeasesOnly(xs) ensures Settles(cfg, s, xs) {
        OneEachSettles(cfg, s, xs);
      }
    } else {
      var p, q :| p in s.bindings && q in s.bindings && p.iface == q.iface && p.iface in cfg.own
                  && s.bindings[p] == s.bindings[q] && p != q;
      var other := if s.bindings[p] == Mac(0, 0) then Mac(1, 0) else Mac(0, 0);
      var r := if p.ip != cfg.own[p.iface].ip then p else q;
      var mac := s.bindings[p];
      SharedMacUnsettled(cfg, s, r, if r == p then q else p, other);
      assert LeasesOnly([Lease(r.iface, r.ip, mac), Lease(r.iface, r.ip, other)]);
    }
  }

  // Leases amid everything else.

  /** In any state at all, a lease that changes something leaves its MAC at exactly one
      address of its interface, and any other pair stands unless it conflicts. */
  lemma EffectiveLease(cfg: ArpConfig, s: ArpState, x: Step, p: Place, mac: Host)
    requires x.Lease? && Stepped(cfg, s, x) != s
    ensures Writes(cfg, x, x.iface)
    ensures p.iface == x.iface ==> (Bound(Stepped(cfg, s, x).bindings, p, x.mac) <==> p.ip == x.ip)
    ensures
      !Grants(cfg, x, p, mac) ==>
        (Bound(Stepped(cfg, s, x).bindings, p, mac) <==> (Bound(s.bindings, p, mac) && !Conflicts(cfg, x, p, mac)))
  {
  }
}
