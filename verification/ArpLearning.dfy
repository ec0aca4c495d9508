/** Learning by packet volume, and what it comes down to. */
module ArpLearning {
  import opened Net
  import opened ArpSpoofDetectors
  import opened ArpEvidence

  function TrustOf(s: ArpState): Trust {
    Trust(s.bindings, s.pending)
  }

  /** A claim teaches something only about an unbound address and only when it is not
      a false claim to be the router. */
  predicate Teaches(cfg: ArpConfig, b: Bindings, c: Claim)
    requires c.iface in cfg.own
  {
    !ClaimsRouter(cfg.own[c.iface], c) && Place(c.iface, c.srcIp) !in b
  }

  lemma CheckedTrust(cfg: ArpConfig, s: ArpState, c: Claim)
    requires c.iface in cfg.own
    ensures TrustOf(Checked(cfg, s, c)) ==
            if Teaches(cfg, s.bindings, c) then Learned(cfg, TrustOf(s), c) else TrustOf(s)
  {
  }

  /** Every waiting candidate has been heard, but not yet often enough. */
  ghost predicate Below(p: Waiting, learnThreshold: int) {
    forall k :: k in p ==> 1 <= p[k].count < learnThreshold
  }

  /** The simple rule: bind the first candidate to reach the threshold. */
  function LearnedFirst(cfg: ArpConfig, t: Trust, c: Claim): Trust {
    var who, place := Candidate(c.iface, c.srcIp, c.srcMac), Place(c.iface, c.srcIp);
    var count := NextCount(t.pending, who, cfg.idleExpiry, c.time);
    var p := t.pending[who := Pending(count, c.time)];
    if count >= cfg.learnThreshold then Trust(t.bindings[place := c.srcMac], Cleared(p, place))
    else Trust(t.bindings, p)
  }

  /** While all candidates wait below the threshold, the one that reaches it is the
      unique maximum. */
  lemma SenderWins(cfg: ArpConfig, t: Trust, c: Claim)
    requires Below(t.pending, cfg.learnThreshold)
    requires NextCount(t.pending, Candidate(c.iface, c.srcIp, c.srcMac), cfg.idleExpiry, c.time) >= cfg.learnThreshold
    ensures
      var who, place := Candidate(c.iface, c.srcIp, c.srcMac), Place(c.iface, c.srcIp);
      var count := NextCount(t.pending, who, cfg.idleExpiry, c.time);
      Winners(Candidates(t.pending[who := Pending(count, c.time)], place)) == {c.srcMac}
  {
    var who, place := Candidate(c.iface, c.srcIp, c.srcMac), Place(c.iface, c.srcIp);
    var count := NextCount(t.pending, who, cfg.idleExpiry, c.time);
    var all := Candidates(t.pending[who := Pending(count, c.time)], place);
    assert c.srcMac in all && all[c.srcMac] == count;
    forall m | m in all && m != c.srcMac ensures all[m] < count {
      assert Candidate(c.iface, c.srcIp, m) in t.pending;
    }
  }

  /** Volume-based learning is first-to-threshold learning: from a state where every
      candidate waits below the threshold, both rules agree and keep it so. */
  lemma LearningIsFirst(cfg: ArpConfig, t: Trust, c: Claim)
    requires Below(t.pending, cfg.learnThreshold)
    ensures Learned(cfg, t, c) == LearnedFirst(cfg, t, c)
    ensures Below(Learned(cfg, t, c).pending, cfg.learnThreshold)
  {
    var who := Candidate(c.iface, c.srcIp, c.srcMac);
    if NextCount(t.pending, who, cfg.idleExpiry, c.time) >= cfg.learnThreshold {
      SenderWins(cfg, t, c);
    }
  }

  lemma StepBelow(cfg: ArpConfig, s: ArpState, x: Step)
    requires Below(s.pending, cfg.learnThreshold)
    ensures Below(Stepped(cfg, s, x).pending, cfg.learnThreshold)
  {
    if ClaimOf(cfg, x).Some? {
      var c := ClaimOf(cfg, x).value;
      CheckedTrust(cfg, s, c);
      LearningIsFirst(cfg, TrustOf(s), c);
    }
  }

  lemma {:induction false} RunBelow(cfg: ArpConfig, xs: seq<Step>)
    ensures Below(Run(cfg, ARP_START, xs).pending, cfg.learnThreshold)
  {
    if xs != [] {
      RunBelow(cfg, xs[..|xs| - 1]);
      StepBelow(cfg, Run(cfg, ARP_START, xs[..|xs| - 1]), xs[|xs| - 1]);
    }
  }

  /** First-to-threshold refinement: in every reachable state, idle resets and leases
      included, each claim has the effect of the simple rule, and whenever the
      threshold is reached the sender is the one and only winner, so the branch for
      a tie is never taken. */
  lemma {:induction false} FirstToThreshold(cfg: ArpConfig, xs: seq<Step>, c: Claim)
    requires c.iface in cfg.own
    ensures
      var s := Run(cfg, ARP_START, xs);
      && Below(s.pending, cfg.learnThreshold)
      && TrustOf(Checked(cfg, s, c)) ==
         (if Teaches(cfg, s.bindings, c) then LearnedFirst(cfg, TrustOf(s), c) else TrustOf(s))
    ensures
      var s := Run(cfg, ARP_START, xs);
      var who, place := Candidate(c.iface, c.srcIp, c.srcMac), Place(c.iface, c.srcIp);
      var count := NextCount(s.pending, who, cfg.idleExpiry, c.time);
      count >= cfg.learnThreshold ==>
        Winners(Candidates(s.pending[who := Pending(count, c.time)], place)) == {c.srcMac}
  {
    var s := Run(cfg, ARP_START, xs);
    RunBelow(cfg, xs);
    CheckedTrust(cfg, s, c);
    LearningIsFirst(cfg, TrustOf(s), c);
    if NextCount(s.pending, Candidate(c.iface, c.srcIp, c.srcMac), cfg.idleExpiry, c.time) >= cfg.learnThreshold {
      SenderWins(cfg, TrustOf(s), c);
    }
  }

  /** A claim never changes or removes a binding and adds at most the one it claims. */
  lemma ClaimBinds(cfg: ArpConfig, xs: seq<Step>, c: Claim)
    requires c.iface in cfg.own
    ensures
      var b, b' := Run(cfg, ARP_START, xs).bindings, Checked(cfg, Run(cfg, ARP_START, xs), c).bindings;
      b' == b || (Place(c.iface, c.srcIp) !in b && b' == b[Place(c.iface, c.srcIp) := c.srcMac])
  {
    FirstToThreshold(cfg, xs, c);
  }

  /** An address is either bound or still being contested. */
  ghost predicate Disjoint(t: Trust) {
    forall k :: k in t.pending ==> Place(k.iface, k.ip) !in t.bindings
  }

  /** The step is a lease on an address whose owner is still being contested. */
  predicate CutsShort(cfg: ArpConfig, s: ArpState, x: Step) {
    && x.Lease? && x.iface in cfg.own && x.ip != cfg.own[x.iface].ip
    && exists k :: k in s.pending && k.iface == x.iface && k.ip == x.ip
  }

  lemma {:induction false} LeaseDisjoint(cfg: ArpConfig, s: ArpState, x: Step)
    requires x.Lease? && Disjoint(TrustOf(s))
    ensures Disjoint(TrustOf(Stepped(cfg, s, x))) <==> !CutsShort(cfg, s, x)
  {
    var u := Stepped(cfg, s, x);
    if CutsShort(cfg, s, x) {
      var k :| k in s.pending && k.iface == x.iface && k.ip == x.ip;
      assert k in u.pending && Place(k.iface, k.ip) in u.bindings;
    }
  }

  /** One step keeps bound and contested addresses apart if and only if it is no lease
      on a contested one. */
  lemma {:induction false} StepDisjoint(cfg: ArpConfig, s: ArpState, x: Step)
    requires Below(s.pending, cfg.learnThreshold) && Disjoint(TrustOf(s))
    ensures Disjoint(TrustOf(Stepped(cfg, s, x))) <==> !CutsShort(cfg, s, x)
  {
    if ClaimOf(cfg, x).Some? {
      CheckedTrust(cfg, s, ClaimOf(cfg, x).value);
      LearningIsFirst(cfg, TrustOf(s), ClaimOf(cfg, x).value);
    } else if x.Lease? {
      LeaseDisjoint(cfg, s, x);
    }
  }

  /** The state after the first n steps. */
  ghost function After(cfg: ArpConfig, xs: seq<Step>, n: nat): ArpState
    requires n <= |xs|
  {
    Run(cfg, ARP_START, xs[..n])
  }

  lemma {:induction false} AfterNext(cfg: ArpConfig, xs: seq<Step>, n: nat)
    requires n < |xs|
    ensures After(cfg, xs, n + 1) == Stepped(cfg, After(cfg, xs, n), xs[n])
    ensures Below(After(cfg, xs, n).pending, cfg.learnThreshold)
  {
    assert xs[..n + 1] == xs[..n] + [xs[n]];
    RunAppend(cfg, ARP_START, xs[..n], xs[n]);
    RunBelow(cfg, xs[..n]);
  }

  lemma {:induction false} DisjointSoFar(cfg: ArpConfig, xs: seq<Step>, n: nat)
    requires n <= |xs| && forall i: nat :: i < n ==> !CutsShort(cfg, After(cfg, xs, i), xs[i])
    ensures Disjoint(TrustOf(After(cfg, xs, n)))
  {
    if n > 0 {
      DisjointSoFar(cfg, xs, n - 1);
      AfterNext(cfg, xs, n - 1);
      StepDisjoint(cfg, After(cfg, xs, n - 1), xs[n - 1]);
    }
  }

  /** Throughout a run no bound address has candidates waiting if and only if no step of
      it is a lease on an address contested at that moment. */
  lemma {:induction false} RunDisjoint(cfg: ArpConfig, xs: seq<Step>)
    ensures
      (forall n: nat :: n <= |xs| ==> Disjoint(TrustOf(After(cfg, xs, n)))) <==>
      (forall n: nat :: n < |xs| ==> !CutsShort(cfg, After(cfg, xs, n), xs[n]))
  {
    if forall n: nat :: n < |xs| ==> !CutsShort(cfg, After(cfg, xs, n), xs[n]) {
      forall n: nat | n <= |xs| ensures Disjoint(TrustOf(After(cfg, xs, n))) {
        DisjointSoFar(cfg, xs, n);
      }
    }
    if forall n: nat :: n <= |xs| ==> Disjoint(TrustOf(After(cfg, xs, n))) {
      forall n: nat | n < |xs| ensures !CutsShort(cfg, After(cfg, xs, n), xs[n]) {
        AfterNext(cfg, xs, n);
        assert Disjoint(TrustOf(After(cfg, xs, n + 1)));
        StepDisjoint(cfg, After(cfg, xs, n), xs[n]);
      }
    }
  }

  /** A run that ends in such a lease. */
  lemma {:induction false} LeaseLeavesWaiting(cfg: ArpConfig, iface: Iface, ip: Ip, mac: Host, owner: Host)
    requires iface in cfg.own && ip != cfg.own[iface].ip && cfg.learnThreshold > 1
    ensures
      !Disjoint(TrustOf(Run(cfg, ARP_START, [Neighbour(iface, ip, mac, 0.0), Lease(iface, ip, owner)])))
  {
    var x, y := Neighbour(iface, ip, mac, 0.0), Lease(iface, ip, owner);
    RunSingle(cfg, ARP_START, x);
    RunAppend(cfg, ARP_START, [x], y);
    assert [x] + [y] == [x, y];
    FirstToThreshold(cfg, [], NeighbourClaim(iface, ip, mac, 0.0));
    var s := Stepped(cfg, ARP_START, x);
    assert Candidate(iface, ip, mac) in s.pending;
    assert Place(iface, ip) in Stepped(cfg, s, y).bindings;
  }

  // The router's own address.

  /** Whatever is trusted or waiting about the router's address names the router. */
  ghost predicate RouterSafe(cfg: ArpConfig, t: Trust) {
    && (forall p :: p in t.bindings && p.iface in cfg.own && p.ip == cfg.own[p.iface].ip ==>
          t.bindings[p] == cfg.own[p.iface].mac)
    && (forall k :: k in t.pending && k.iface in cfg.own && k.ip == cfg.own[k.iface].ip ==>
          k.mac == cfg.own[k.iface].mac)
  }

  lemma StepRouterSafe(cfg: ArpConfig, s: ArpState, x: Step)
    requires Below(s.pending, cfg.learnThreshold) && RouterSafe(cfg, TrustOf(s))
    ensures RouterSafe(cfg, TrustOf(Stepped(cfg, s, x)))
  {
    if ClaimOf(cfg, x).Some? {
      var c := ClaimOf(cfg, x).value;
      CheckedTrust(cfg, s, c);
      LearningIsFirst(cfg, TrustOf(s), c);
    }
  }

  lemma {:induction false} RunRouterSafe(cfg: ArpConfig, xs: seq<Step>)
    ensures RouterSafe(cfg, TrustOf(Run(cfg, ARP_START, xs)))
  {
    if xs != [] {
      var front := xs[..|xs| - 1];
      RunRouterSafe(cfg, front);
      RunBelow(cfg, front);
      StepRouterSafe(cfg, Run(cfg, ARP_START, front), xs[|xs| - 1]);
    }
  }

  /** Router identity protection: in every reachable state a claim about the router's
      address is either a false claim, caught as such, or agrees with whatever is
      bound there, so it is never reported as host impersonation. */
  lemma RouterProtected(cfg: ArpConfig, xs: seq<Step>, c: Claim)
    requires c.iface in cfg.own && c.srcIp == cfg.own[c.iface].ip
    ensures
      var s, id := Run(cfg, ARP_START, xs), cfg.own[c.iface];
      && (CheckGateway(cfg, id, c).Some? <==> c.srcMac != id.mac)
      && (CheckGateway(cfg, id, c).None? ==> CheckImpersonation(cfg, id, s.bindings, c).None?)
      && (Place(c.iface, c.srcIp) in s.bindings ==> s.bindings[Place(c.iface, c.srcIp)] == id.mac)
  {
    RunRouterSafe(cfg, xs);
  }
}
