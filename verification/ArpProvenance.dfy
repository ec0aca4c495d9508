/** Where trusted bindings come from. */
module ArpProvenance {
  import opened Net
  import opened ArpSpoofDetectors
  import opened ArpEvidence
  import opened ArpLearning
  import ArpDhcp

  function At(x: Step): Time {
    if StepTime(x).Some? then StepTime(x).value else 0.0
  }

  /** The step puts this candidate's claim to the checks. */
  predicate Claims(cfg: ArpConfig, x: Step, k: Candidate) {
    match x
    case Packet(e) => e.iface in cfg.own && k == Candidate(e.iface, e.srcIp, e.srcMac)
    case Neighbour(iface, ip, mac, _) =>
      iface in cfg.own && ip != cfg.own[iface].ip && k == Candidate(iface, ip, mac)
    case _ => false
  }

  /** Places in the run, in order, of claims by one candidate, each within idle_expiry
      of the one before. */
  ghost predicate Chain(cfg: ArpConfig, xs: seq<Step>, js: seq<nat>, k: Candidate) {
    && (forall i :: 0 <= i < |js| ==> js[i] < |xs| && Claims(cfg, xs[js[i]], k))
    && (forall i, j :: 0 <= i < j < |js| ==> js[i] < js[j])
    && (forall i, j :: 0 <= i < |js| && j == i + 1 && j < |js| ==> At(xs[js[j]]) - At(xs[js[i]]) <= cfg.idleExpiry)
  }

  /** A waiting count stands for that many claims, the last of them at last_seen. */
  ghost predicate Heard(cfg: ArpConfig, xs: seq<Step>, k: Candidate, p: Pending) {
    exists js :: Chain(cfg, xs, js, k) && |js| == p.count && js != [] && At(xs[js[|js| - 1]]) == p.lastSeen
  }

  /** Some step is a lease for this pair, and not for the router's own address. */
  ghost predicate Leaseholder(cfg: ArpConfig, xs: seq<Step>, k: Candidate) {
    exists x :: x in xs && ArpDhcp.Grants(cfg, x, Place(k.iface, k.ip), k.mac)
  }

  /** As many claims as learning takes. */
  ghost predicate Earned(cfg: ArpConfig, xs: seq<Step>, k: Candidate) {
    exists js :: Chain(cfg, xs, js, k) && |js| == if cfg.learnThreshold > 1 then cfg.learnThreshold else 1
  }

  ghost predicate Backed(cfg: ArpConfig, xs: seq<Step>, k: Candidate) {
    Leaseholder(cfg, xs, k) || Earned(cfg, xs, k)
  }

  ghost predicate AllHeard(cfg: ArpConfig, xs: seq<Step>, p: Waiting) {
    forall k :: k in p ==> Heard(cfg, xs, k, p[k])
  }

  ghost predicate AllBacked(cfg: ArpConfig, xs: seq<Step>, b: Bindings) {
    forall p :: p in b ==> Backed(cfg, xs, Candidate(p.iface, p.ip, b[p]))
  }

  lemma ChainStays(cfg: ArpConfig, xs: seq<Step>, x: Step, js: seq<nat>, k: Candidate)
    requires Chain(cfg, xs, js, k)
    ensures Chain(cfg, xs + [x], js, k)
  {
  }

  lemma HeardStays(cfg: ArpConfig, xs: seq<Step>, x: Step, k: Candidate, p: Pending)
    requires Heard(cfg, xs, k, p)
    ensures Heard(cfg, xs + [x], k, p)
  {
    var js :| Chain(cfg, xs, js, k) && |js| == p.count && js != [] && At(xs[js[|js| - 1]]) == p.lastSeen;
    ChainStays(cfg, xs, x, js, k);
  }

  lemma BackedStays(cfg: ArpConfig, xs: seq<Step>, x: Step, k: Candidate)
    requires Backed(cfg, xs, k)
    ensures Backed(cfg, xs + [x], k)
  {
    if Leaseholder(cfg, xs, k) {
      var y :| y in xs && ArpDhcp.Grants(cfg, y, Place(k.iface, k.ip), k.mac);
      assert y in xs + [x];
    } else {
      var js :| Chain(cfg, xs, js, k) && |js| == if cfg.learnThreshold > 1 then cfg.learnThreshold else 1;
      ChainStays(cfg, xs, x, js, k);
    }
  }

  lemma AllStay(cfg: ArpConfig, xs: seq<Step>, x: Step, t: Trust)
    requires AllHeard(cfg, xs, t.pending) && AllBacked(cfg, xs, t.bindings)
    ensures AllHeard(cfg, xs + [x], t.pending) && AllBacked(cfg, xs + [x], t.bindings)
  {
    forall k | k in t.pending ensures Heard(cfg, xs + [x], k, t.pending[k]) {
      HeardStays(cfg, xs, x, k, t.pending[k]);
    }
    forall p | p in t.bindings ensures Backed(cfg, xs + [x], Candidate(p.iface, p.ip, t.bindings[p])) {
      BackedStays(cfg, xs, x, Candidate(p.iface, p.ip, t.bindings[p]));
    }
  }

  lemma {:induction false} ChainGrows(cfg: ArpConfig, xs: seq<Step>, x: Step, js: seq<nat>, k: Candidate)
    requires Chain(cfg, xs, js, k) && Claims(cfg, x, k)
    requires js != [] ==> At(x) - At(xs[js[|js| - 1]]) <= cfg.idleExpiry
    ensures Chain(cfg, xs + [x], js + [|xs|], k)
  {
    ChainStays(cfg, xs, x, js, k);
  }

  /** One more claim: the chain goes on, or starts again after an idle gap. */
  lemma {:induction false} HeardAgain(cfg: ArpConfig, xs: seq<Step>, x: Step, p: Waiting, k: Candidate)
    requires Claims(cfg, x, k) && (k in p ==> Heard(cfg, xs, k, p[k]))
    ensures Heard(cfg, xs + [x], k, Pending(NextCount(p, k, cfg.idleExpiry, At(x)), At(x)))
  {
    var js: seq<nat> := [];
    if k in p && At(x) - p[k].lastSeen <= cfg.idleExpiry {
      js :| Chain(cfg, xs, js, k) && |js| == p[k].count && js != [] && At(xs[js[|js| - 1]]) == p[k].lastSeen;
    }
    ChainGrows(cfg, xs, x, js, k);
  }

  lemma {:induction false} HeardEnough(cfg: ArpConfig, xs: seq<Step>, k: Candidate, p: Pending)
    requires Heard(cfg, xs, k, p) && p.count == if cfg.learnThreshold > 1 then cfg.learnThreshold else 1
    ensures Earned(cfg, xs, k)
  {
  }

  lemma {:induction false} OneMoreHeard(cfg: ArpConfig, xs: seq<Step>, p: Waiting, k: Candidate, v: Pending)
    requires AllHeard(cfg, xs, p) && Heard(cfg, xs, k, v)
    ensures AllHeard(cfg, xs, p[k := v])
  {
  }

  lemma {:induction false} OneMoreBacked(cfg: ArpConfig, xs: seq<Step>, b: Bindings, k: Candidate)
    requires AllBacked(cfg, xs, b) && Backed(cfg, xs, k)
    ensures AllBacked(cfg, xs, b[Place(k.iface, k.ip) := k.mac])
  {
  }

  lemma {:induction false} ClearedHeard(cfg: ArpConfig, xs: seq<Step>, p: Waiting, place: Place)
    requires AllHeard(cfg, xs, p)
    ensures AllHeard(cfg, xs, Cleared(p, place))
  {
  }

  /** The rule for one claim, on what is trusted and waiting alone. */
  lemma {:induction false} LearnProven(cfg: ArpConfig, t: Trust, xs: seq<Step>, x: Step)
    requires ClaimOf(cfg, x).Some? && Below(t.pending, cfg.learnThreshold)
    requires AllHeard(cfg, xs, t.pending) && AllBacked(cfg, xs, t.bindings)
    ensures
      var u := LearnedFirst(cfg, t, ClaimOf(cfg, x).value);
      AllHeard(cfg, xs + [x], u.pending) && AllBacked(cfg, xs + [x], u.bindings)
  {
    var c := ClaimOf(cfg, x).value;
    var k := Candidate(c.iface, c.srcIp, c.srcMac);
    var p := Pending(NextCount(t.pending, k, cfg.idleExpiry, c.time), c.time);
    AllStay(cfg, xs, x, t);
    HeardAgain(cfg, xs, x, t.pending, k);
    OneMoreHeard(cfg, xs + [x], t.pending, k, p);
    if p.count >= cfg.learnThreshold {
      HeardEnough(cfg, xs + [x], k, p);
      OneMoreBacked(cfg, xs + [x], t.bindings, k);
      ClearedHeard(cfg, xs + [x], t.pending[k := p], Place(c.iface, c.srcIp));
    }
  }

  lemma {:induction false} LeaseProven(cfg: ArpConfig, own: Identity, b: Bindings, xs: seq<Step>, x: Step)
    requires x.Lease? && x.iface in cfg.own && cfg.own[x.iface] == own && AllBacked(cfg, xs + [x], b)
    ensures AllBacked(cfg, xs + [x], Leased(own, b, Place(x.iface, x.ip), x.mac))
  {
    var ys := xs + [x];
    if x.ip != own.ip {
      var k := Candidate(x.iface, x.ip, x.mac);
      assert x in ys && ArpDhcp.Grants(cfg, x, Place(k.iface, k.ip), k.mac);
    }
  }

  lemma {:induction false} StepProven(cfg: ArpConfig, s: ArpState, xs: seq<Step>, x: Step)
    requires Below(s.pending, cfg.learnThreshold)
    requires AllHeard(cfg, xs, s.pending) && AllBacked(cfg, xs, s.bindings)
    ensures AllHeard(cfg, xs + [x], Stepped(cfg, s, x).pending)
    ensures AllBacked(cfg, xs + [x], Stepped(cfg, s, x).bindings)
  {
    AllStay(cfg, xs, x, TrustOf(s));
    if ClaimOf(cfg, x).Some? {
      var c := ClaimOf(cfg, x).value;
      CheckedTrust(cfg, s, c);
      LearningIsFirst(cfg, TrustOf(s), c);
      LearnProven(cfg, TrustOf(s), xs, x);
    } else if x.Lease? && x.iface in cfg.own {
      LeaseProven(cfg, cfg.own[x.iface], s.bindings, xs, x);
    }
  }

  /** Provenance: every trusted binding of a reachable state goes back to an applied
      lease for just that pair, or to learn_threshold claims of it, in order and each
      within idle_expiry of the one before; every waiting count to so many claims. */
  lemma {:induction false} BindingProvenance(cfg: ArpConfig, xs: seq<Step>)
    ensures AllHeard(cfg, xs, Run(cfg, ARP_START, xs).pending)
    ensures AllBacked(cfg, xs, Run(cfg, ARP_START, xs).bindings)
  {
    if xs != [] {
      var front, x := xs[..|xs| - 1], xs[|xs| - 1];
      BindingProvenance(cfg, front);
      RunBelow(cfg, front);
      StepProven(cfg, Run(cfg, ARP_START, front), front, x);
      assert xs == front + [x];
    }
  }

  /** A chain of n claims spans at most n - 1 idle periods. */
  lemma {:induction false} ChainSpan(cfg: ArpConfig, xs: seq<Step>, js: seq<nat>, k: Candidate)
    requires Chain(cfg, xs, js, k) && js != []
    ensures At(xs[js[|js| - 1]]) - At(xs[js[0]]) <= (|js| - 1) as real * cfg.idleExpiry
  {
    if |js| > 1 {
      var n := |js| - 1;
      ChainSpan(cfg, xs, js[..n], k);
      assert At(xs[js[n]]) - At(xs[js[n - 1]]) <= cfg.idleExpiry;
      assert n as real * cfg.idleExpiry == (n - 1) as real * cfg.idleExpiry + cfg.idleExpiry;
    }
  }

  // Learning gets there.

  /** How many claims the candidate makes, and when the last of them. */
  function ClaimCount(cfg: ArpConfig, ys: seq<Step>, k: Candidate): nat {
    if ys == [] then 0 else ClaimCount(cfg, ys[..|ys| - 1], k) + if Claims(cfg, ys[|ys| - 1], k) then 1 else 0
  }

  function LastClaim(cfg: ArpConfig, ys: seq<Step>, k: Candidate): Time {
    if ys == [] then 0.0
    else if Claims(cfg, ys[|ys| - 1], k) then At(ys[|ys| - 1]) else LastClaim(cfg, ys[..|ys| - 1], k)
  }

  /** The candidate never pauses for longer than idle_expiry between its claims. */
  predicate Steady(cfg: ArpConfig, ys: seq<Step>, k: Candidate) {
    ys == [] ||
    var front, x := ys[..|ys| - 1], ys[|ys| - 1];
    && Steady(cfg, front, k)
    && (Claims(cfg, x, k) && ClaimCount(cfg, front, k) > 0 ==> At(x) - LastClaim(cfg, front, k) <= cfg.idleExpiry)
  }

  /** After n claims, the last at time t: bound by now, or waiting with at least n. */
  predicate Progress(t: Trust, k: Candidate, n: nat, last: Time) {
    Place(k.iface, k.ip) in t.bindings || n == 0 ||
    (k in t.pending && t.pending[k].count >= n && t.pending[k].lastSeen == last)
  }

  lemma {:induction false} ClaimProgress(cfg: ArpConfig, t: Trust, c: Claim, k: Candidate, n: nat, last: Time)
    requires c.iface in cfg.own && Progress(t, k, n, last)
    requires !(k.iface in cfg.own && k.ip == cfg.own[k.iface].ip && k.mac != cfg.own[k.iface].mac)
    requires Candidate(c.iface, c.srcIp, c.srcMac) == k && n > 0 ==> c.time - last <= cfg.idleExpiry
    ensures
      var u := if Teaches(cfg, t.bindings, c) then LearnedFirst(cfg, t, c) else t;
      if Candidate(c.iface, c.srcIp, c.srcMac) == k then Progress(u, k, n + 1, c.time) else Progress(u, k, n, last)
  {
  }

  /** The step is no lease that could take the candidate's address away from whoever holds it. */
  predicate Harmless(y: Step, k: Candidate) {
    y.Lease? ==> y.iface != k.iface || y.ip == k.ip
  }

  lemma {:induction false} LeaseProgress(own: Identity, t: Trust, y: Step, k: Candidate, n: nat, last: Time)
    requires y.Lease? && Harmless(y, k) && Progress(t, k, n, last)
    ensures Progress(t.(bindings := Leased(own, t.bindings, Place(y.iface, y.ip), y.mac)), k, n, last)
  {
  }

  lemma {:induction false} StepProgress(cfg: ArpConfig, s: ArpState, x: Step, k: Candidate, n: nat, last: Time)
    requires Below(s.pending, cfg.learnThreshold) && Harmless(x, k) && Progress(TrustOf(s), k, n, last)
    requires !(k.iface in cfg.own && k.ip == cfg.own[k.iface].ip && k.mac != cfg.own[k.iface].mac)
    requires Claims(cfg, x, k) && n > 0 ==> At(x) - last <= cfg.idleExpiry
    ensures
      var u := TrustOf(Stepped(cfg, s, x));
      if Claims(cfg, x, k) then Progress(u, k, n + 1, At(x)) else Progress(u, k, n, last)
  {
    if ClaimOf(cfg, x).Some? {
      var c := ClaimOf(cfg, x).value;
      CheckedTrust(cfg, s, c);
      LearningIsFirst(cfg, TrustOf(s), c);
      ClaimProgress(cfg, TrustOf(s), c, k, n, last);
    } else if x.Lease? && x.iface in cfg.own {
      LeaseProgress(cfg.own[x.iface], TrustOf(s), x, k, n, last);
    }
  }

  lemma {:induction false} RunProgress(cfg: ArpConfig, xs: seq<Step>, ys: seq<Step>, k: Candidate)
    requires (forall y :: y in ys ==> Harmless(y, k)) && Steady(cfg, ys, k)
    requires !(k.iface in cfg.own && k.ip == cfg.own[k.iface].ip && k.mac != cfg.own[k.iface].mac)
    ensures Progress(TrustOf(Run(cfg, ARP_START, xs + ys)), k, ClaimCount(cfg, ys, k), LastClaim(cfg, ys, k))
  {
    if ys != [] {
      var front, x := ys[..|ys| - 1], ys[|ys| - 1];
      assert x in ys && forall y :: y in front ==> y in ys;
      RunProgress(cfg, xs, front, k);
      RunBelow(cfg, xs + front);
      RunAppend(cfg, ARP_START, xs + front, x);
      assert xs + ys == xs + front + [x];
      StepProgress(cfg, Run(cfg, ARP_START, xs + front), x, k, ClaimCount(cfg, front, k), LastClaim(cfg, front, k));
    }
  }

  /** Learning gets there: whatever came before and whatever is interleaved, short of a
      lease on another address of the same interface, learn_threshold claims by one
      candidate, never pausing for longer than idle_expiry, leave the address bound,
      unless they falsely claim to be the router. */
  lemma {:induction false} LearningCompletes(cfg: ArpConfig, xs: seq<Step>, ys: seq<Step>, k: Candidate)
    requires (forall y :: y in ys ==> Harmless(y, k)) && Steady(cfg, ys, k)
    requires !(k.iface in cfg.own && k.ip == cfg.own[k.iface].ip && k.mac != cfg.own[k.iface].mac)
    requires ClaimCount(cfg, ys, k) >= 1 && ClaimCount(cfg, ys, k) >= cfg.learnThreshold
    ensures Place(k.iface, k.ip) in Run(cfg, ARP_START, xs + ys).bindings
  {
    RunProgress(cfg, xs, ys, k);
    RunBelow(cfg, xs + ys);
  }
}
