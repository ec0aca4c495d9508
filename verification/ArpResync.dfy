/** Calls and resyncs, told by the packets, lease lines and cache entries they are given. */
module ArpResync {
  import opened Net
  import opened DetectorTheory
  import opened ArpSpoofDetectors
  import opened ArpEvidence
  import opened ArpLearning
  import opened ArpDhcp
  import opened ArpPackets

  // Evidence stays, and only leases take addresses away.

  lemma {:induction false} StepTallies(cfg: ArpConfig, xs: seq<Step>, x: Step, k: Key, check: Check)
    ensures
      var t, u := Run(cfg, ARP_START, xs).table, Run(cfg, ARP_START, xs + [x]).table;
      Tally(t, k, check) <= Tally(u, k, check) && Named(t, k) <= Named(u, k)
  {
    var s := Run(cfg, ARP_START, xs);
    RunAppend(cfg, ARP_START, xs, x);
    if x.Tidy? {
      ReachableOrdered(cfg, xs);
      SweptAt(s.table, k, cfg.idleExpiry, x.now);
    } else if ClaimOf(cfg, x).Some? {
      var c := ClaimOf(cfg, x).value;
      ClaimTallies(cfg, s, c, k, check);
      forall ip | ip in Named(s.table, k) ensures ip in Named(Checked(cfg, s, c).table, k) {
        ClaimNames(cfg, s, c, k, ip);
      }
    }
  }

  lemma {:induction false} TalliesStay(cfg: ArpConfig, xs: seq<Step>, ys: seq<Step>, k: Key, check: Check)
    ensures
      var t, u := Run(cfg, ARP_START, xs).table, Run(cfg, ARP_START, xs + ys).table;
      Tally(t, k, check) <= Tally(u, k, check) && Named(t, k) <= Named(u, k)
  {
    if ys == [] {
      assert xs + ys == xs;
    } else {
      var front, y := ys[..|ys| - 1], ys[|ys| - 1];
      TalliesStay(cfg, xs, front, k, check);
      StepTallies(cfg, xs + front, y, k, check);
      assert xs + ys == xs + front + [y];
    }
  }

  lemma {:induction false} StepKeeps(cfg: ArpConfig, s: ArpState, x: Step, p: Place, mac: Host)
    requires Below(s.pending, cfg.learnThreshold)
    requires Bound(s.bindings, p, mac) && !Conflicts(cfg, x, p, mac)
    ensures Bound(Stepped(cfg, s, x).bindings, p, mac)
  {
    if ClaimOf(cfg, x).Some? {
      CheckedTrust(cfg, s, ClaimOf(cfg, x).value);
      LearningIsFirst(cfg, TrustOf(s), ClaimOf(cfg, x).value);
    }
  }

  lemma {:induction false} BoundStays(cfg: ArpConfig, xs: seq<Step>, ys: seq<Step>, p: Place, mac: Host)
    requires Bound(Run(cfg, ARP_START, xs).bindings, p, mac) && Undisputed(cfg, ys, p, mac)
    ensures Bound(Run(cfg, ARP_START, xs + ys).bindings, p, mac)
  {
    if ys == [] {
      assert xs + ys == xs;
    } else {
      var front, y := ys[..|ys| - 1], ys[|ys| - 1];
      BoundStays(cfg, xs, front, p, mac);
      RunBelow(cfg, xs + front);
      RunAppend(cfg, ARP_START, xs + front, y);
      StepKeeps(cfg, Run(cfg, ARP_START, xs + front), y, p, mac);
      assert xs + ys == xs + front + [y];
    }
  }

  // One resync.

  /** The j-th lease gives ip to mac, and no later one gives ip to another MAC or mac
      another address of that interface; leases on the router's address do not count. */
  predicate Stands(cfg: ArpConfig, leases: seq<LeaseLine>, j: nat, iface: Iface, ip: Ip, mac: Host) {
    && iface in cfg.own && ip != cfg.own[iface].ip
    && j < |leases| && leases[j] == LeaseLine(iface, ip, mac)
    && forall l :: j < l < |leases| && leases[l].iface == iface && leases[l].ip != cfg.own[iface].ip ==>
         (leases[l].ip == ip <==> leases[l].mac == mac)
  }

  /** A resync splits at the j-th lease: the leases up to it, and everything after. */
  function UpTo(env: Env, j: nat): seq<Step>
    requires j < |env.leases|
  {
    LeaseSteps(env)[..j + 1]
  }

  function Beyond(env: Env, j: nat): seq<Step>
    requires j < |env.leases|
  {
    LeaseSteps(env)[j + 1..] + NeighbourSteps(env)
  }

  lemma {:induction false} BeyondHarmless(cfg: ArpConfig, env: Env, j: nat, iface: Iface, ip: Ip, mac: Host)
    requires Stands(cfg, env.leases, j, iface, ip, mac)
    ensures Undisputed(cfg, Beyond(env, j), Place(iface, ip), mac)
  {
    var ys, n := Beyond(env, j), |env.leases| - (j + 1);
    forall i | 0 <= i < |ys| ensures !Conflicts(cfg, ys[i], Place(iface, ip), mac) {
      if i < n {
        var l := env.leases[j + 1 + i];
        assert ys[i] == Lease(l.iface, l.ip, l.mac);
      } else {
        assert ys[i] == NeighbourSteps(env)[i - n];
      }
    }
  }

  lemma {:induction false} LeaseBinds(cfg: ArpConfig, xs: seq<Step>, env: Env, j: nat, iface: Iface, ip: Ip, mac: Host)
    requires iface in cfg.own && ip != cfg.own[iface].ip && j < |env.leases| && env.leases[j] == LeaseLine(iface, ip, mac)
    ensures Bound(Run(cfg, ARP_START, xs + UpTo(env, j)).bindings, Place(iface, ip), mac)
  {
    var before, x := LeaseSteps(env)[..j], Lease(iface, ip, mac);
    assert UpTo(env, j) == before + [x];
    assert xs + UpTo(env, j) == xs + before + [x];
    RunAppend(cfg, ARP_START, xs + before, x);
  }

  /** Whatever came before, a resync leaves in force every lease that no later one of it
      disputes, whatever the neighbour cache says. */
  lemma {:induction false} LeaseStands(cfg: ArpConfig, xs: seq<Step>, env: Env, j: nat, iface: Iface, ip: Ip, mac: Host)
    requires Stands(cfg, env.leases, j, iface, ip, mac)
    ensures Bound(Run(cfg, ARP_START, xs + ResyncSteps(env)).bindings, Place(iface, ip), mac)
  {
    LeaseBinds(cfg, xs, env, j, iface, ip, mac);
    BeyondHarmless(cfg, env, j, iface, ip, mac);
    BoundStays(cfg, xs + UpTo(env, j), Beyond(env, j), Place(iface, ip), mac);
    SplitResync(env, j);
    assert xs + ResyncSteps(env) == xs + UpTo(env, j) + Beyond(env, j);
  }

  lemma {:induction false} SplitResync(env: Env, j: nat)
    requires j < |env.leases|
    ensures ResyncSteps(env) == UpTo(env, j) + Beyond(env, j)
  {
    assert LeaseSteps(env) == LeaseSteps(env)[..j + 1] + LeaseSteps(env)[j + 1..];
  }

  /** A resync splits at the n-th cache entry too: everything before it, it, and the rest. */
  function Ahead(env: Env, n: nat): seq<Step>
    requires n < |env.neighbours|
  {
    LeaseSteps(env) + NeighbourSteps(env)[..n]
  }

  function Rest(env: Env, n: nat): seq<Step>
    requires n < |env.neighbours|
  {
    NeighbourSteps(env)[n + 1..]
  }

  function Entry(env: Env, n: nat): Step
    requires n < |env.neighbours|
  {
    Neighbour(env.neighbours[n].iface, env.neighbours[n].ip, env.neighbours[n].mac, env.now)
  }

  lemma {:induction false} SplitAtEntry(xs: seq<Step>, env: Env, n: nat)
    requires n < |env.neighbours|
    ensures xs + ResyncSteps(env) == xs + Ahead(env, n) + [Entry(env, n)] + Rest(env, n)
  {
    var ns := NeighbourSteps(env);
    assert ns == ns[..n] + [ns[n]] + ns[n + 1..];
  }

  /** What lies between the j-th lease and the n-th entry. */
  function Between(env: Env, j: nat, n: nat): seq<Step>
    requires j < |env.leases| && n < |env.neighbours|
  {
    LeaseSteps(env)[j + 1..] + NeighbourSteps(env)[..n]
  }

  lemma {:induction false} SplitAhead(xs: seq<Step>, env: Env, j: nat, n: nat)
    requires j < |env.leases| && n < |env.neighbours|
    ensures xs + Ahead(env, n) == xs + UpTo(env, j) + Between(env, j, n)
  {
    assert LeaseSteps(env) == LeaseSteps(env)[..j + 1] + LeaseSteps(env)[j + 1..];
  }

  lemma {:induction false} BetweenHarmless(cfg: ArpConfig, env: Env, j: nat, n: nat, iface: Iface, ip: Ip, mac: Host)
    requires Stands(cfg, env.leases, j, iface, ip, mac) && n < |env.neighbours|
    ensures Undisputed(cfg, Between(env, j, n), Place(iface, ip), mac)
  {
    var ys := Between(env, j, n);
    BeyondHarmless(cfg, env, j, iface, ip, mac);
    assert forall i :: 0 <= i < |ys| ==> ys[i] == Beyond(env, j)[i];
  }

  lemma {:induction false} BoundAhead(cfg: ArpConfig, xs: seq<Step>, env: Env, j: nat, n: nat, iface: Iface, ip: Ip, mac: Host)
    requires Stands(cfg, env.leases, j, iface, ip, mac) && n < |env.neighbours|
    ensures Bound(Run(cfg, ARP_START, xs + Ahead(env, n)).bindings, Place(iface, ip), mac)
  {
    LeaseBinds(cfg, xs, env, j, iface, ip, mac);
    BetweenHarmless(cfg, env, j, n, iface, ip, mac);
    BoundStays(cfg, xs + UpTo(env, j), Between(env, j, n), Place(iface, ip), mac);
    SplitAhead(xs, env, j, n);
  }

  /** Leases come first and count at once: in every resync, a cache entry that gives a
      leased address to another MAC is reported against that MAC. */
  lemma {:induction false} ResyncCatches(cfg: ArpConfig, xs: seq<Step>, env: Env, j: nat, n: nat,
                                         iface: Iface, ip: Ip, owner: Host, liar: Host)
    requires Stands(cfg, env.leases, j, iface, ip, owner) && cfg.own[iface].mac != NoMac
    requires n < |env.neighbours| && env.neighbours[n] == LeaseLine(iface, ip, liar) && liar != owner
    ensures
      var t, u, k := Run(cfg, ARP_START, xs).table, Run(cfg, ARP_START, xs + ResyncSteps(env)).table, Key(iface, liar, owner);
      && Tally(t, k, HostImpersonation) < Tally(u, k, HostImpersonation) && k in u.incidents
      && ip in u.incidents[k].claimedIps
  {
    var k, ahead := Key(iface, liar, owner), xs + Ahead(env, n);
    var s, id := Run(cfg, ARP_START, ahead), cfg.own[iface];
    BoundAhead(cfg, xs, env, j, n, iface, ip, owner);
    NeighbourJudged(cfg, ahead, iface, ip, liar, env.now, k, HostImpersonation, ip);
    assert Accuses(id, s.bindings, iface, ip, liar, None, NoMac, k, HostImpersonation);
    assert Mouths(id, s.bindings, iface, ip, liar, None, NoMac, k, ip);
    TalliesStay(cfg, xs, Ahead(env, n), k, HostImpersonation);
    TalliesStay(cfg, ahead + [Entry(env, n)], Rest(env, n), k, HostImpersonation);
    SplitAtEntry(xs, env, n);
  }

  /** A cache poisoned before the start is caught at the start. */
  lemma {:induction false} StartCatches(cfg: ArpConfig, start: Env, j: nat, n: nat, iface: Iface, ip: Ip, owner: Host, liar: Host)
    requires Stands(cfg, start.leases, j, iface, ip, owner) && cfg.own[iface].mac != NoMac
    requires n < |start.neighbours| && start.neighbours[n] == LeaseLine(iface, ip, liar) && liar != owner
    ensures
      var s, k := Calls(cfg, start, []).s, Key(iface, liar, owner);
      && Bound(s.bindings, Place(iface, ip), owner)
      && k in s.table.incidents && ip in s.table.incidents[k].claimedIps
      && s.table.incidents[k].checkCounts[HostImpersonation] >= 1
  {
    ResyncCatches(cfg, [], start, j, n, iface, ip, owner, liar);
    LeaseStands(cfg, [], start, j, iface, ip, owner);
    assert [] + ResyncSteps(start) == ResyncSteps(start);
  }

  // One call.

  predicate Due(cfg: ArpConfig, m: Machine, e: PacketEvent) {
    e.timestamp - m.lastResync > cfg.resyncInterval
  }

  /** The steps up to and with the judgement of the next call's packet. */
  ghost function Judged(cfg: ArpConfig, start: Env, calls: seq<(PacketEvent, Env)>, e: PacketEvent): seq<Step> {
    StepsOf(cfg, start, calls) + WatchSteps(cfg, Calls(cfg, start, calls).s.lastCleanup, e)
  }

  lemma {:induction false} CalledSplits(cfg: ArpConfig, xs: seq<Step>, m: Machine, e: PacketEvent, env: Env)
    requires e.iface in cfg.own && m.s == Run(cfg, ARP_START, xs)
    ensures
      var watched := xs + WatchSteps(cfg, m.s.lastCleanup, e);
      Called(cfg, m, e, env).s ==
      if Due(cfg, m, e) then Run(cfg, ARP_START, watched + ResyncSteps(env)) else Run(cfg, ARP_START, watched)
  {
    var watch := WatchSteps(cfg, m.s.lastCleanup, e);
    var resync := if Due(cfg, m, e) then ResyncSteps(env) else [];
    assert CallSteps(cfg, m.s.lastCleanup, m.lastResync, e, env) == watch + resync;
    RunConcat(cfg, ARP_START, xs, watch + resync);
    assert xs + (watch + resync) == xs + watch + resync && watch + [] == watch;
  }

  lemma {:induction false} CallsOneMore(cfg: ArpConfig, start: Env, calls: seq<(PacketEvent, Env)>, e: PacketEvent, env: Env)
    ensures Calls(cfg, start, calls + [(e, env)]) == Called(cfg, Calls(cfg, start, calls), e, env)
  {
    assert (calls + [(e, env)])[..|calls|] == calls;
  }

  lemma {:induction false} CallSplits(cfg: ArpConfig, start: Env, calls: seq<(PacketEvent, Env)>, e: PacketEvent, env: Env)
    requires e.iface in cfg.own
    ensures
      var m, u := Calls(cfg, start, calls), Calls(cfg, start, calls + [(e, env)]);
      var judged := Judged(cfg, start, calls, e);
      && u.s == (if Due(cfg, m, e) then Run(cfg, ARP_START, judged + ResyncSteps(env)) else Run(cfg, ARP_START, judged))
      && u.lastResync == if Due(cfg, m, e) then e.timestamp else m.lastResync
  {
    CallsAreRuns(cfg, start, calls);
    CallsOneMore(cfg, start, calls, e, env);
    CalledSplits(cfg, StepsOf(cfg, start, calls), Calls(cfg, start, calls), e, env);
  }

  /** The sweep before a packet changes neither trust nor tallies. */
  lemma {:induction false} AiredTallies(cfg: ArpConfig, xs: seq<Step>, now: Time, k: Key, check: Check)
    ensures
      var s := Run(cfg, ARP_START, xs);
      var found := Aired(cfg, s, now);
      && found.bindings == s.bindings && found.pending == s.pending
      && Tally(found.table, k, check) == Tally(s.table, k, check)
      && found.lastCleanup == (if now - s.lastCleanup > cfg.cleanupInterval then now else s.lastCleanup)
  {
    var s := Run(cfg, ARP_START, xs);
    ReachableOrdered(cfg, xs);
    if now - s.lastCleanup > cfg.cleanupInterval {
      SweptAt(s.table, k, cfg.idleExpiry, now);
    }
  }

  /** The packet that a call judges, between the state s before it and the state u after. */
  ghost predicate Judgement(cfg: ArpConfig, s: ArpState, u: ArpState, e: PacketEvent, k: Key, check: Check)
    requires e.iface in cfg.own
  {
    && Tally(u.table, k, check) ==
       Tally(s.table, k, check) +
       (if Accuses(cfg.own[e.iface], s.bindings, e.iface, e.srcIp, e.srcMac, Some(e.dstIp), e.dstMac, k, check) then 1 else 0)
    && Taught(cfg, TrustOf(s), TrustOf(u), e.iface, e.srcIp, e.srcMac, e.timestamp)
    && u.lastCleanup == (if e.timestamp - s.lastCleanup > cfg.cleanupInterval then e.timestamp else s.lastCleanup)
  }

  lemma {:induction false} AiredTally(cfg: ArpConfig, b: Bindings, n: nat, f: ArpState, e: PacketEvent, k: Key, check: Check)
    requires e.iface in cfg.own && f.bindings == b && Tally(f.table, k, check) == n
    ensures
      Tally(Stepped(cfg, f, Packet(e)).table, k, check) ==
      n + if Accuses(cfg.own[e.iface], b, e.iface, e.srcIp, e.srcMac, Some(e.dstIp), e.dstMac, k, check) then 1 else 0
  {
    ClaimTallies(cfg, f, PacketClaim(e), k, check);
  }

  lemma {:induction false} AiredTaught(cfg: ArpConfig, t: Trust, f: ArpState, e: PacketEvent)
    requires e.iface in cfg.own && TrustOf(f) == t && Below(t.pending, cfg.learnThreshold)
    ensures Taught(cfg, t, TrustOf(Stepped(cfg, f, Packet(e))), e.iface, e.srcIp, e.srcMac, e.timestamp)
    ensures Stepped(cfg, f, Packet(e)).lastCleanup == f.lastCleanup
  {
    ClaimTaught(cfg, f, PacketClaim(e));
  }

  /** Up to the resync of its call, a packet meets exactly the bindings from before the call. */
  lemma {:induction false} WatchJudges(cfg: ArpConfig, xs: seq<Step>, e: PacketEvent, k: Key, check: Check)
    requires e.iface in cfg.own
    ensures
      var s := Run(cfg, ARP_START, xs);
      Judgement(cfg, s, Run(cfg, ARP_START, xs + WatchSteps(cfg, s.lastCleanup, e)), e, k, check)
  {
    var s := Run(cfg, ARP_START, xs);
    RunConcat(cfg, ARP_START, xs, WatchSteps(cfg, s.lastCleanup, e));
    WatchAirs(cfg, s, e);
    AiredTallies(cfg, xs, e.timestamp, k, check);
    RunBelow(cfg, xs);
    AiredTally(cfg, s.bindings, Tally(s.table, k, check), Aired(cfg, s, e.timestamp), e, k, check);
    AiredTaught(cfg, TrustOf(s), Aired(cfg, s, e.timestamp), e);
  }

  lemma {:induction false} CallJudges(cfg: ArpConfig, start: Env, calls: seq<(PacketEvent, Env)>, e: PacketEvent, k: Key, check: Check)
    requires e.iface in cfg.own
    ensures Judgement(cfg, Calls(cfg, start, calls).s, Run(cfg, ARP_START, Judged(cfg, start, calls, e)), e, k, check)
  {
    CallsAreRuns(cfg, start, calls);
    WatchJudges(cfg, StepsOf(cfg, start, calls), e, k, check);
  }

  /** A call when no resync is due: the packet is judged and teaches, by the bindings from
      before it, and the environment does not matter. */
  lemma {:induction false} QuietCall(cfg: ArpConfig, start: Env, calls: seq<(PacketEvent, Env)>, e: PacketEvent, env: Env,
                                     k: Key, check: Check)
    requires e.iface in cfg.own && e.timestamp - Calls(cfg, start, calls).lastResync <= cfg.resyncInterval
    ensures
      var m, u := Calls(cfg, start, calls), Calls(cfg, start, calls + [(e, env)]);
      Judgement(cfg, m.s, u.s, e, k, check) && u.lastResync == m.lastResync
  {
    CallSplits(cfg, start, calls, e, env);
    CallJudges(cfg, start, calls, e, k, check);
  }

  /** A call when a resync is due: the packet is judged by the bindings from before the
      leases of the same call, then those leases hold, and the clock is set. */
  lemma {:induction false} ResyncCall(cfg: ArpConfig, start: Env, calls: seq<(PacketEvent, Env)>, e: PacketEvent, env: Env,
                                      k: Key, check: Check)
    requires e.iface in cfg.own && e.timestamp - Calls(cfg, start, calls).lastResync > cfg.resyncInterval
    ensures
      var m, u := Calls(cfg, start, calls), Calls(cfg, start, calls + [(e, env)]);
      && Tally(u.s.table, k, check) >=
         Tally(m.s.table, k, check) +
         (if Accuses(cfg.own[e.iface], m.s.bindings, e.iface, e.srcIp, e.srcMac, Some(e.dstIp), e.dstMac, k, check) then 1 else 0)
      && (forall j, iface, ip, mac :: Stands(cfg, env.leases, j, iface, ip, mac) ==>
            Bound(u.s.bindings, Place(iface, ip), mac))
      && u.lastResync == e.timestamp
  {
    var judged := Judged(cfg, start, calls, e);
    CallSplits(cfg, start, calls, e, env);
    CallJudges(cfg, start, calls, e, k, check);
    TalliesStay(cfg, judged, ResyncSteps(env), k, check);
    forall j, iface, ip, mac | Stands(cfg, env.leases, j, iface, ip, mac)
      ensures Bound(Run(cfg, ARP_START, judged + ResyncSteps(env)).bindings, Place(iface, ip), mac)
    {
      LeaseStands(cfg, judged, env, j, iface, ip, mac);
    }
  }

  /** The cache is compared with the leases of the same call, on every call that resyncs. */
  lemma {:induction false} CallCatches(cfg: ArpConfig, start: Env, calls: seq<(PacketEvent, Env)>, e: PacketEvent, env: Env,
                                       j: nat, n: nat, iface: Iface, ip: Ip, owner: Host, liar: Host)
    requires e.iface in cfg.own && e.timestamp - Calls(cfg, start, calls).lastResync > cfg.resyncInterval
    requires Stands(cfg, env.leases, j, iface, ip, owner) && cfg.own[iface].mac != NoMac
    requires n < |env.neighbours| && env.neighbours[n] == LeaseLine(iface, ip, liar) && liar != owner
    ensures
      var t, u := Calls(cfg, start, calls).s.table, Calls(cfg, start, calls + [(e, env)]).s.table;
      var k := Key(iface, liar, owner);
      && Tally(t, k, HostImpersonation) < Tally(u, k, HostImpersonation)
      && k in u.incidents && ip in u.incidents[k].claimedIps
  {
    var judged := Judged(cfg, start, calls, e);
    CallSplits(cfg, start, calls, e, env);
    CallJudges(cfg, start, calls, e, Key(iface, liar, owner), HostImpersonation);
    ResyncCatches(cfg, judged, env, j, n, iface, ip, owner, liar);
  }

  /** A call for a packet on any other interface does nothing, resync and sweep included. */
  lemma {:induction false} ForeignCall(cfg: ArpConfig, start: Env, calls: seq<(PacketEvent, Env)>, e: PacketEvent, env: Env)
    requires e.iface !in cfg.own
    ensures Calls(cfg, start, calls + [(e, env)]) == Calls(cfg, start, calls)
  {
    CallsOneMore(cfg, start, calls, e, env);
  }

  /** Cache entries are judged one after another in the order given, after all leases and
      at the time of the resync: the n-th by what the steps before it left. */
  lemma {:induction false} EntryInTurn(cfg: ArpConfig, xs: seq<Step>, env: Env, n: nat)
    requires n < |env.neighbours| && env.neighbours[n].iface in cfg.own
    requires env.neighbours[n].ip != cfg.own[env.neighbours[n].iface].ip
    ensures
      var l := env.neighbours[n];
      var s := Run(cfg, ARP_START, xs + ResyncSteps(Env(env.leases, env.neighbours[..n], env.now)));
      var u := Run(cfg, ARP_START, xs + ResyncSteps(Env(env.leases, env.neighbours[..n + 1], env.now)));
      && (forall k, check :: Tally(u.table, k, check) == Tally(s.table, k, check) +
            (if Accuses(cfg.own[l.iface], s.bindings, l.iface, l.ip, l.mac, None, NoMac, k, check) then 1 else 0))
      && Taught(cfg, TrustOf(s), TrustOf(u), l.iface, l.ip, l.mac, env.now)
  {
    var l := env.neighbours[n];
    var before, upto := Env(env.leases, env.neighbours[..n], env.now), Env(env.leases, env.neighbours[..n + 1], env.now);
    var ys := xs + ResyncSteps(before);
    assert LeaseSteps(upto) == LeaseSteps(before);
    assert NeighbourSteps(upto) == NeighbourSteps(before) + [Neighbour(l.iface, l.ip, l.mac, env.now)];
    assert xs + ResyncSteps(upto) == ys + [Neighbour(l.iface, l.ip, l.mac, env.now)];
    NeighbourJudged(cfg, ys, l.iface, l.ip, l.mac, env.now, Key(0, NoMac, NoMac), Probe, 0);
    var s, u := Run(cfg, ARP_START, ys), Run(cfg, ARP_START, xs + ResyncSteps(upto));
    forall k, check ensures Tally(u.table, k, check) == Tally(s.table, k, check) +
      (if Accuses(cfg.own[l.iface], s.bindings, l.iface, l.ip, l.mac, None, NoMac, k, check) then 1 else 0)
    {
      NeighbourJudged(cfg, ys, l.iface, l.ip, l.mac, env.now, k, check, 0);
    }
  }
}
