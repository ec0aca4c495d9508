/** LAN segments share every map of the detector and still do not touch each other. */
module ArpSegments {
  import opened Net
  import opened Detectors
  import opened DetectorTheory
  import opened ArpSpoofDetectors
  import opened ArpEvidence
  import opened ArpLearning

  function SegmentOf(x: Step): Option<Iface> {
    match x
    case Packet(e) => Some(e.iface)
    case Neighbour(iface, _, _, _) => Some(iface)
    case Lease(iface, _, _) => Some(iface)
    case Tidy(_) => None
  }

  /** The steps of one segment; sweeps belong to none. */
  function Only(xs: seq<Step>, i: Iface): seq<Step> {
    if xs == [] then []
    else Only(xs[..|xs| - 1], i) + if SegmentOf(xs[|xs| - 1]) == Some(i) then [xs[|xs| - 1]] else []
  }

  ghost predicate SameBindings(b: Bindings, b': Bindings, i: Iface) {
    forall p: Place :: p.iface == i ==> (p in b <==> p in b') && (p in b ==> b[p] == b'[p])
  }

  ghost predicate SamePending(p: Waiting, p': Waiting, i: Iface) {
    forall k: Candidate :: k.iface == i ==> (k in p <==> k in p') && (k in p ==> p[k] == p'[k])
  }

  ghost predicate SameIncidents(t: Table, t': Table, i: Iface) {
    forall k: Key :: k.iface == i ==> IncidentOf(t, k) == IncidentOf(t', k)
  }

  ghost function KeysOn(i: Iface): iset<Key> {
    iset k: Key | k.iface == i
  }

  /** The same alerts about this segment, in the same order. */
  ghost predicate SameLines(t: Table, t': Table, i: Iface) {
    LinesOf(t.log, KeysOn(i)) == LinesOf(t'.log, KeysOn(i))
  }

  /** Two states that nobody on segment i can tell apart, displayed decay aside. */
  ghost predicate Agree(s: ArpState, s': ArpState, i: Iface) {
    && SameBindings(s.bindings, s'.bindings, i) && SamePending(s.pending, s'.pending, i)
    && SameIncidents(s.table, s'.table, i) && SameLines(s.table, s'.table, i)
  }

  // The table.

  lemma {:induction false} OpsElsewhere(t: Table, ops: seq<Op>, idleExpiry: Time, k: Key)
    requires Ordered(t) && forall op :: op in ops ==> op.Log? ==> op.e.key != k
    ensures IncidentOf(ApplyAll(t, ops, idleExpiry), k) == IncidentOf(t, k)
  {
    if ops != [] {
      var front := ops[..|ops| - 1];
      assert ops[|ops| - 1] in ops && forall op :: op in front ==> op in ops;
      OpsElsewhere(t, front, idleExpiry, k);
      NothingForgotten(t, front, idleExpiry);
      ApplyAt(ApplyAll(t, front, idleExpiry), ops[|ops| - 1], idleExpiry, k);
    }
  }

  lemma {:induction false} SameOps(t: Table, t': Table, ops: seq<Op>, idleExpiry: Time, k: Key)
    requires Ordered(t) && Ordered(t') && IncidentOf(t, k) == IncidentOf(t', k)
    ensures IncidentOf(ApplyAll(t, ops, idleExpiry), k) == IncidentOf(ApplyAll(t', ops, idleExpiry), k)
  {
    if ops != [] {
      var front := ops[..|ops| - 1];
      SameOps(t, t', front, idleExpiry, k);
      NothingForgotten(t, front, idleExpiry);
      NothingForgotten(t', front, idleExpiry);
      ApplyAt(ApplyAll(t, front, idleExpiry), ops[|ops| - 1], idleExpiry, k);
      ApplyAt(ApplyAll(t', front, idleExpiry), ops[|ops| - 1], idleExpiry, k);
    }
  }

  lemma {:induction false} OpsSilent(t: Table, ops: seq<Op>, idleExpiry: Time, i: Iface)
    requires forall op :: op in ops ==> !op.Mark? && (op.Log? ==> op.e.key.iface != i)
    ensures SameLines(ApplyAll(t, ops, idleExpiry), t, i)
  {
    if ops != [] {
      var front := ops[..|ops| - 1];
      assert ops[|ops| - 1] in ops && forall op :: op in front ==> op in ops;
      OpsSilent(t, front, idleExpiry, i);
      ApplySays(ApplyAll(t, front, idleExpiry), ops[|ops| - 1], idleExpiry, KeysOn(i));
    }
  }

  lemma {:induction false} SameOpsIncidents(t: Table, t': Table, ops: seq<Op>, idleExpiry: Time, i: Iface)
    requires Ordered(t) && Ordered(t') && SameIncidents(t, t', i)
    ensures SameIncidents(ApplyAll(t, ops, idleExpiry), ApplyAll(t', ops, idleExpiry), i)
  {
    forall k: Key | k.iface == i
      ensures IncidentOf(ApplyAll(t, ops, idleExpiry), k) == IncidentOf(ApplyAll(t', ops, idleExpiry), k)
    {
      SameOps(t, t', ops, idleExpiry, k);
    }
  }

  lemma {:induction false} SameOpsLines(t: Table, t': Table, ops: seq<Op>, idleExpiry: Time, i: Iface)
    requires Ordered(t) && Ordered(t') && SameIncidents(t, t', i) && SameLines(t, t', i)
    requires forall op :: op in ops ==> !op.Mark?
    ensures SameLines(ApplyAll(t, ops, idleExpiry), ApplyAll(t', ops, idleExpiry), i)
  {
    if ops != [] {
      var front, op := ops[..|ops| - 1], ops[|ops| - 1];
      assert op in ops && forall x :: x in front ==> x in ops;
      SameOpsLines(t, t', front, idleExpiry, i);
      SameOpsIncidents(t, t', front, idleExpiry, i);
      ApplySays(ApplyAll(t, front, idleExpiry), op, idleExpiry, KeysOn(i));
      ApplySays(ApplyAll(t', front, idleExpiry), op, idleExpiry, KeysOn(i));
    }
  }

  lemma StepOpsLocal(cfg: ArpConfig, b: Bindings, x: Step)
    ensures forall op :: op in StepOps(cfg, b, x) ==> !op.Mark? && (op.Log? ==> SegmentOf(x) == Some(op.e.key.iface))
  {
  }

  lemma SameEvidence(cfg: ArpConfig, b: Bindings, b': Bindings, x: Step, i: Iface)
    requires SameBindings(b, b', i) && SegmentOf(x) == Some(i)
    ensures StepOps(cfg, b, x) == StepOps(cfg, b', x)
  {
    if ClaimOf(cfg, x).Some? {
      var c := ClaimOf(cfg, x).value;
      var id := cfg.own[c.iface];
      assert CheckHostCache(id, b, c) == CheckHostCache(id, b', c);
      assert CheckImpersonation(cfg, id, b, c) == CheckImpersonation(cfg, id, b', c);
    }
  }

  // One step.

  lemma TrustElsewhere(cfg: ArpConfig, s: ArpState, x: Step, i: Iface)
    requires Below(s.pending, cfg.learnThreshold) && SegmentOf(x) != Some(i)
    ensures SameBindings(Stepped(cfg, s, x).bindings, s.bindings, i)
    ensures SamePending(Stepped(cfg, s, x).pending, s.pending, i)
  {
    if ClaimOf(cfg, x).Some? {
      CheckedTrust(cfg, s, ClaimOf(cfg, x).value);
      LearningIsFirst(cfg, TrustOf(s), ClaimOf(cfg, x).value);
    }
  }

  lemma StepElsewhere(cfg: ArpConfig, s: ArpState, x: Step, i: Iface)
    requires Ordered(s.table) && Below(s.pending, cfg.learnThreshold) && SegmentOf(x) != Some(i)
    ensures Agree(Stepped(cfg, s, x), s, i)
  {
    StepIsApplied(cfg, s, x);
    StepOpsLocal(cfg, s.bindings, x);
    forall k: Key | k.iface == i ensures IncidentOf(Stepped(cfg, s, x).table, k) == IncidentOf(s.table, k) {
      OpsElsewhere(s.table, StepOps(cfg, s.bindings, x), cfg.idleExpiry, k);
    }
    OpsSilent(s.table, StepOps(cfg, s.bindings, x), cfg.idleExpiry, i);
    TrustElsewhere(cfg, s, x, i);
  }

  lemma {:induction false} LearnSame(cfg: ArpConfig, t: Trust, t': Trust, c: Claim)
    requires Below(t.pending, cfg.learnThreshold) && Below(t'.pending, cfg.learnThreshold)
    requires SameBindings(t.bindings, t'.bindings, c.iface) && SamePending(t.pending, t'.pending, c.iface)
    ensures
      var u, u' := Learned(cfg, t, c), Learned(cfg, t', c);
      SameBindings(u.bindings, u'.bindings, c.iface) && SamePending(u.pending, u'.pending, c.iface)
  {
    LearningIsFirst(cfg, t, c);
    LearningIsFirst(cfg, t', c);
  }

  lemma {:induction false} TrustSame(cfg: ArpConfig, s: ArpState, s': ArpState, x: Step, i: Iface)
    requires Below(s.pending, cfg.learnThreshold) && Below(s'.pending, cfg.learnThreshold)
    requires SameBindings(s.bindings, s'.bindings, i) && SamePending(s.pending, s'.pending, i)
    requires SegmentOf(x) == Some(i)
    ensures
      var u, u' := Stepped(cfg, s, x), Stepped(cfg, s', x);
      SameBindings(u.bindings, u'.bindings, i) && SamePending(u.pending, u'.pending, i)
  {
    if ClaimOf(cfg, x).Some? {
      var c := ClaimOf(cfg, x).value;
      CheckedTrust(cfg, s, c);
      CheckedTrust(cfg, s', c);
      LearnSame(cfg, TrustOf(s), TrustOf(s'), c);
    }
  }

  lemma {:induction false} StepHere(cfg: ArpConfig, s: ArpState, s': ArpState, x: Step, i: Iface)
    requires Ordered(s.table) && Ordered(s'.table)
    requires Below(s.pending, cfg.learnThreshold) && Below(s'.pending, cfg.learnThreshold)
    requires Agree(s, s', i) && SegmentOf(x) == Some(i)
    ensures Agree(Stepped(cfg, s, x), Stepped(cfg, s', x), i)
  {
    TrustSame(cfg, s, s', x, i);
    SameEvidence(cfg, s.bindings, s'.bindings, x, i);
    StepIsApplied(cfg, s, x);
    StepIsApplied(cfg, s', x);
    StepOpsLocal(cfg, s.bindings, x);
    SameOpsIncidents(s.table, s'.table, StepOps(cfg, s.bindings, x), cfg.idleExpiry, i);
    SameOpsLines(s.table, s'.table, StepOps(cfg, s.bindings, x), cfg.idleExpiry, i);
  }

  lemma AgreeTrans(s: ArpState, s': ArpState, s'': ArpState, i: Iface)
    requires Agree(s, s', i) && Agree(s', s'', i)
    ensures Agree(s, s'', i)
  {
  }

  /** Segment independence: for any run, what holds on segment i, and what has been
      alerted about it, is what holds after the run with every other segment's steps,
      and every sweep, taken out. */
  lemma {:induction false} SegmentIndependence(cfg: ArpConfig, xs: seq<Step>, i: Iface)
    ensures Agree(Run(cfg, ARP_START, xs), Run(cfg, ARP_START, Only(xs, i)), i)
  {
    if xs != [] {
      var front, x := xs[..|xs| - 1], xs[|xs| - 1];
      SegmentIndependence(cfg, front, i);
      var s, s' := Run(cfg, ARP_START, front), Run(cfg, ARP_START, Only(front, i));
      ReachableOrdered(cfg, front);
      RunBelow(cfg, front);
      if SegmentOf(x) == Some(i) {
        ReachableOrdered(cfg, Only(front, i));
        RunBelow(cfg, Only(front, i));
        StepHere(cfg, s, s', x, i);
        RunAppend(cfg, ARP_START, Only(front, i), x);
      } else {
        assert Only(xs, i) == Only(front, i);
        StepElsewhere(cfg, s, x, i);
        AgreeTrans(Stepped(cfg, s, x), s, s', i);
      }
    }
  }
}
