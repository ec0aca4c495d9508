/** What every run of a detector's table obeys, whichever detector drives it. */
module DetectorTheory {
  import opened Net
  import opened Attacks
  import opened Detectors
  import opened Lifecycle

  // Reading a run key by key.

  /** The evidence of a run against one incident. */
  function HistoryOf(ops: seq<Op>, k: Key): seq<Evidence> {
    if ops == [] then []
    else
      var op := ops[|ops| - 1];
      HistoryOf(ops[..|ops| - 1], k) + if op.Log? && op.e.key == k then [op.e] else []
  }

  /** What that evidence makes of an incident nobody else touches and no sweep visits. */
  function Alone(h: seq<Evidence>): Option<AttackState> {
    if h == [] then None
    else
      var e := h[|h| - 1];
      var before := Alone(h[..|h| - 1]);
      var a := if before.Some? then before.value else NewAttack(e.time);
      Some(Recorded(WithClaims(a, e.claimed), e.check, e.time, Floor(e.strength, a.count)))
  }

  /** An incident as a table knows it, seen through a decay. */
  function IncidentOf(t: Table, k: Key): Option<AttackState> {
    if k in t.incidents then Some(Undecayed(t.incidents[k])) else None
  }

  lemma {:induction false} SweptFromAt(t: Table, i: nat, k: Key, idleExpiry: Time, now: Time)
    requires Ordered(t) && i <= |t.order|
    ensures SweptFrom(t, i, idleExpiry, now).order == t.order
    ensures k in SweptFrom(t, i, idleExpiry, now).incidents <==> k in t.incidents
    ensures k in t.incidents ==>
      (SweptFrom(t, i, idleExpiry, now).incidents[k] ==
       if k in t.order[i..] then Aged(t.incidents[k], idleExpiry, now) else t.incidents[k])
    decreases |t.order| - i
  {
    if i < |t.order| {
      var first := t.order[i];
      assert t.order[i..] == [first] + t.order[i + 1..];
      SweptFromAt(SweptOne(t, first, idleExpiry, now), i + 1, k, idleExpiry, now);
      if first == k {
        assert k !in t.order[i + 1..];
      }
    }
  }

  /** A sweep ages every incident by its own clock and enters, removes and moves none. */
  lemma SweptAt(t: Table, k: Key, idleExpiry: Time, now: Time)
    requires Ordered(t)
    ensures Swept(t, idleExpiry, now).order == t.order
    ensures k in Swept(t, idleExpiry, now).incidents <==> k in t.incidents
    ensures k in t.incidents ==> Swept(t, idleExpiry, now).incidents[k] == Aged(t.incidents[k], idleExpiry, now)
  {
    SweptFromAt(t, 0, k, idleExpiry, now);
    assert t.order[0..] == t.order;
  }

  /** The incident is idle and has not been announced as such. */
  predicate Due(t: Table, k: Key, idleExpiry: Time, now: Time) {
    k in t.incidents && Expired(t.incidents[k], idleExpiry, now) && t.incidents[k].status != Decayed
  }

  /** One line for each due incident from the i-th on, in table order. */
  function Announced(t: Table, i: nat, idleExpiry: Time, now: Time): seq<Line>
    requires i <= |t.order|
    decreases |t.order| - i
  {
    if i == |t.order| then []
    else
      var k := t.order[i];
      (if Due(t, k, idleExpiry, now) then [DecayedLine(k, t.incidents[k].count)] else []) +
      Announced(t, i + 1, idleExpiry, now)
  }

  lemma {:induction false} AnnouncedAlike(t: Table, u: Table, i: nat, idleExpiry: Time, now: Time)
    requires i <= |t.order| && u.order == t.order
    requires forall j :: i <= j < |t.order| ==>
      && (t.order[j] in t.incidents <==> t.order[j] in u.incidents)
      && (t.order[j] in t.incidents ==> t.incidents[t.order[j]] == u.incidents[t.order[j]])
    ensures Announced(t, i, idleExpiry, now) == Announced(u, i, idleExpiry, now)
    decreases |t.order| - i
  {
    if i < |t.order| {
      AnnouncedAlike(t, u, i + 1, idleExpiry, now);
    }
  }

  lemma {:induction false} SweptFromPrints(t: Table, i: nat, idleExpiry: Time, now: Time)
    requires Ordered(t) && i <= |t.order|
    ensures SweptFrom(t, i, idleExpiry, now).log == t.log + Announced(t, i, idleExpiry, now)
    decreases |t.order| - i
  {
    if i < |t.order| {
      var u := SweptOne(t, t.order[i], idleExpiry, now);
      SweptFromPrints(u, i + 1, idleExpiry, now);
      AnnouncedAlike(t, u, i + 1, idleExpiry, now);
    }
  }

  /** What a sweep prints: one [DECAYED] line for each incident that is idle and was not
      decayed yet, in table order, and nothing else. */
  lemma {:induction false} SweptPrints(t: Table, idleExpiry: Time, now: Time)
    requires Ordered(t)
    ensures Swept(t, idleExpiry, now).log == t.log + Announced(t, 0, idleExpiry, now)
  {
    SweptFromPrints(t, 0, idleExpiry, now);
  }

  lemma ApplyOrdered(t: Table, op: Op, idleExpiry: Time)
    requires Ordered(t)
    ensures Ordered(Apply(t, op, idleExpiry))
  {
    if op.Sweep? {
      forall k ensures k in Swept(t, idleExpiry, op.now).incidents <==> k in t.incidents {
        SweptAt(t, k, idleExpiry, op.now);
      }
      SweptAt(t, Key(0, NoMac, NoMac), idleExpiry, op.now);
    }
  }

  lemma {:induction false} RunOrdered(ops: seq<Op>, idleExpiry: Time)
    ensures Ordered(ApplyAll(EMPTY, ops, idleExpiry))
  {
    if ops != [] {
      RunOrdered(ops[..|ops| - 1], idleExpiry);
      ApplyOrdered(ApplyAll(EMPTY, ops[..|ops| - 1], idleExpiry), ops[|ops| - 1], idleExpiry);
    }
  }

  /** One operation moves the incident it names as if alone, and no other. */
  lemma ApplyAt(t: Table, op: Op, idleExpiry: Time, k: Key)
    requires Ordered(t)
    ensures !(op.Log? && op.e.key == k) ==> IncidentOf(Apply(t, op, idleExpiry), k) == IncidentOf(t, k)
    ensures op.Log? && op.e.key == k ==>
      var a := if k in t.incidents then Undecayed(t.incidents[k]) else NewAttack(op.e.time);
      IncidentOf(Apply(t, op, idleExpiry), k) ==
      Some(Recorded(WithClaims(a, op.e.claimed), op.e.check, op.e.time, Floor(op.e.strength, a.count)))
  {
    if op.Sweep? {
      SweptAt(t, k, idleExpiry, op.now);
    }
  }

  lemma {:induction false} AloneStep(h: seq<Evidence>, e: Evidence)
    ensures
      var a := if Alone(h).Some? then Alone(h).value else NewAttack(e.time);
      Alone(h + [e]) == Some(Recorded(WithClaims(a, e.claimed), e.check, e.time, Floor(e.strength, a.count)))
  {
    assert (h + [e])[..|h|] == h;
  }

  lemma {:induction false} StillAlone(t: Table, op: Op, idleExpiry: Time, k: Key, h: seq<Evidence>)
    requires Ordered(t) && IncidentOf(t, k) == Alone(h)
    ensures IncidentOf(Apply(t, op, idleExpiry), k) == Alone(if op.Log? && op.e.key == k then h + [op.e] else h)
  {
    ApplyAt(t, op, idleExpiry, k);
    if op.Log? && op.e.key == k {
      AloneStep(h, op.e);
    }
  }

  lemma {:induction false} HistoryStep(ops: seq<Op>, k: Key)
    requires ops != []
    ensures
      var front, op := ops[..|ops| - 1], ops[|ops| - 1];
      HistoryOf(ops, k) == if op.Log? && op.e.key == k then HistoryOf(front, k) + [op.e] else HistoryOf(front, k)
  {
  }

  /** Demultiplexing: whatever is interleaved with it and whenever sweeps fire, an
      incident is exactly what its own evidence makes of it. */
  lemma {:induction false} Demultiplexed(ops: seq<Op>, idleExpiry: Time, k: Key)
    ensures IncidentOf(ApplyAll(EMPTY, ops, idleExpiry), k) == Alone(HistoryOf(ops, k))
  {
    if ops != [] {
      var front, op := ops[..|ops| - 1], ops[|ops| - 1];
      Demultiplexed(front, idleExpiry, k);
      RunOrdered(front, idleExpiry);
      StillAlone(ApplyAll(EMPTY, front, idleExpiry), op, idleExpiry, k, HistoryOf(front, k));
      HistoryStep(ops, k);
    }
  }

  // Escalation.

  function FloorsOf(h: seq<Evidence>): (fs: seq<Option<Rung>>)
    ensures |fs| == |h| && forall i :: 0 <= i < |h| ==> fs[i] == Floor(h[i].strength, i)
  {
    seq(|h|, i requires 0 <= i < |h| => Floor(h[i].strength, i))
  }

  lemma {:induction false} AloneClimbs(h: seq<Evidence>)
    requires h != []
    ensures Alone(h).Some? && Alone(h).value.count == |h|
    ensures Effective(Alone(h).value) == Climbed(FloorsOf(h))
    ensures Alone(h).value.firstSeen == h[0].time && Alone(h).value.lastSeen == h[|h| - 1].time
  {
    var front := h[..|h| - 1];
    assert FloorsOf(h)[..|h| - 1] == FloorsOf(front);
    if front != [] {
      AloneClimbs(front);
    } else {
      assert Climbed(FloorsOf(front)) == Suspected;
    }
  }

  /** The position of the first piece of evidence that is a fact, or the length. */
  function FirstFact(h: seq<Evidence>): (f: nat)
    ensures f <= |h| && (f < |h| ==> h[f].strength.Fact?)
    ensures forall i :: 0 <= i < f ==> !h[i].strength.Fact?
  {
    if h == [] then 0
    else
      var f := FirstFact(h[..|h| - 1]);
      if f < |h| - 1 || h[|h| - 1].strength.Fact? then f else |h|
  }

  function Min(a: int, b: int): int { if a <= b then a else b }
  function Max(a: int, b: int): int { if a <= b then b else a }

  /** Every piece of evidence either is a fact or counts toward one threshold. */
  predicate GradedBy(h: seq<Evidence>, threshold: int) {
    forall i :: 0 <= i < |h| ==> h[i].strength == Fact || h[i].strength == ByCount(threshold)
  }

  /** The first floored record is the first fact or the one that reaches the threshold. */
  lemma {:induction false} FirstFlooredIs(h: seq<Evidence>, threshold: int)
    requires GradedBy(h, threshold)
    ensures FirstFloored(FloorsOf(h)) == Min(|h|, Min(Max(threshold, 1) - 1, FirstFact(h)))
  {
    var fs := FloorsOf(h);
    var f, g := FirstFloored(fs), FirstFact(h);
    assert forall i :: 0 <= i < |h| ==> (fs[i].Some? <==> h[i].strength.Fact? || i + 1 >= threshold);
    if f < |h| {
      assert f > 0 ==> fs[f - 1].None?;
      assert f <= g;
    }
    if 0 < threshold <= |h| {
      assert fs[threshold - 1].Some?;
    }
    if g < |h| {
      assert fs[g].Some?;
    }
  }

  /** Where evidence either is a fact or counts toward one threshold, an incident is
      confirmed by whichever comes first, a fact or the threshold. */
  lemma {:induction false} EscalationLaw(h: seq<Evidence>, threshold: int)
    requires h != []
    requires GradedBy(h, threshold)
    ensures Alone(h).Some? && Alone(h).value.count == |h|
    ensures Effective(Alone(h).value) == RungAt(|h|, Min(Max(threshold, 1), FirstFact(h) + 1))
  {
    AloneClimbs(h);
    LadderLaw(FloorsOf(h));
    FirstFlooredIs(h, threshold);
  }

  // Conservation.

  function AlertsFor(log: seq<Line>, k: Key): nat {
    if log == [] then 0
    else AlertsFor(log[..|log| - 1], k) +
         if log[|log| - 1].Alert? && log[|log| - 1].key == k then 1 else 0
  }

  function DecaysFor(log: seq<Line>, k: Key): nat {
    if log == [] then 0
    else DecaysFor(log[..|log| - 1], k) +
         if log[|log| - 1].DecayedLine? && log[|log| - 1].key == k then 1 else 0
  }

  function Alerts(log: seq<Line>): nat {
    if log == [] then 0 else Alerts(log[..|log| - 1]) + if log[|log| - 1].Alert? then 1 else 0
  }

  lemma LogGrows(log: seq<Line>, line: Line, k: Key)
    ensures Alerts(log + [line]) == Alerts(log) + if line.Alert? then 1 else 0
    ensures AlertsFor(log + [line], k) == AlertsFor(log, k) + if line.Alert? && line.key == k then 1 else 0
    ensures DecaysFor(log + [line], k) == DecaysFor(log, k) + if line.DecayedLine? && line.key == k then 1 else 0
  {
    assert (log + [line])[..|log|] == log;
  }

  function CountOf(t: Table, k: Key): nat {
    if k in t.incidents then t.incidents[k].count else 0
  }

  /** The sum of the counts of the listed incidents. */
  function SumCounts(t: Table, ks: seq<Key>): nat {
    if ks == [] then 0 else SumCounts(t, ks[..|ks| - 1]) + CountOf(t, ks[|ks| - 1])
  }

  function TotalCount(t: Table): nat {
    SumCounts(t, t.order)
  }

  lemma {:induction false} SumDiffersAt(t: Table, u: Table, ks: seq<Key>, k: Key)
    requires forall i, j :: 0 <= i < j < |ks| ==> ks[i] != ks[j]
    requires forall x :: x != k ==> CountOf(t, x) == CountOf(u, x)
    ensures SumCounts(u, ks) == SumCounts(t, ks) + if k in ks then CountOf(u, k) - CountOf(t, k) else 0
  {
    if ks != [] {
      var front := ks[..|ks| - 1];
      assert ks == front + [ks[|ks| - 1]];
      SumDiffersAt(t, u, front, k);
    }
  }

  /** Every sweep step keeps counts and alerts, and prints at most once per activity. */
  lemma {:induction false} SweptFromCounts(t: Table, i: nat, k: Key, idleExpiry: Time, now: Time)
    requires i <= |t.order|
    ensures
      var u := SweptFrom(t, i, idleExpiry, now);
      && CountOf(u, k) == CountOf(t, k)
      && Alerts(u.log) == Alerts(t.log) && AlertsFor(u.log, k) == AlertsFor(t.log, k)
      && DecaysFor(u.log, k) + Liveness(u, k) == DecaysFor(t.log, k) + Liveness(t, k)
    decreases |t.order| - i
  {
    if i < |t.order| {
      var first := t.order[i];
      SweptFromCounts(SweptOne(t, first, idleExpiry, now), i + 1, k, idleExpiry, now);
      if first in t.incidents {
        LogGrows(t.log, DecayedLine(first, t.incidents[first].count), k);
      }
    }
  }

  /** 1 for an incident that can still be announced as decayed, 0 otherwise. */
  function Liveness(t: Table, k: Key): nat {
    if k in t.incidents && t.incidents[k].status != Decayed then 1 else 0
  }

  function Logs(ops: seq<Op>): nat {
    if ops == [] then 0 else Logs(ops[..|ops| - 1]) + if ops[|ops| - 1].Log? then 1 else 0
  }

  lemma ApplyCounts(t: Table, op: Op, k: Key, idleExpiry: Time)
    requires Ordered(t)
    ensures
      var u := Apply(t, op, idleExpiry);
      var hit := if op.Log? && op.e.key == k then 1 else 0;
      && CountOf(u, k) == CountOf(t, k) + hit
      && AlertsFor(u.log, k) == AlertsFor(t.log, k) + hit
      && Alerts(u.log) == Alerts(t.log) + (if op.Log? then 1 else 0)
      && DecaysFor(u.log, k) + Liveness(u, k) <= DecaysFor(t.log, k) + Liveness(t, k) + hit
  {
    match op
    case Log(e) =>
      var u := Apply(t, op, idleExpiry);
      LogGrows(t.log, u.log[|t.log|], k);
    case Mark(key, ports) => LogGrows(t.log, PortSweep(key, ports), k);
    case Sweep(now) => SweptFromCounts(t, 0, k, idleExpiry, now);
  }

  /** Per incident: the count is the number of alerts printed for it, and it is
      announced as decayed at most once per piece of evidence. */
  lemma {:induction false} CountIsAlerts(ops: seq<Op>, k: Key, idleExpiry: Time)
    ensures
      var t := ApplyAll(EMPTY, ops, idleExpiry);
      && CountOf(t, k) == AlertsFor(t.log, k) == |HistoryOf(ops, k)|
      && DecaysFor(t.log, k) + Liveness(t, k) <= CountOf(t, k)
  {
    if ops != [] {
      CountIsAlerts(ops[..|ops| - 1], k, idleExpiry);
      RunOrdered(ops[..|ops| - 1], idleExpiry);
      ApplyCounts(ApplyAll(EMPTY, ops[..|ops| - 1], idleExpiry), ops[|ops| - 1], k, idleExpiry);
    }
  }

  lemma LoggedTotal(t: Table, e: Evidence)
    requires Ordered(t)
    ensures TotalCount(Logged(t, e)) == TotalCount(t) + 1
  {
    var u := Logged(t, e);
    assert CountOf(u, e.key) == CountOf(t, e.key) + 1;
    SumDiffersAt(t, u, t.order, e.key);
    if e.key !in t.incidents {
      assert u.order[..|t.order|] == t.order;
    }
  }

  lemma ApplyTotal(t: Table, op: Op, idleExpiry: Time)
    requires Ordered(t)
    ensures TotalCount(Apply(t, op, idleExpiry)) == TotalCount(t) + if op.Log? then 1 else 0
  {
    if op.Log? {
      LoggedTotal(t, op.e);
    } else {
      var u, k := Apply(t, op, idleExpiry), Key(0, NoMac, NoMac);
      forall x ensures CountOf(u, x) == CountOf(t, x) {
        ApplyCounts(t, op, x, idleExpiry);
      }
      if op.Sweep? {
        SweptAt(t, k, idleExpiry, op.now);
      }
      SumDiffersAt(t, u, t.order, k);
    }
  }

  /** Over a whole run: the counts of all incidents add up to the number of alerts
      printed, which is the number of pieces of evidence. */
  lemma {:induction false} EvidenceConserved(ops: seq<Op>, idleExpiry: Time)
    ensures
      var t := ApplyAll(EMPTY, ops, idleExpiry);
      TotalCount(t) == Alerts(t.log) == Logs(ops)
  {
    if ops != [] {
      var front := ops[..|ops| - 1];
      EvidenceConserved(front, idleExpiry);
      RunOrdered(front, idleExpiry);
      var t := ApplyAll(EMPTY, front, idleExpiry);
      ApplyTotal(t, ops[|ops| - 1], idleExpiry);
      ApplyCounts(t, ops[|ops| - 1], Key(0, NoMac, NoMac), idleExpiry);
    }
  }

  /** Incidents are never removed, never renamed and never lose their place. */
  lemma {:induction false} NothingForgotten(t: Table, ops: seq<Op>, idleExpiry: Time)
    requires Ordered(t)
    ensures Ordered(ApplyAll(t, ops, idleExpiry))
    ensures t.order <= ApplyAll(t, ops, idleExpiry).order
    ensures forall k :: k in t.incidents ==> k in ApplyAll(t, ops, idleExpiry).incidents
  {
    if ops != [] {
      var front, op := ops[..|ops| - 1], ops[|ops| - 1];
      NothingForgotten(t, front, idleExpiry);
      var u := ApplyAll(t, front, idleExpiry);
      ApplyOrdered(u, op, idleExpiry);
      forall k | k in u.incidents ensures k in Apply(u, op, idleExpiry).incidents {
        ApplyCounts(u, op, k, idleExpiry);
        if op.Sweep? {
          SweptAt(u, k, idleExpiry, op.now);
        }
      }
      if op.Sweep? {
        SweptAt(u, Key(0, NoMac, NoMac), idleExpiry, op.now);
      }
    }
  }

  // What is printed about whom.

  /** The lines about these incidents, in order, decay announcements aside: those follow
      the sweeps, which all incidents share. */
  ghost function LinesOf(log: seq<Line>, ks: iset<Key>): seq<Line> {
    if log == [] then []
    else
      var line := log[|log| - 1];
      LinesOf(log[..|log| - 1], ks) + if !line.DecayedLine? && line.key in ks then [line] else []
  }

  lemma {:induction false} LinesGrow(log: seq<Line>, line: Line, ks: iset<Key>)
    ensures LinesOf(log + [line], ks) ==
            if !line.DecayedLine? && line.key in ks then LinesOf(log, ks) + [line] else LinesOf(log, ks)
  {
    assert (log + [line])[..|log|] == log;
  }

  lemma {:induction false} SweptOneSilent(t: Table, k: Key, ks: iset<Key>, idleExpiry: Time, now: Time)
    ensures LinesOf(SweptOne(t, k, idleExpiry, now).log, ks) == LinesOf(t.log, ks)
  {
    if k in t.incidents {
      LinesGrow(t.log, DecayedLine(k, t.incidents[k].count), ks);
    }
  }

  lemma {:induction false} SweptFromSilent(t: Table, i: nat, ks: iset<Key>, idleExpiry: Time, now: Time)
    requires i <= |t.order|
    ensures LinesOf(SweptFrom(t, i, idleExpiry, now).log, ks) == LinesOf(t.log, ks)
    decreases |t.order| - i
  {
    if i < |t.order| {
      SweptOneSilent(t, t.order[i], ks, idleExpiry, now);
      SweptFromSilent(SweptOne(t, t.order[i], idleExpiry, now), i + 1, ks, idleExpiry, now);
    }
  }

  /** The alert for one more piece of evidence, from what came before it alone. */
  function AlertOf(before: Option<AttackState>, e: Evidence): Line {
    var a := if before.Some? then before.value else NewAttack(e.time);
    Alert(e.key, e.check, Active(Climb(Effective(a), Floor(e.strength, a.count))), a.count + 1, e.confirmedBy)
  }

  lemma {:induction false} LoggedPrints(t: Table, e: Evidence)
    ensures Logged(t, e).log == t.log + [AlertOf(IncidentOf(t, e.key), e)]
  {
  }

  lemma {:induction false} LoggedSays(t: Table, e: Evidence, ks: iset<Key>)
    ensures LinesOf(Logged(t, e).log, ks) ==
            if e.key in ks then LinesOf(t.log, ks) + [AlertOf(IncidentOf(t, e.key), e)] else LinesOf(t.log, ks)
  {
    LoggedPrints(t, e);
    LinesGrow(t.log, AlertOf(IncidentOf(t, e.key), e), ks);
  }

  /** The alerts an incident prints when nobody else touches it and no sweep visits. */
  function AloneLines(h: seq<Evidence>): seq<Line> {
    if h == [] then []
    else AloneLines(h[..|h| - 1]) + [AlertOf(Alone(h[..|h| - 1]), h[|h| - 1])]
  }

  lemma {:induction false} AloneNext(h: seq<Evidence>, e: Evidence)
    ensures AloneLines(h + [e]) == AloneLines(h) + [AlertOf(Alone(h), e)]
  {
    assert (h + [e])[..|h|] == h;
  }

  lemma {:induction false} ApplySays(t: Table, op: Op, idleExpiry: Time, ks: iset<Key>)
    requires !op.Mark?
    ensures LinesOf(Apply(t, op, idleExpiry).log, ks) ==
            if op.Log? && op.e.key in ks then LinesOf(t.log, ks) + [AlertOf(IncidentOf(t, op.e.key), op.e)]
            else LinesOf(t.log, ks)
  {
    match op
    case Log(e) => LoggedSays(t, e, ks);
    case Sweep(now) => SweptFromSilent(t, 0, ks, idleExpiry, now);
  }

  lemma {:induction false} LinesNext(t: Table, op: Op, idleExpiry: Time, k: Key, h: seq<Evidence>)
    requires !op.Mark? && LinesOf(t.log, iset{k}) == AloneLines(h) && IncidentOf(t, k) == Alone(h)
    ensures LinesOf(Apply(t, op, idleExpiry).log, iset{k}) ==
            AloneLines(if op.Log? && op.e.key == k then h + [op.e] else h)
  {
    ApplySays(t, op, idleExpiry, iset{k});
    if op.Log? {
      AloneNext(h, op.e);
    }
  }

  /** Demultiplexing of the output: the alerts about an incident, their statuses, counts
      and clauses included, are those its own evidence gives rise to alone. */
  lemma {:induction false} LinesDemultiplexed(ops: seq<Op>, idleExpiry: Time, k: Key)
    requires forall op :: op in ops ==> !op.Mark?
    ensures LinesOf(ApplyAll(EMPTY, ops, idleExpiry).log, iset{k}) == AloneLines(HistoryOf(ops, k))
  {
    if ops != [] {
      var front, op := ops[..|ops| - 1], ops[|ops| - 1];
      assert op in ops && forall x :: x in front ==> x in ops;
      LinesDemultiplexed(front, idleExpiry, k);
      Demultiplexed(front, idleExpiry, k);
      LinesNext(ApplyAll(EMPTY, front, idleExpiry), op, idleExpiry, k, HistoryOf(front, k));
      HistoryStep(ops, k);
    }
  }

  // When exactly an incident is shown as decayed.

  function TimeOf(op: Op): Option<Time> {
    match op
    case Log(e) => Some(e.time)
    case Mark(_, _) => None
    case Sweep(now) => Some(now)
  }

  /** The time of the latest timed operation; the clock starts at zero. */
  function Clock(ops: seq<Op>): Time {
    if ops == [] then 0.0
    else if TimeOf(ops[|ops| - 1]).Some? then TimeOf(ops[|ops| - 1]).value
    else Clock(ops[..|ops| - 1])
  }

  /** Time never runs backwards. */
  predicate Punctual(ops: seq<Op>) {
    ops == [] ||
    (Punctual(ops[..|ops| - 1]) &&
     (TimeOf(ops[|ops| - 1]).Some? ==> Clock(ops[..|ops| - 1]) <= TimeOf(ops[|ops| - 1]).value))
  }

  /** The time of the latest sweep; detectors start with their marker at zero. */
  function LastSweep(ops: seq<Op>): Time {
    if ops == [] then 0.0
    else if ops[|ops| - 1].Sweep? then ops[|ops| - 1].now
    else LastSweep(ops[..|ops| - 1])
  }

  /** An incident is shown as decayed exactly when the latest sweep found it idle. */
  lemma {:induction false} DecayExact(ops: seq<Op>, k: Key, idleExpiry: Time)
    requires Punctual(ops) && idleExpiry >= 0.0
    ensures LastSweep(ops) <= Clock(ops)
    ensures
      var t := ApplyAll(EMPTY, ops, idleExpiry);
      k in t.incidents ==>
        && t.incidents[k].lastSeen <= Clock(ops)
        && (t.incidents[k].status == Decayed <==> LastSweep(ops) - t.incidents[k].lastSeen > idleExpiry)
  {
    if ops != [] {
      var front, op := ops[..|ops| - 1], ops[|ops| - 1];
      DecayExact(front, k, idleExpiry);
      if op.Sweep? {
        RunOrdered(front, idleExpiry);
        SweptAt(ApplyAll(EMPTY, front, idleExpiry), k, idleExpiry, op.now);
      }
    }
  }

  // Gluing runs together.

  lemma {:induction false} ApplyAllConcat(t: Table, xs: seq<Op>, ys: seq<Op>, idleExpiry: Time)
    ensures ApplyAll(t, xs + ys, idleExpiry) == ApplyAll(ApplyAll(t, xs, idleExpiry), ys, idleExpiry)
  {
    if ys == [] {
      assert xs + ys == xs;
    } else {
      assert (xs + ys)[..|xs + ys| - 1] == xs + ys[..|ys| - 1];
      ApplyAllConcat(t, xs, ys[..|ys| - 1], idleExpiry);
    }
  }

  /** Adding operations that all happen at one time t keeps time running forward. */
  lemma {:induction false} SameTime(xs: seq<Op>, ys: seq<Op>, t: Time)
    requires Punctual(xs) && Clock(xs) <= t
    requires forall op :: op in ys && TimeOf(op).Some? ==> TimeOf(op).value == t
    ensures Punctual(xs + ys) && Clock(xs) <= Clock(xs + ys) <= t
    ensures LastSweep(xs + ys) == if Sweep(t) in ys then t else LastSweep(xs)
  {
    if ys == [] {
      assert xs + ys == xs;
    } else {
      var front, op := ys[..|ys| - 1], ys[|ys| - 1];
      assert ys == front + [op] && op in ys;
      assert (xs + ys)[..|xs + ys| - 1] == xs + front;
      assert forall x :: x in front ==> x in ys;
      SameTime(xs, front, t);
    }
  }

  lemma ApplySingle(t: Table, op: Op, idleExpiry: Time)
    ensures ApplyAll(t, [op], idleExpiry) == Apply(t, op, idleExpiry)
  {
    assert [op][..0] == [];
  }
}
