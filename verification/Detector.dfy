/** detector.py: the table of incidents every detector keeps, and what it prints. */
module Detectors {
  import opened Net
  import opened Attacks

  /** One printed line. */
  datatype Line =
    | Alert(key: Key, check: Check, status: Status, count: nat, confirmedBy: seq<Clause>)
    | DecayedLine(key: Key, count: nat)
    | PortSweep(key: Key, ports: nat)

  /** The incidents in the order they were first seen, and the output so far. */
  datatype Table = Table(incidents: map<Key, AttackState>, order: seq<Key>, log: seq<Line>)

  const EMPTY: Table := Table(map[], [], [])

  /** How strong a piece of evidence is: enough on its own, only with enough
      company (counting itself), or not enough to floor the status. */
  datatype Strength = NoFloor | Fact | ByCount(threshold: int)

  function Floor(s: Strength, count: nat): (f: Option<Rung>) {
    if s.Fact? || (s.ByCount? && count + 1 >= s.threshold) then Some(Confirmed) else None
  }

  /** One piece of evidence against one incident. */
  datatype Evidence = Evidence(
    key: Key, check: Check, time: Time, claimed: set<Ip>, strength: Strength, confirmedBy: seq<Clause>)

  /** What a detector does to its table. */
  datatype Op = Log(e: Evidence) | Mark(key: Key, ports: nat) | Sweep(now: Time)

  /** Fetch or create. */
  function Entered(t: Table, k: Key, timestamp: Time): Table {
    if k in t.incidents then t
    else t.(incidents := t.incidents[k := NewAttack(timestamp)], order := t.order + [k])
  }

  function Aged(a: AttackState, idleExpiry: Time, now: Time): AttackState {
    if Expired(a, idleExpiry, now) then DecayedState(a) else a
  }

  /** Decay one incident if it is idle, announcing it only when it was not decayed yet. */
  function SweptOne(t: Table, k: Key, idleExpiry: Time, now: Time): Table {
    if k in t.incidents && Expired(t.incidents[k], idleExpiry, now) && t.incidents[k].status != Decayed then
      Table(t.incidents[k := DecayedState(t.incidents[k])], t.order, t.log + [DecayedLine(k, t.incidents[k].count)])
    else t
  }

  /** A sweep over the incidents from the i-th on, in table order. */
  function SweptFrom(t: Table, i: nat, idleExpiry: Time, now: Time): Table
    requires i <= |t.order|
    decreases |t.order| - i
  {
    if i == |t.order| then t else SweptFrom(SweptOne(t, t.order[i], idleExpiry, now), i + 1, idleExpiry, now)
  }

  function Swept(t: Table, idleExpiry: Time, now: Time): Table {
    SweptFrom(t, 0, idleExpiry, now)
  }

  /** The order lists exactly the incidents, each once. */
  ghost predicate Ordered(t: Table) {
    && (forall k :: k in t.order <==> k in t.incidents)
    && (forall i, j :: 0 <= i < j < |t.order| ==> t.order[i] != t.order[j])
  }

  function Reported(t: Table, k: Key, check: Check, timestamp: Time, claimed: set<Ip>,
                    floor: Option<Rung>, confirmedBy: seq<Clause>): Table
    requires k in t.incidents
  {
    var a := Recorded(WithClaims(t.incidents[k], claimed), check, timestamp, floor);
    t.(incidents := t.incidents[k := a], log := t.log + [Alert(k, check, a.status, a.count, confirmedBy)])
  }

  function Logged(t: Table, e: Evidence): Table {
    var t1 := Entered(t, e.key, e.time);
    Reported(t1, e.key, e.check, e.time, e.claimed, Floor(e.strength, t1.incidents[e.key].count), e.confirmedBy)
  }

  function Apply(t: Table, op: Op, idleExpiry: Time): Table {
    match op
    case Log(e) => Logged(t, e)
    case Mark(k, ports) => t.(log := t.log + [PortSweep(k, ports)])
    case Sweep(now) => Swept(t, idleExpiry, now)
  }

  function ApplyAll(t: Table, ops: seq<Op>, idleExpiry: Time): Table {
    if ops == [] then t
    else Apply(ApplyAll(t, ops[..|ops| - 1], idleExpiry), ops[|ops| - 1], idleExpiry)
  }

  class Detector {
    const idleExpiry: Time
    var incidents: map<Key, Attack>
    var order: seq<Key>
    var log: seq<Line>
    ghost var view: Table       // what the three fields above hold
    ghost var repr: set<object> // the incident objects

    /** Every incident sits under its own identity, so two keys never share an object. */
    ghost predicate Held()
      reads this, repr
    {
      && this !in repr
      && view.incidents.Keys == incidents.Keys
      && forall k :: k in incidents ==>
           incidents[k] in repr && incidents[k].Holds(k, idleExpiry, view.incidents[k])
    }

    ghost predicate Valid()
      reads this, repr
    {
      match view
      case Table(_, keys, lines) => Held() && order == keys && log == lines && Ordered(view)
    }

    constructor (idleExpiry: Time)
      ensures Valid() && view == EMPTY && this.idleExpiry == idleExpiry && incidents == map[] && repr == {}
    {
      this.idleExpiry := idleExpiry;
      incidents, order, log := map[], [], [];
      view, repr := EMPTY, {};
    }

    /** Put a new incident under its key. */
    method Insert(a: Attack)
      requires Valid() && a.key !in incidents && a.Holds(a.key, idleExpiry, NewAttack(a.firstSeen))
      modifies this
      ensures Valid() && view == Entered(old(view), a.key, a.firstSeen)
      ensures incidents == old(incidents)[a.key := a] && repr == old(repr) + {a}
    {
      incidents := incidents[a.key := a];
      order := order + [a.key];
      view, repr := Entered(view, a.key, a.firstSeen), repr + {a};
    }

    method GetAttack(key: Key, timestamp: Time) returns (a: Attack)
      requires Valid()
      modifies this
      ensures Valid() && fresh(repr - old(repr)) && view == Entered(old(view), key, timestamp)
      ensures key in incidents && a == incidents[key] && a.key == key && a.count == view.incidents[key].count
    {
      if key in incidents {
        a := incidents[key];
      } else {
        a := new Attack(key, timestamp, idleExpiry);
        Insert(a);
      }
    }

    /** Record one piece of evidence and print its alert. */
    method Report(a: Attack, check: Check, timestamp: Time, claimedIp: Option<Ip>,
                  minStatus: Option<Rung>, confirmedBy: seq<Clause>)
      requires Valid() && a.key in incidents && a == incidents[a.key]
      modifies this`log, this`view, a
      ensures Valid() && repr == old(repr)
      ensures view == Reported(old(view), a.key, check, timestamp, Claimed(claimedIp), minStatus, confirmedBy)
    {
      a.RecordClaim(check, timestamp, claimedIp, minStatus);
      log := log + [Alert(a.key, check, a.status, a.count, confirmedBy)];
      view := Reported(view, a.key, check, timestamp, Claimed(claimedIp), minStatus, confirmedBy);
      assert Held();
    }

    /** Print the line that marks a port sweep. */
    method PrintSweep(key: Key, ports: nat)
      requires Valid()
      modifies this`log, this`view
      ensures Valid() && repr == old(repr)
      ensures view == Apply(old(view), Mark(key, ports), idleExpiry)
    {
      log := log + [PortSweep(key, ports)];
      view := Apply(view, Mark(key, ports), idleExpiry);
    }

    /** The guard keeps a decayed incident from being announced again. */
    method ExpireOne(i: nat, now: Time)
      requires Valid() && i < |order|
      modifies this`log, this`view, repr
      ensures Valid() && repr == old(repr)
      ensures view == SweptOne(old(view), order[i], idleExpiry, now)
    {
      assert order[i] in order;
      var a := incidents[order[i]];
      var expired := a.IsExpired(now);
      if expired && a.status != Decayed {
        a.Decay();
        view := SweptOne(view, order[i], idleExpiry, now);
        assert Held();
        log := log + [DecayedLine(order[i], a.count)];
      }
    }

    method ExpireIdle(now: Time)
      requires Valid()
      modifies this`log, this`view, repr
      ensures Valid() && repr == old(repr)
      ensures view == Swept(old(view), idleExpiry, now)
    {
      for i := 0 to |order|
        invariant Valid() && SweptFrom(view, i, idleExpiry, now) == Swept(old(view), idleExpiry, now)
      {
        ExpireOne(i, now);
      }
    }

    /** A copy of the incidents in table order. */
    method Attacks() returns (attacks: seq<Attack>)
      requires Valid()
      ensures |attacks| == |order| && forall i :: 0 <= i < |order| ==> attacks[i] == incidents[order[i]]
    {
      attacks := [];
      for i := 0 to |order|
        invariant |attacks| == i && forall j :: 0 <= j < i ==> attacks[j] == incidents[order[j]]
      {
        attacks := attacks + [incidents[order[i]]];
      }
    }
  }
}
