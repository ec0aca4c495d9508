/** attack.py and arp_spoof_attack.py: the life of one incident. */
module Attacks {
  import opened Net

  /** The severity ladder; "decayed" sits outside it. */
  datatype Rung = Suspected | Confirmed | Ongoing
  datatype Status = Active(rung: Rung) | Decayed

  datatype AttackState = AttackState(
    status: Status, preDecay: Option<Rung>, count: nat, firstSeen: Time, lastSeen: Time,
    checkCounts: multiset<Check>, claimedIps: set<Ip>)

  function NewAttack(timestamp: Time): AttackState {
    AttackState(Active(Suspected), None, 0, timestamp, timestamp, multiset{}, {})
  }

  function Rank(r: Rung): nat {
    match r
    case Suspected => 0
    case Confirmed => 1
    case Ongoing => 2
  }

  /** The rung an incident stands on, seen through a decay. */
  function Effective(a: AttackState): Rung {
    match a.status
    case Active(r) => r
    case Decayed => if a.preDecay.Some? then a.preDecay.value else Suspected
  }

  /** The same incident with any decay taken back. */
  function Undecayed(a: AttackState): AttackState {
    a.(status := Active(Effective(a)), preDecay := None)
  }

  /** The remembered rung is there exactly while the incident is decayed, and the
      per-check tallies account for every piece of evidence. */
  predicate Consistent(a: AttackState) {
    (a.status == Decayed <==> a.preDecay.Some?) && |a.checkCounts| == a.count
  }

  /** The higher of the caller's floor and the present rung, where a confirmed
      incident has moved on to ongoing. */
  function Climb(current: Rung, floor: Option<Rung>): Rung {
    var next := if current == Confirmed then Ongoing else current;
    if floor.Some? && Rank(next) < Rank(floor.value) then floor.value else next
  }

  function WithClaims(a: AttackState, ips: set<Ip>): AttackState {
    a.(claimedIps := a.claimedIps + ips)
  }

  function Recorded(a: AttackState, check: Check, timestamp: Time, floor: Option<Rung>): AttackState {
    a.(status := Active(Climb(Effective(a), floor)), preDecay := None, count := a.count + 1,
       lastSeen := timestamp, checkCounts := a.checkCounts + multiset{check})
  }

  function DecayedState(a: AttackState): AttackState {
    match a.status
    case Active(r) => a.(status := Decayed, preDecay := Some(r))
    case Decayed => a
  }

  predicate Expired(a: AttackState, idleExpiry: Time, now: Time) {
    now - a.lastSeen > idleExpiry
  }

  class Attack {
    const key: Key
    const idleExpiry: Time
    const firstSeen: Time
    var claimedIps: set<Ip>
    var status: Status
    var preDecayStatus: Option<Rung>
    var count: nat
    var lastSeen: Time
    var checkCounts: multiset<Check>

    ghost function State(): AttackState
      reads this
    {
      AttackState(status, preDecayStatus, count, firstSeen, lastSeen, checkCounts, claimedIps)
    }

    ghost predicate Valid()
      reads this
    {
      Consistent(State())
    }

    ghost predicate Holds(k: Key, idle: Time, a: AttackState)
      reads this
    {
      key == k && idleExpiry == idle && State() == a && Valid()
    }

    constructor (key: Key, timestamp: Time, idleExpiry: Time)
      ensures Holds(key, idleExpiry, NewAttack(timestamp))
    {
      this.key, this.idleExpiry := key, idleExpiry;
      claimedIps := {};
      status, preDecayStatus := Active(Suspected), None;
      count := 0;
      firstSeen, lastSeen := timestamp, timestamp;
      checkCounts := multiset{};
    }

    method Record(check: Check, timestamp: Time, minStatus: Option<Rung>)
      requires Valid()
      modifies this
      ensures Valid() && State() == Recorded(old(State()), check, timestamp, minStatus)
    {
      count := count + 1;
      lastSeen := timestamp;
      checkCounts := checkCounts[check := checkCounts[check] + 1];
      assert checkCounts == old(checkCounts) + multiset{check};
      Escalate(minStatus);
    }

    /** A decayed attack is first restored to the rung it held before. */
    method Escalate(minStatus: Option<Rung>)
      requires status == Decayed <==> preDecayStatus.Some?
      modifies this`status, this`preDecayStatus
      ensures status == Active(Climb(Effective(old(State())), minStatus)) && preDecayStatus == None
    {
      var current := if status == Decayed then preDecayStatus.value else status.rung;
      if current == Confirmed {
        current := Ongoing;
      }
      if minStatus.Some? && Rank(current) < Rank(minStatus.value) {
        current := minStatus.value;
      }
      status := Active(current);
      preDecayStatus := None;
    }

    /** ArpSpoofAttack.record: also keep the address the attacker claimed. */
    method RecordClaim(check: Check, timestamp: Time, claimedIp: Option<Ip>, minStatus: Option<Rung>)
      requires Valid()
      modifies this
      ensures Valid()
      ensures State() == Recorded(WithClaims(old(State()), Claimed(claimedIp)), check, timestamp, minStatus)
    {
      if claimedIp.Some? {
        claimedIps := claimedIps + {claimedIp.value};
      }
      assert State() == WithClaims(old(State()), Claimed(claimedIp));
      Record(check, timestamp, minStatus);
    }

    method Decay()
      requires Valid()
      modifies this`status, this`preDecayStatus
      ensures Valid() && State() == DecayedState(old(State()))
    {
      if status != Decayed {
        preDecayStatus := Some(status.rung);
        status := Decayed;
      }
    }

    method IsExpired(now: Time) returns (expired: bool)
      ensures expired == Expired(State(), idleExpiry, now)
    {
      expired := now - lastSeen > idleExpiry;
    }
  }

  function Claimed(ip: Option<Ip>): set<Ip> {
    if ip.Some? then {ip.value} else {}
  }
}
