/** What every history of one incident obeys, whatever detector drives it. */
module Lifecycle {
  import opened Net
  import opened Attacks

  /** One thing that can happen to an incident: record() or decay(). */
  datatype Beat = Rec(check: Check, time: Time, floor: Option<Rung>) | Idle

  function Beaten(a: AttackState, b: Beat): AttackState {
    match b
    case Rec(check, time, floor) => Recorded(a, check, time, floor)
    case Idle => DecayedState(a)
  }

  function Live(a: AttackState, bs: seq<Beat>): AttackState {
    if bs == [] then a else Beaten(Live(a, bs[..|bs| - 1]), bs[|bs| - 1])
  }

  function OnlyRecords(bs: seq<Beat>): seq<Beat> {
    if bs == [] then []
    else OnlyRecords(bs[..|bs| - 1]) + if bs[|bs| - 1].Rec? then [bs[|bs| - 1]] else []
  }

  /** Decays leave no trace: taking them all out of a history changes nothing but
      whether the incident is shown as decayed. */
  lemma {:induction false} DecayErasure(a: AttackState, bs: seq<Beat>)
    ensures Undecayed(Live(a, bs)) == Undecayed(Live(a, OnlyRecords(bs)))
  {
    if bs != [] {
      var front, b := bs[..|bs| - 1], bs[|bs| - 1];
      DecayErasure(a, front);
      if b.Rec? {
        assert (OnlyRecords(front) + [b])[..|OnlyRecords(front)|] == OnlyRecords(front);
      } else {
        assert OnlyRecords(bs) == OnlyRecords(front);
      }
    }
  }

  /** The effective rung never falls. */
  lemma {:induction false} RungNeverFalls(a: AttackState, bs: seq<Beat>, m: nat)
    requires m <= |bs|
    ensures Rank(Effective(Live(a, bs[..m]))) <= Rank(Effective(Live(a, bs)))
    decreases |bs|
  {
    if m == |bs| {
      assert bs[..m] == bs;
    } else {
      var front := bs[..|bs| - 1];
      assert front[..m] == bs[..m];
      RungNeverFalls(a, front, m);
    }
  }

  /** Along every history the remembered rung is set exactly while the incident is
      decayed, and the tallies per check add up to the count. */
  lemma {:induction false} HistoryConsistent(a: AttackState, bs: seq<Beat>)
    requires Consistent(a)
    ensures Consistent(Live(a, bs))
  {
    if bs != [] {
      HistoryConsistent(a, bs[..|bs| - 1]);
    }
  }

  // The ladder under floors of "confirmed" or none.

  /** The rung after a run of records with these floors. */
  function Climbed(floors: seq<Option<Rung>>): Rung {
    if floors == [] then Suspected else Climb(Climbed(floors[..|floors| - 1]), floors[|floors| - 1])
  }

  /** The position of the first record with a floor, or the length if there is none. */
  function FirstFloored(floors: seq<Option<Rung>>): (f: nat)
    ensures f <= |floors| && (f < |floors| ==> floors[f].Some?)
    ensures forall i :: 0 <= i < f ==> floors[i].None?
  {
    if floors == [] then 0
    else
      var f := FirstFloored(floors[..|floors| - 1]);
      if f < |floors| - 1 || floors[|floors| - 1].Some? then f else |floors|
  }

  /** Suspected before, confirmed at, ongoing after the e-th record. */
  function RungAt(count: int, e: int): Rung {
    if count < e then Suspected else if count == e then Confirmed else Ongoing
  }

  /** When floors never exceed "confirmed", the rung depends only on where the first
      floored record stands among all of them. */
  lemma {:induction false} LadderLaw(floors: seq<Option<Rung>>)
    requires forall f :: f in floors ==> f.None? || f.value == Confirmed
    ensures Climbed(floors) == RungAt(|floors|, FirstFloored(floors) + 1)
  {
    if floors != [] {
      var front, last := floors[..|floors| - 1], floors[|floors| - 1];
      forall f | f in front ensures f in floors {}
      assert last in floors;
      LadderLaw(front);
    }
  }

  function Floors(bs: seq<Beat>): seq<Option<Rung>> {
    if bs == [] then []
    else Floors(bs[..|bs| - 1]) + if bs[|bs| - 1].Rec? then [bs[|bs| - 1].floor] else []
  }

  /** The effective rung of a fresh incident is its records' floors played in order;
      with LadderLaw, the index of the first floored record decides it. */
  lemma {:induction false} EffectiveIsClimbed(t: Time, bs: seq<Beat>)
    ensures Effective(Live(NewAttack(t), bs)) == Climbed(Floors(bs))
    ensures Live(NewAttack(t), bs).count == |Floors(bs)|
  {
    if bs != [] {
      var front, b := bs[..|bs| - 1], bs[|bs| - 1];
      EffectiveIsClimbed(t, front);
      if b.Rec? {
        assert (Floors(front) + [b.floor])[..|Floors(front)|] == Floors(front);
      } else {
        assert Floors(bs) == Floors(front);
      }
    }
  }
}
