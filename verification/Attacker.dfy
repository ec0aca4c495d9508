/** attacker.py: one attacking host per (interface, MAC), made from a list of incidents. */
module Attackers {
  import opened Net
  import opened Attacks

  datatype Who = Who(iface: Iface, mac: Host)

  function WhoOf(a: Attack): Who {
    Who(a.key.iface, a.key.attacker)
  }

  /** The incident is this attacker's: same interface, and the MAC it names as attacker. */
  predicate By(a: Attack, w: Who) {
    a.key.iface == w.iface && a.key.attacker == w.mac
  }

  /** The attackers of a list, each where it first appears. */
  function Firsts(attacks: seq<Attack>): seq<Who> {
    if attacks == [] then []
    else
      var front, w := attacks[..|attacks| - 1], WhoOf(attacks[|attacks| - 1]);
      if w in Firsts(front) then Firsts(front) else Firsts(front) + [w]
  }

  /** The incidents of one attacker, in order. */
  function Of(attacks: seq<Attack>, w: Who): seq<Attack> {
    if attacks == [] then []
    else
      var front, a := attacks[..|attacks| - 1], attacks[|attacks| - 1];
      Of(front, w) + if WhoOf(a) == w then [a] else []
  }

  function Concatenated(attacks: seq<Attack>, whos: seq<Who>): seq<Attack> {
    if whos == [] then []
    else Concatenated(attacks, whos[..|whos| - 1]) + Of(attacks, whos[|whos| - 1])
  }

  ghost function ClaimedBy(attacks: seq<Attack>): set<Ip>
    reads attacks
  {
    set a, ip | a in attacks && ip in a.claimedIps :: ip
  }

  class Attacker {
    const who: Who
    var attacks: seq<Attack>

    constructor (who: Who)
      ensures this.who == who && attacks == []
    {
      this.who := who;
      attacks := [];
    }

    method Append(a: Attack)
      modifies this
      ensures attacks == old(attacks) + [a]
    {
      attacks := attacks + [a];
    }

    /** Every address this MAC has claimed across its attacks. */
    method ClaimedIps() returns (ips: set<Ip>)
      ensures ips == ClaimedBy(attacks)
    {
      ips := {};
      for i := 0 to |attacks|
        invariant ips == ClaimedBy(attacks[..i])
      {
        assert attacks[..i + 1] == attacks[..i] + [attacks[i]];
        ips := ips + attacks[i].claimedIps;
      }
      assert attacks[..|attacks|] == attacks;
    }
  }

  lemma Next(attacks: seq<Attack>, i: nat, w: Who)
    requires i < |attacks|
    ensures Of(attacks[..i + 1], w) == Of(attacks[..i], w) + if WhoOf(attacks[i]) == w then [attacks[i]] else []
    ensures
      var before, v := Firsts(attacks[..i]), WhoOf(attacks[i]);
      Firsts(attacks[..i + 1]) == if v in before then before else before + [v]
  {
    assert attacks[..i + 1][..i] == attacks[..i];
  }

  /** The dictionary of attackers after a list, with its keys in insertion order. */
  ghost predicate Grouped(attackers: map<Who, Attacker>, order: seq<Who>, attacks: seq<Attack>)
    reads attackers.Values
  {
    && order == Firsts(attacks)
    && (forall w :: w in attackers <==> w in order)
    && (forall w :: w in attackers ==> attackers[w].who == w && attackers[w].attacks == Of(attacks, w))
  }

  /** One Attacker per (interface, MAC), in order of first appearance, each holding its
      own incidents in the given order. */
  method Group(attacks: seq<Attack>) returns (r: seq<Attacker>)
    ensures |r| == |Firsts(attacks)| && fresh(r)
    ensures
      forall i :: 0 <= i < |r| ==>
        r[i].who == Firsts(attacks)[i] && r[i].attacks == Of(attacks, Firsts(attacks)[i])
    ensures forall i, j :: 0 <= i < j < |r| ==> r[i].who != r[j].who
    ensures forall i, a :: 0 <= i < |r| ==> (a in r[i].attacks <==> a in attacks && By(a, r[i].who))
    ensures forall a :: a in attacks ==> exists i :: 0 <= i < |r| && a in r[i].attacks
  {
    var attackers: map<Who, Attacker>, order: seq<Who> := map[], [];
    for i := 0 to |attacks|
      invariant forall v :: v in attackers ==> fresh(attackers[v])
      invariant Grouped(attackers, order, attacks[..i])
    {
      var w := WhoOf(attacks[i]);
      if w !in attackers {
        Unheard(attacks[..i], w);
        var attacker := new Attacker(w);
        attackers, order := attackers[w := attacker], order + [w];
      }
      attackers[w].Append(attacks[i]);
      forall v ensures Of(attacks[..i + 1], v) == Of(attacks[..i], v) + if w == v then [attacks[i]] else [] {
        Next(attacks, i, v);
      }
      Next(attacks, i, w);
    }
    assert attacks[..|attacks|] == attacks;
    r := seq(|order|, i requires 0 <= i < |order| => attackers[order[i]]);
    FirstsDistinct(attacks);
    GroupsPartition(attacks);
  }

  // What the grouping means.

  lemma {:induction false} Unheard(attacks: seq<Attack>, w: Who)
    requires w !in Firsts(attacks)
    ensures Of(attacks, w) == []
  {
    if attacks != [] {
      Unheard(attacks[..|attacks| - 1], w);
    }
  }

  /** The first place in the list that names the attacker, or its length. */
  function FirstPlace(attacks: seq<Attack>, w: Who): (n: nat)
    ensures n <= |attacks| && (n < |attacks| ==> By(attacks[n], w))
    ensures forall i :: 0 <= i < n ==> !By(attacks[i], w)
  {
    if attacks == [] || WhoOf(attacks[0]) == w then 0 else 1 + FirstPlace(attacks[1..], w)
  }

  lemma FirstPlaceIs(attacks: seq<Attack>, w: Who, n: nat)
    requires n < |attacks| && By(attacks[n], w) && forall i :: 0 <= i < n ==> !By(attacks[i], w)
    ensures FirstPlace(attacks, w) == n
  {
  }

  /** The attackers are distinct, are just those that occur, and stand in the order in
      which they first occur. */
  lemma {:induction false} FirstAppearance(attacks: seq<Attack>)
    ensures forall w :: w in Firsts(attacks) <==> FirstPlace(attacks, w) < |attacks|
    ensures
      forall i, j :: 0 <= i < j < |Firsts(attacks)| ==>
        FirstPlace(attacks, Firsts(attacks)[i]) < FirstPlace(attacks, Firsts(attacks)[j])
  {
    if attacks != [] {
      var n := |attacks| - 1;
      var front, w := attacks[..n], WhoOf(attacks[n]);
      FirstAppearance(front);
      forall v | v in Firsts(front) ensures FirstPlace(attacks, v) == FirstPlace(front, v) {
        FirstPlaceIs(attacks, v, FirstPlace(front, v));
      }
      if w !in Firsts(front) {
        FirstPlaceIs(attacks, w, n);
      }
    }
  }

  /** Each group is the list with everybody else's incidents left out: the places kept
      are increasing and are all the places of that attacker. */
  lemma {:induction false} GroupSelects(attacks: seq<Attack>, w: Who) returns (places: seq<nat>)
    ensures |Of(attacks, w)| == |places|
    ensures forall i :: 0 <= i < |places| ==> places[i] < |attacks| && Of(attacks, w)[i] == attacks[places[i]]
    ensures forall i, j :: 0 <= i < j < |places| ==> places[i] < places[j]
    ensures forall n: nat :: n in places <==> n < |attacks| && By(attacks[n], w)
  {
    places := [];
    if attacks != [] {
      var n := |attacks| - 1;
      places := GroupSelects(attacks[..n], w);
      if WhoOf(attacks[n]) == w {
        places := places + [n];
      }
    }
  }

  predicate Distinct(whos: seq<Who>) {
    forall i, j :: 0 <= i < j < |whos| ==> whos[i] != whos[j]
  }

  /** One more incident goes to one group, if its attacker is among them. */
  lemma {:induction false} ConcatenatedNext(attacks: seq<Attack>, a: Attack, whos: seq<Who>)
    requires Distinct(whos)
    ensures
      multiset(Concatenated(attacks + [a], whos)) ==
      multiset(Concatenated(attacks, whos)) + if WhoOf(a) in whos then multiset{a} else multiset{}
  {
    if whos != [] {
      var front, w := whos[..|whos| - 1], whos[|whos| - 1];
      ConcatenatedNext(attacks, a, front);
      assert (attacks + [a])[..|attacks|] == attacks;
      assert whos == front + [w];
    }
  }

  lemma {:induction false} FirstsDistinct(attacks: seq<Attack>)
    ensures Distinct(Firsts(attacks))
  {
    if attacks != [] {
      FirstsDistinct(attacks[..|attacks| - 1]);
    }
  }

  lemma {:induction false} NewGroup(attacks: seq<Attack>, a: Attack, whos: seq<Who>)
    requires Of(attacks, WhoOf(a)) == []
    ensures Concatenated(attacks + [a], whos + [WhoOf(a)]) == Concatenated(attacks + [a], whos) + [a]
  {
    assert (attacks + [a])[..|attacks|] == attacks;
    assert (whos + [WhoOf(a)])[..|whos|] == whos;
  }

  /** The groups laid end to end. */
  function LaidOut(attacks: seq<Attack>): seq<Attack> {
    Concatenated(attacks, Firsts(attacks))
  }

  lemma {:induction false} LaidOutNext(attacks: seq<Attack>, a: Attack)
    ensures multiset(LaidOut(attacks + [a])) == multiset(LaidOut(attacks)) + multiset{a}
  {
    var before := Firsts(attacks);
    assert (attacks + [a])[..|attacks|] == attacks;
    FirstsDistinct(attacks);
    ConcatenatedNext(attacks, a, before);
    if WhoOf(a) !in before {
      Unheard(attacks, WhoOf(a));
      NewGroup(attacks, a, before);
    }
  }

  /** Nothing is lost or doubled: the groups laid end to end are a permutation of the
      list. */
  lemma {:induction false} StablePartition(attacks: seq<Attack>)
    ensures multiset(LaidOut(attacks)) == multiset(attacks)
  {
    if attacks != [] {
      var front, a := attacks[..|attacks| - 1], attacks[|attacks| - 1];
      StablePartition(front);
      LaidOutNext(front, a);
      assert attacks == front + [a];
      assert multiset(LaidOut(attacks)) == multiset(LaidOut(front)) + multiset{a};
    }
  }

  lemma {:induction false} InGroup(attacks: seq<Attack>, a: Attack, w: Who)
    ensures a in Of(attacks, w) <==> a in attacks && By(a, w)
  {
    if attacks != [] {
      InGroup(attacks[..|attacks| - 1], a, w);
    }
  }

  lemma {:induction false} ListedFirst(attacks: seq<Attack>, a: Attack)
    requires a in attacks
    ensures WhoOf(a) in Firsts(attacks)
  {
    if a != attacks[|attacks| - 1] {
      ListedFirst(attacks[..|attacks| - 1], a);
    }
  }

  /** Every incident is in the group of its own attacker and in no other. */
  lemma {:induction false} GroupsPartition(attacks: seq<Attack>)
    ensures
      forall i, a :: 0 <= i < |Firsts(attacks)| ==>
        (a in Of(attacks, Firsts(attacks)[i]) <==> a in attacks && By(a, Firsts(attacks)[i]))
    ensures forall a :: a in attacks ==> exists i :: 0 <= i < |Firsts(attacks)| && a in Of(attacks, Firsts(attacks)[i])
  {
    var whos := Firsts(attacks);
    forall i, a | 0 <= i < |whos| ensures a in Of(attacks, whos[i]) <==> a in attacks && By(a, whos[i]) {
      InGroup(attacks, a, whos[i]);
    }
    forall a | a in attacks ensures exists i :: 0 <= i < |whos| && a in Of(attacks, whos[i]) {
      ListedFirst(attacks, a);
      var i :| 0 <= i < |whos| && whos[i] == WhoOf(a);
      InGroup(attacks, a, whos[i]);
    }
  }

  /** The addresses claimed by the attackers together are those claimed in the list. */
  lemma ClaimsPreserved(attacks: seq<Attack>, ip: Ip)
    ensures ip in ClaimedBy(attacks) <==> exists w :: w in Firsts(attacks) && ip in ClaimedBy(Of(attacks, w))
  {
    if ip in ClaimedBy(attacks) {
      var a :| a in attacks && ip in a.claimedIps;
      InGroup(attacks, a, WhoOf(a));
      ListedFirst(attacks, a);
    }
    if w :| w in Firsts(attacks) && ip in ClaimedBy(Of(attacks, w)) {
      var a :| a in Of(attacks, w) && ip in a.claimedIps;
      InGroup(attacks, a, w);
    }
  }
}
