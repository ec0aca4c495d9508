/** A scan whose replies are all genuine: what the SYN/reply matching leaves behind. */
module Exchange {
  import opened Net
  import opened PortScanAttacks
  import opened PortScanDetectors
  import opened PortScanTheory

  /** TCP sequence numbers wrap here (section 3.4 of RFC 9293); the program's
      expected acknowledgment, seq + 1, does not. */
  const SEQ_MOD: nat := 0x1_0000_0000

  predicate IsProbe(e: PacketEvent) {
    RoleOf(e) == Some(Probe)
  }

  predicate IsReply(e: PacketEvent) {
    RoleOf(e) == Some(Reply)
  }

  /** r is the reply TCP sends to the SYN p. */
  predicate Opens(p: PacketEvent, r: PacketEvent) {
    IsProbe(p) && Forward(p) == Reverse(r) && r.ackNo == (p.seqNo + 1) % SEQ_MOD
  }

  ghost predicate Opened(h: seq<PacketEvent>, j: int)
    requires 0 <= j < |h|
  {
    exists i :: 0 <= i < j && Opens(h[i], h[j])
  }

  /** Any interleaving of SYNs with pairwise distinct tuples and their replies, each
      after its SYN, each SYN answered at most once. */
  ghost predicate Genuine(h: seq<PacketEvent>) {
    && (forall i :: 0 <= i < |h| ==> RoleOf(h[i]).Some? && h[i].seqNo < SEQ_MOD)
    && (forall i, j :: 0 <= i < j < |h| && IsProbe(h[i]) && IsProbe(h[j]) ==> Forward(h[i]) != Forward(h[j]))
    && (forall i, j :: 0 <= i < j < |h| && IsReply(h[i]) && IsReply(h[j]) ==> Reverse(h[i]) != Reverse(h[j]))
    && (forall j :: 0 <= j < |h| && IsReply(h[j]) ==> Opened(h, j))
  }

  lemma GenuinePrefix(h: seq<PacketEvent>, n: nat)
    requires Genuine(h) && n <= |h|
    ensures Genuine(h[..n])
  {
    var p := h[..n];
    forall j | 0 <= j < n && IsReply(p[j]) ensures Opened(p, j) {
      assert Opened(h, j);
      var i :| 0 <= i < j && Opens(h[i], h[j]);
      assert Opens(p[i], p[j]);
    }
  }

  /** How many replies acknowledge a SYN numbered 2^32 - 1. */
  function Wrapped(h: seq<PacketEvent>): nat {
    if h == [] then 0
    else Wrapped(h[..|h| - 1]) + if IsReply(h[|h| - 1]) && h[|h| - 1].ackNo == 0 then 1 else 0
  }

  /** The i-th packet is the SYN of c, and no reply has answered it without wrapping. */
  ghost predicate Pending(h: seq<PacketEvent>, i: int, c: Conn) {
    && 0 <= i < |h| && IsProbe(h[i]) && Forward(h[i]) == c
    && forall j :: 0 <= j < |h| && IsReply(h[j]) && Reverse(h[j]) == c ==> h[j].ackNo == 0
  }

  ghost predicate SomePending(h: seq<PacketEvent>, c: Conn) {
    exists i :: Pending(h, i, c)
  }

  /** The open probes are exactly the pending SYNs, each with its number plus one. */
  ghost predicate OpenIs(h: seq<PacketEvent>, c: Conn) {
    && (c in Scan(h).open <==> SomePending(h, c))
    && (forall i :: Pending(h, i, c) ==> c in Scan(h).open && Scan(h).open[c] == h[i].seqNo + 1)
  }

  lemma SameProbe(h: seq<PacketEvent>, i: nat, j: nat)
    requires Genuine(h) && i < |h| && j < |h| && IsProbe(h[i]) && IsProbe(h[j]) && Forward(h[i]) == Forward(h[j])
    ensures i == j
  {
  }

  lemma PendingKept(front: seq<PacketEvent>, e: PacketEvent, c: Conn)
    requires (IsProbe(e) ==> Forward(e) != c) && (IsReply(e) ==> Reverse(e) != c)
    ensures forall i :: Pending(front + [e], i, c) <==> Pending(front, i, c)
    ensures SomePending(front + [e], c) <==> SomePending(front, c)
  {
    var h := front + [e];
    forall i ensures Pending(h, i, c) <==> Pending(front, i, c) {
      assert forall j :: 0 <= j < |front| ==> h[j] == front[j];
    }
  }

  lemma ProbeOpens(front: seq<PacketEvent>, e: PacketEvent)
    requires Genuine(front + [e]) && IsProbe(e)
    ensures !SomePending(front, Forward(e)) && OpenIs(front + [e], Forward(e))
  {
    var h, c, n := front + [e], Forward(e), |front|;
    assert h[..n] == front && h[n] == e;
    forall j | 0 <= j < |h| && IsReply(h[j]) ensures Reverse(h[j]) != c {
      assert Opened(h, j);
      var i :| 0 <= i < j && Opens(h[i], h[j]);
    }
    assert Pending(h, n, c);
    forall i | Pending(h, i, c) ensures i == n {
      SameProbe(h, i, n);
    }
    forall i ensures !Pending(front, i, c) {
      assert 0 <= i < n ==> front[i] == h[i];
    }
  }

  /** A genuine reply finds its SYN pending. */
  lemma ReplyFinds(front: seq<PacketEvent>, e: PacketEvent) returns (i: nat)
    requires Genuine(front + [e]) && IsReply(e)
    ensures i < |front| && Opens(front[i], e) && Pending(front, i, Reverse(e)) && front[i].seqNo < SEQ_MOD
  {
    var h, n := front + [e], |front|;
    assert h[n] == e && Opened(h, n);
    i :| 0 <= i < n && Opens(h[i], h[n]);
    assert front[i] == h[i];
    forall j | 0 <= j < n && IsReply(front[j]) ensures Reverse(front[j]) != Reverse(e) {
      assert h[j] == front[j];
    }
  }

  /** A reply below the wrap closes its SYN. */
  lemma ReplyMatches(front: seq<PacketEvent>, e: PacketEvent, i: nat)
    requires IsReply(e) && OpenIs(front, Reverse(e)) && Pending(front, i, Reverse(e))
    requires e.ackNo == front[i].seqNo + 1
    ensures Answers(Scan(front), e) && OpenIs(front + [e], Reverse(e))
  {
    var h, c := front + [e], Reverse(e);
    assert h[..|front|] == front && h[|front|] == e;
    assert c !in Scan(h).open;
    forall x ensures !Pending(h, x, c) {
    }
  }

  /** The reply to a SYN numbered 2^32 - 1 matches nothing and leaves it open. */
  lemma ReplyWraps(front: seq<PacketEvent>, e: PacketEvent, i: nat)
    requires IsReply(e) && OpenIs(front, Reverse(e)) && Pending(front, i, Reverse(e))
    requires e.ackNo == 0
    ensures !Answers(Scan(front), e) && OpenIs(front + [e], Reverse(e))
  {
    var h, c, n := front + [e], Reverse(e), |front|;
    assert h[..n] == front && h[n] == e;
    assert Scan(h).open == Scan(front).open;
    assert forall j :: 0 <= j < n ==> h[j] == front[j];
    assert Pending(h, i, c);
    forall x | Pending(h, x, c) ensures Pending(front, x, c) {
      assert x != n;
    }
  }

  lemma ReplyCloses(front: seq<PacketEvent>, e: PacketEvent)
    requires Genuine(front + [e]) && IsReply(e) && OpenIs(front, Reverse(e))
    ensures OpenIs(front + [e], Reverse(e))
    ensures Answers(Scan(front), e) <==> e.ackNo != 0
  {
    var i := ReplyFinds(front, e);
    if front[i].seqNo + 1 < SEQ_MOD {
      assert e.ackNo == front[i].seqNo + 1;
      ReplyMatches(front, e, i);
    } else {
      assert e.ackNo == 0;
      ReplyWraps(front, e, i);
    }
  }

  lemma {:induction false} OtherTuple(front: seq<PacketEvent>, e: PacketEvent, c: Conn)
    requires OpenIs(front, c) && (IsProbe(e) ==> Forward(e) != c) && (IsReply(e) ==> Reverse(e) != c)
    ensures OpenIs(front + [e], c)
  {
    PendingKept(front, e, c);
    var d, u := Scan(front).open, Scan(front + [e]).open;
    assert (front + [e])[..|front|] == front && (c in u <==> c in d) && (c in u ==> u[c] == d[c]);
    forall i | Pending(front + [e], i, c) ensures c in u && u[c] == (front + [e])[i].seqNo + 1 {
      assert Pending(front, i, c);
    }
  }

  lemma {:induction false} OpenNext(front: seq<PacketEvent>, e: PacketEvent, c: Conn)
    requires Genuine(front + [e]) && OpenIs(front, c)
    ensures OpenIs(front + [e], c)
  {
    if IsProbe(e) && Forward(e) == c {
      ProbeOpens(front, e);
    } else if IsReply(e) && Reverse(e) == c {
      ReplyCloses(front, e);
    } else {
      OtherTuple(front, e, c);
    }
  }

  lemma {:induction false} OpenProbes(h: seq<PacketEvent>, c: Conn)
    requires Genuine(h)
    ensures OpenIs(h, c)
  {
    if h == [] {
      assert forall i :: !Pending(h, i, c);
    } else {
      GenuinePrefix(h, |h| - 1);
      OpenProbes(h[..|h| - 1], c);
      assert h == h[..|h| - 1] + [h[|h| - 1]];
      OpenNext(h[..|h| - 1], h[|h| - 1], c);
    }
  }

  lemma {:induction false} UnmatchedNext(front: seq<PacketEvent>, e: PacketEvent)
    requires Genuine(front + [e]) && Genuine(front) && RoleOf(e).Some?
    ensures IsReply(e) ==> (Answers(Scan(front), e) <==> e.ackNo != 0)
    ensures IsProbe(e) ==> Forward(e) !in Scan(front).open
  {
    if IsProbe(e) {
      OpenProbes(front, Forward(e));
      ProbeOpens(front, e);
    } else {
      OpenProbes(front, Reverse(e));
      ReplyCloses(front, e);
    }
  }

  lemma {:induction false} UnmatchedStep(front: seq<PacketEvent>, e: PacketEvent)
    requires Genuine(front + [e]) && Genuine(front) && RoleOf(e).Some?
    requires Scan(front).unmatched == Wrapped(front) && Overwrites(front) == 0
    ensures Scan(front + [e]).unmatched == Wrapped(front + [e]) && Overwrites(front + [e]) == 0
  {
    assert (front + [e])[..|front|] == front;
    UnmatchedNext(front, e);
  }

  /** Genuine replies go unmatched exactly when they answer a SYN numbered 2^32 - 1,
      and no SYN ever overwrites an open probe. */
  lemma {:induction false} UnmatchedIsWrapped(h: seq<PacketEvent>)
    requires Genuine(h)
    ensures Scan(h).unmatched == Wrapped(h) && Overwrites(h) == 0
  {
    if h != [] {
      var front, e := h[..|h| - 1], h[|h| - 1];
      assert h == front + [e] && RoleOf(h[|h| - 1]).Some?;
      GenuinePrefix(h, |h| - 1);
      UnmatchedIsWrapped(front);
      UnmatchedStep(front, e);
    }
  }

  /** Answered probes leave no residue, at every moment of every genuine exchange:
      the open probes number the SYNs not yet answered plus those whose answer
      wrapped, and nothing else is ever counted as unmatched. */
  lemma NoResidue(h: seq<PacketEvent>, n: nat)
    requires Genuine(h) && n <= |h|
    ensures
      var d := Scan(h[..n]);
      && d.unmatched == Wrapped(h[..n])
      && |d.open| == d.probes - d.replies + Wrapped(h[..n])
      && (d.unmatched == 0 <==> forall j :: 0 <= j < n && IsReply(h[j]) ==> h[j].ackNo != 0)
  {
    GenuinePrefix(h, n);
    UnmatchedIsWrapped(h[..n]);
    ProbesBalance(h[..n]);
    WrappedWhere(h[..n]);
    assert forall j :: 0 <= j < n ==> h[..n][j] == h[j];
  }

  lemma {:induction false} WrappedWhere(h: seq<PacketEvent>)
    ensures Wrapped(h) == 0 <==> forall j :: 0 <= j < |h| && IsReply(h[j]) ==> h[j].ackNo != 0
  {
    if h != [] {
      var front := h[..|h| - 1];
      WrappedWhere(front);
      assert forall j :: 0 <= j < |front| ==> front[j] == h[j];
    }
  }

  lemma AckedZero(h: seq<PacketEvent>, r: nat)
    requires Genuine(h) && r < |h| && IsReply(h[r]) && h[r].ackNo == 0
    ensures exists i :: 0 <= i < |h| && IsProbe(h[i]) && h[i].seqNo == SEQ_MOD - 1
  {
    assert Opened(h, r);
    var i :| 0 <= i < r && Opens(h[i], h[r]);
    assert h[i].seqNo == SEQ_MOD - 1;
  }

  lemma ClosedUnwrapped(h: seq<PacketEvent>, j: nat)
    requires Genuine(h) && j < |h| && IsProbe(h[j]) && Forward(h[j]) !in Scan(h).open
    ensures h[j].seqNo != SEQ_MOD - 1
  {
    OpenProbes(h, Forward(h[j]));
    assert !Pending(h, j, Forward(h[j]));
    var r :| 0 <= r < |h| && IsReply(h[r]) && Reverse(h[r]) == Forward(h[j]) && h[r].ackNo != 0;
    assert Opened(h, r);
    var i :| 0 <= i < r && Opens(h[i], h[r]);
    SameProbe(h, i, j);
  }

  /** Once every SYN is answered, nothing stays open, if and only if no SYN was
      numbered 2^32 - 1. */
  lemma AllAnswered(h: seq<PacketEvent>)
    requires Genuine(h) && Scan(h).probes == Scan(h).replies
    ensures Scan(h).open == map[] <==> forall j :: 0 <= j < |h| && IsProbe(h[j]) ==> h[j].seqNo != SEQ_MOD - 1
  {
    NoResidue(h, |h|);
    assert h[..|h|] == h;
    if Scan(h).open == map[] {
      forall j | 0 <= j < |h| && IsProbe(h[j]) ensures h[j].seqNo != SEQ_MOD - 1 {
        ClosedUnwrapped(h, j);
      }
    } else {
      WrappedWhere(h);
      var r :| 0 <= r < |h| && IsReply(h[r]) && h[r].ackNo == 0;
      AckedZero(h, r);
    }
  }

  /** The parser's port rule: the probed port, on a SYN and on its reply alike. */
  predicate Parsed(e: PacketEvent) {
    e.port == Some(if IsReply(e) then e.srcPort else e.dstPort)
  }

  ghost predicate SynTo(h: seq<PacketEvent>, p: nat) {
    exists i :: 0 <= i < |h| && IsProbe(h[i]) && h[i].dstPort == p
  }

  lemma {:induction false} SynToNext(front: seq<PacketEvent>, e: PacketEvent, p: nat)
    ensures SynTo(front + [e], p) <==> (SynTo(front, p) || (IsProbe(e) && e.dstPort == p))
  {
    var h := front + [e];
    assert h[|front|] == e;
    if i :| 0 <= i < |h| && IsProbe(h[i]) && h[i].dstPort == p {
      assert i < |front| ==> front[i] == h[i];
    }
    if i :| 0 <= i < |front| && IsProbe(front[i]) && front[i].dstPort == p {
      assert h[i] == front[i];
    }
  }

  /** A genuine reply adds no port. */
  lemma {:induction false} ReplyPort(front: seq<PacketEvent>, e: PacketEvent)
    requires Genuine(front + [e]) && IsReply(e)
    ensures SynTo(front, e.srcPort)
  {
    var i := ReplyFinds(front, e);
    assert front[i].dstPort == e.srcPort;
  }

  lemma {:induction false} PortsNext(front: seq<PacketEvent>, e: PacketEvent, p: nat)
    requires RoleOf(e).Some? && Parsed(e)
    ensures p in Scan(front + [e]).ports <==> (p in Scan(front).ports || p == if IsReply(e) then e.srcPort else e.dstPort)
  {
    ScanStep(front, e);
  }

  lemma {:induction false} ProbedNext(front: seq<PacketEvent>, e: PacketEvent, p: nat)
    requires Genuine(front + [e]) && RoleOf(e).Some? && Parsed(e)
    requires p in Scan(front).ports <==> SynTo(front, p)
    ensures p in Scan(front + [e]).ports <==> SynTo(front + [e], p)
  {
    SynToNext(front, e, p);
    PortsNext(front, e, p);
    if IsReply(e) {
      ReplyPort(front, e);
    }
  }

  /** The touched ports of a genuine exchange are the ports its SYNs were sent to. */
  lemma {:induction false} PortsProbed(h: seq<PacketEvent>, p: nat)
    requires Genuine(h) && forall e :: e in h ==> Parsed(e)
    ensures p in Scan(h).ports <==> SynTo(h, p)
  {
    if h != [] {
      var front, e := h[..|h| - 1], h[|h| - 1];
      GenuinePrefix(h, |h| - 1);
      assert e in h && RoleOf(h[|h| - 1]).Some? && forall x :: x in front ==> x in h;
      PortsProbed(front, p);
      assert h == front + [e];
      ProbedNext(front, e, p);
    }
  }

  // Any trace at all.

  /** The i-th packet is the latest SYN of c, and no reply since has acknowledged it. */
  predicate Unanswered(h: seq<PacketEvent>, i: int, c: Conn) {
    && 0 <= i < |h| && IsProbe(h[i]) && Forward(h[i]) == c
    && forall j :: i < j < |h| ==> !Settles(h[j], c, h[i].seqNo + 1)
  }

  /** A new SYN of c, or a reply on c that carries the acknowledgment awaited. */
  predicate Settles(e: PacketEvent, c: Conn, ack: nat) {
    (IsProbe(e) && Forward(e) == c) || (IsReply(e) && Reverse(e) == c && e.ackNo == ack)
  }

  ghost predicate Awaits(h: seq<PacketEvent>, c: Conn) {
    && (c in Scan(h).open <==> exists i :: Unanswered(h, i, c))
    && (forall i :: Unanswered(h, i, c) ==> c in Scan(h).open && Scan(h).open[c] == h[i].seqNo + 1)
  }

  lemma {:induction false} UnansweredNext(front: seq<PacketEvent>, e: PacketEvent, i: int, c: Conn)
    ensures
      Unanswered(front + [e], i, c) <==>
      if i == |front| then IsProbe(e) && Forward(e) == c
      else Unanswered(front, i, c) && !Settles(e, c, front[i].seqNo + 1)
  {
    var h := front + [e];
    assert h[|front|] == e && forall j :: 0 <= j < |front| ==> h[j] == front[j];
  }

  /** What one packet does to the open probe of c. */
  lemma {:induction false} OpenAt(d: ScanData, e: PacketEvent, c: Conn)
    ensures
      var u := Seen(d, e).open;
      if IsProbe(e) && Forward(e) == c then c in u && u[c] == e.seqNo + 1
      else
        && (c in u <==> c in d.open && !Settles(e, c, d.open[c]))
        && (c in u ==> u[c] == d.open[c])
  {
  }

  lemma {:induction false} AwaitsNext(front: seq<PacketEvent>, e: PacketEvent, c: Conn)
    requires Awaits(front, c)
    ensures Awaits(front + [e], c)
  {
    var h := front + [e];
    ScanStep(front, e);
    OpenAt(Scan(front), e, c);
    forall i ensures
      Unanswered(h, i, c) <==>
      if i == |front| then IsProbe(e) && Forward(e) == c
      else Unanswered(front, i, c) && !Settles(e, c, front[i].seqNo + 1)
    {
      UnansweredNext(front, e, i, c);
    }
    if IsProbe(e) && Forward(e) == c {
      assert Unanswered(h, |front|, c);
    } else if i :| Unanswered(front, i, c) {
      assert Unanswered(h, i, c) <==> c in Scan(h).open;
    }
  }

  /** What the matching means for every trace, genuine or not: a connection has an open
      probe if and only if its latest SYN has not been acknowledged since, and then the
      acknowledgment awaited is that SYN's number plus one. */
  lemma {:induction false} OpenAnywhere(h: seq<PacketEvent>, c: Conn)
    ensures Awaits(h, c)
  {
    if h == [] {
      assert forall i :: !Unanswered(h, i, c);
    } else {
      OpenAnywhere(h[..|h| - 1], c);
      AwaitsNext(h[..|h| - 1], h[|h| - 1], c);
      assert h == h[..|h| - 1] + [h[|h| - 1]];
    }
  }

  // Genuine exchanges of many hosts at once.

  /** r goes back the way p came. */
  predicate Homeward(p: PacketEvent, r: PacketEvent) {
    r.iface == p.iface && r.srcMac == p.dstMac && r.dstMac == p.srcMac
  }

  ghost predicate Answered(es: seq<PacketEvent>, r: PacketEvent) {
    exists p :: p in es && Opens(p, r) && Homeward(p, r)
  }

  /** Two packets of one kind, of one incident and with one tuple. */
  predicate Repeats(p: PacketEvent, r: PacketEvent) {
    && RoleOf(p).Some? && RoleOf(p) == RoleOf(r) && KeyOf(p, RoleOf(p).value) == KeyOf(r, RoleOf(r).value)
    && if IsProbe(p) then Forward(p) == Forward(r) else Reverse(p) == Reverse(r)
  }

  /** Any traffic of any hosts in which no SYN and no reply repeats a tuple of its two
      hosts, and every reply follows the SYN it answers and goes back to its sender. */
  ghost predicate Honest(es: seq<PacketEvent>) {
    es == [] ||
    var front, e := es[..|es| - 1], es[|es| - 1];
    && Honest(front)
    && (RoleOf(e).Some? ==> e.seqNo < SEQ_MOD)
    && (forall p :: p in front ==> !Repeats(p, e))
    && (IsReply(e) ==> Answered(front, e))
  }

  lemma {:induction false} PacketsKept(es: seq<PacketEvent>, k: Key, e: PacketEvent)
    ensures e in PacketsOf(es, k) <==> e in es && Concerns(e, k)
  {
    if es != [] {
      PacketsKept(es[..|es| - 1], k, e);
    }
  }

  lemma {:induction false} OpenedNext(h: seq<PacketEvent>, e: PacketEvent, j: nat)
    requires Genuine(h) && j <= |h| && IsReply((h + [e])[j])
    requires IsReply(e) ==> exists p :: p in h && Opens(p, e)
    ensures Opened(h + [e], j)
  {
    var u := h + [e];
    if j < |h| {
      assert u[j] == h[j] && Opened(h, j);
      var i :| 0 <= i < j && Opens(h[i], h[j]);
      assert Opens(u[i], u[j]);
    } else {
      var p :| p in h && Opens(p, e);
      var i :| 0 <= i < |h| && h[i] == p;
      assert Opens(u[i], u[j]);
    }
  }

  lemma {:induction false} GenuineNext(h: seq<PacketEvent>, e: PacketEvent)
    requires Genuine(h) && RoleOf(e).Some? && e.seqNo < SEQ_MOD
    requires forall i :: 0 <= i < |h| && IsProbe(h[i]) && IsProbe(e) ==> Forward(h[i]) != Forward(e)
    requires forall i :: 0 <= i < |h| && IsReply(h[i]) && IsReply(e) ==> Reverse(h[i]) != Reverse(e)
    requires IsReply(e) ==> exists p :: p in h && Opens(p, e)
    ensures Genuine(h + [e])
  {
    var u := h + [e];
    assert u[|h|] == e && forall i :: 0 <= i < |h| ==> u[i] == h[i];
    forall j | 0 <= j < |u| && IsReply(u[j]) ensures Opened(u, j) {
      OpenedNext(h, e, j);
    }
  }

  lemma {:induction false} StillGenuine(front: seq<PacketEvent>, e: PacketEvent, k: Key)
    requires Genuine(PacketsOf(front, k)) && Concerns(e, k) && e.seqNo < SEQ_MOD
    requires (forall p :: p in front ==> !Repeats(p, e)) && (IsReply(e) ==> Answered(front, e))
    ensures Genuine(PacketsOf(front, k) + [e])
  {
    var h := PacketsOf(front, k);
    forall i | 0 <= i < |h| ensures Concerns(h[i], k) && !Repeats(h[i], e) {
      PacketsKept(front, k, h[i]);
    }
    if IsReply(e) {
      var p :| p in front && Opens(p, e) && Homeward(p, e);
      PacketsKept(front, k, p);
    }
    GenuineNext(h, e);
  }

  /** Each incident's share of honest traffic is a genuine exchange. */
  lemma {:induction false} ShareIsGenuine(es: seq<PacketEvent>, k: Key)
    requires Honest(es)
    ensures Genuine(PacketsOf(es, k))
  {
    if es != [] {
      var front, e := es[..|es| - 1], es[|es| - 1];
      ShareIsGenuine(front, k);
      if Concerns(e, k) {
        StillGenuine(front, e, k);
      } else {
        assert PacketsOf(es, k) == PacketsOf(front, k);
      }
    }
  }

  lemma {:induction false} FirstProbeCounts(h: seq<PacketEvent>)
    requires h != [] && IsProbe(h[0])
    ensures Scan(h).probes >= 1
  {
    if |h| > 1 {
      FirstProbeCounts(h[..|h| - 1]);
    }
  }

  lemma {:induction false} GenuineStartsWithSyn(h: seq<PacketEvent>)
    requires Genuine(h) && h != []
    ensures IsProbe(h[0])
  {
    assert RoleOf(h[0]).Some? && (IsReply(h[0]) ==> Opened(h, 0));
  }

  /** Honest traffic through the detector, whoever else sends what: an incident exists if
      and only if its attacker sent its victim a SYN, and unless acknowledgments wrap its
      replies all match and its open probes are its SYNs not yet answered. */
  lemma {:induction false} HonestRun(cfg: PortConfig, es: seq<PacketEvent>, k: Key)
    requires cfg.portAlertThreshold >= 1 && Honest(es)
    ensures k in Run(cfg, es).table.incidents <==> exists p :: p in es && IsProbe(p) && Concerns(p, k)
    ensures k in Run(cfg, es).scans <==> k in Run(cfg, es).table.incidents
    ensures k in Run(cfg, es).scans ==>
      var d, h := Run(cfg, es).scans[k], PacketsOf(es, k);
      && d.probes >= 1 && d.unmatched == Wrapped(h)
      && |d.open| == d.probes - d.replies + Wrapped(h)
  {
    var h := PacketsOf(es, k);
    PortDemultiplexed(cfg, es, k);
    ShareIsGenuine(es, k);
    if h != [] {
      GenuineStartsWithSyn(h);
      FirstProbeCounts(h);
      PacketsKept(es, k, h[0]);
      NoResidue(h, |h|);
      assert h[..|h|] == h;
    }
    forall p | p in es && IsProbe(p) && Concerns(p, k) ensures h != [] {
      PacketsKept(es, k, p);
    }
  }

  // A SYN numbered 2^32 - 1 and its reply.

  const LAST_SYN: PacketEvent := SynOn(80).(seqNo := SEQ_MOD - 1)
  const ITS_RST: PacketEvent := RstOn(80).(ackNo := 0)

  lemma WrapIsGenuine()
    ensures Genuine([LAST_SYN, ITS_RST]) && IsProbe(LAST_SYN) && IsReply(ITS_RST)
  {
    var h := [LAST_SYN, ITS_RST];
    assert Opens(h[0], h[1]);
    assert Opened(h, 1);
  }

  lemma {:induction false} WrapCounts()
    ensures Wrapped([LAST_SYN, ITS_RST]) == 1
  {
    var h := [LAST_SYN, ITS_RST];
    assert h[..1] == [LAST_SYN] && Wrapped([LAST_SYN]) == 0;
    WrapIsGenuine();
  }

  lemma {:induction false} OneOfEach()
    ensures Scan([LAST_SYN, ITS_RST]).probes == 1 && Scan([LAST_SYN, ITS_RST]).replies == 1
  {
    var h := [LAST_SYN, ITS_RST];
    WrapIsGenuine();
    assert h == [] + [LAST_SYN] + [ITS_RST];
    ScanStep([], LAST_SYN);
    ScanStep([] + [LAST_SYN], ITS_RST);
  }

  /** The law that genuine replies always match is false of the program: this SYN and
      its reply leave an unmatched reply and an open probe. */
  lemma {:induction false} WrapBreaksMatching()
    ensures
      var h := [LAST_SYN, ITS_RST];
      Genuine(h) && Scan(h).unmatched == 1 && |Scan(h).open| == 1
  {
    var h := [LAST_SYN, ITS_RST];
    WrapIsGenuine();
    WrapCounts();
    NoResidue(h, 2);
    assert h[..2] == h && forall e :: e in h ==> RoleOf(e).Some?;
    OneOfEach();
  }
}
