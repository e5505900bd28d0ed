/** Liveness: from every state that a run reaches with both sides safely short of the 15 s
    timer, a continuation without further SDUs empties both links and delivers everything
    queued.  The sides take turns: each packet acknowledges all that its sender has heard,
    which reopens the receiver's window and makes the receiver owe an acknowledgement. */
module BtpDrain {
  import opened Wire
  import opened BtpEngine
  import opened BtpSequence
  import opened BtpPacket
  import opened BtpNetwork
  import opened BtpTheorems
  import opened BtpTimers

  // ---- Continuations ----

  /** What the two clocks show. */
  datatype Clocks = Clocks(central: nat, peripheral: nat)
  {
    function Of(side: bool): (t: nat)
    {
      if side then central else peripheral
    }

    function Set(side: bool, t: nat): (c: Clocks)
    {
      if side then this.(central := t) else this.(peripheral := t)
    }
  }

  /** The clock at the last event of the run, on both sides. */
  function ClocksAfter(run: seq<Occurrence>, from: Clocks): (c: Clocks)
  {
    Clocks(Clock(run, true, from.central), Clock(run, false, from.peripheral))
  }

  predicate ClocksRunForward(run: seq<Occurrence>, from: Clocks)
  {
    ClockRunsForward(run, true, from.central) && ClockRunsForward(run, false, from.peripheral)
  }

  /** Events without a new SDU, at times from `from` to `to`. */
  predicate Continues(more: seq<Occurrence>, from: Clocks, to: Clocks)
  {
    && (forall i :: 0 <= i < |more| ==> !more[i].event.Queue?)
    && ClocksRunForward(more, from) && ClocksAfter(more, from) == to
  }

  lemma RunOneMore(n: Net, x: seq<Occurrence>, before: seq<Occurrence>, o: Occurrence, y: seq<Occurrence>)
    requires n.a.session.Valid() && n.b.session.Valid() && Run(n, x + before) == Run(Run(n, x), before)
    requires y == before + [o]
    ensures Run(n, x + y) == Run(Run(n, x), y)
  {
    RunLast(n, x + before, o);
    RunLast(Run(n, x), before, o);
    Associate(x, before, [o]);
  }

  lemma RunNothing(n: Net, x: seq<Occurrence>, y: seq<Occurrence>)
    requires n.a.session.Valid() && n.b.session.Valid() && y == []
    ensures Run(n, x + y) == Run(Run(n, x), y)
  {
    assert x + y == x;
  }

  lemma SplitLast(y: seq<Occurrence>) returns (before: seq<Occurrence>, last: Occurrence)
    requires y != []
    ensures y == before + [last] && |before| < |y|
  {
    before, last := y[..|y| - 1], y[|y| - 1];
  }

  lemma {:induction false} RunAppend(n: Net, x: seq<Occurrence>, y: seq<Occurrence>)
    requires n.a.session.Valid() && n.b.session.Valid()
    ensures Run(n, x + y) == Run(Run(n, x), y)
    decreases |y|
  {
    if y == [] {
      RunNothing(n, x, y);
    } else {
      var before, last := SplitLast(y);
      RunAppend(n, x, before);
      RunOneMore(n, x, before, last, y);
    }
  }

  lemma {:induction false} ClockAppend(x: seq<Occurrence>, y: seq<Occurrence>, side: bool, start: nat)
    ensures Clock(x + y, side, start) == Clock(y, side, Clock(x, side, start))
  {
    if y == [] {
      assert x + y == x;
    } else {
      ClockAppend(x, y[..|y| - 1], side, start);
      assert (x + y)[..|x + y| - 1] == x + y[..|y| - 1];
    }
  }

  lemma ForwardAppend(x: seq<Occurrence>, y: seq<Occurrence>, side: bool, start: nat)
    requires ClockRunsForward(x, side, start) && ClockRunsForward(y, side, Clock(x, side, start))
    ensures ClockRunsForward(x + y, side, start)
  {
    forall j | 0 <= j < |x + y| && (x + y)[j].central == side
      ensures Clock((x + y)[..j], side, start) <= (x + y)[j].now
    {
      if j < |x| {
        assert (x + y)[..j] == x[..j];
      } else {
        assert (x + y)[..j] == x + y[..j - |x|];
        ClockAppend(x, y[..j - |x|], side, start);
        assert y[j - |x|].central == side;
      }
    }
  }

  lemma ForwardsAppend(x: seq<Occurrence>, y: seq<Occurrence>, from: Clocks)
    requires ClocksRunForward(x, from) && ClocksRunForward(y, ClocksAfter(x, from))
    ensures ClocksRunForward(x + y, from) && ClocksAfter(x + y, from) == ClocksAfter(y, ClocksAfter(x, from))
  {
    ForwardAppend(x, y, true, from.central);
    ForwardAppend(x, y, false, from.peripheral);
    ClockAppend(x, y, true, from.central);
    ClockAppend(x, y, false, from.peripheral);
  }

  lemma ContinuesAppend(x: seq<Occurrence>, y: seq<Occurrence>, from: Clocks, mid: Clocks, to: Clocks)
    requires Continues(x, from, mid) && Continues(y, mid, to)
    ensures Continues(x + y, from, to)
  {
    ForwardsAppend(x, y, from);
  }

  lemma OneContinues(o: Occurrence, from: Clocks)
    requires !o.event.Queue? && from.Of(o.central) <= o.now
    ensures Continues([o], from, from.Set(o.central, o.now))
  {
    assert [o][..0] == [];
    assert forall side, start :: Clock([o], side, start) == if o.central == side then o.now else start;
  }

  // ---- Seen from one side ----

  /** The network with the given side as `a`. */
  function From(n: Net, side: bool): (m: Net)
  {
    if side then n else Swap(n)
  }

  lemma StepFrom(n: Net, o: Occurrence)
    requires n.a.session.Valid() && n.b.session.Valid()
    ensures From(Step(n, o), o.central) == Act(From(n, o.central), o.event, o.now)
    ensures From(n, !o.central) == Swap(From(n, o.central))
  {
  }

  lemma InvFrom(n: Net, side: bool)
    ensures Inv(From(n, side)) <==> Inv(n)
  {
    assert Swap(Swap(n)) == n;
  }

  /** What a side still has to send. */
  function Remaining(a: Side): (r: nat)
    requires a.session.Valid()
  {
    if a.session.txPending.None? then 0 else 1 + |a.session.txPending.value| - a.session.txSent
  }

  // ---- Receiving ----

  /** The acknowledgement that is owed is due within 2.5 s of `now`. */
  predicate DueSoon(s: Session, now: nat)
  {
    s.ackDueAt.Some? ==> s.ackDueAt.value <= now + ACK_SEND_TIMEOUT
  }

  lemma NumberedIsDueSoon(s: Session, flags: byte, tail: bytes, num: byte, now: nat)
    requires DueSoon(s, now)
    ensures DueSoon(TakeNumbered(s, flags, tail, num, now).0, now)
  {
  }

  lemma SequencedIsDueSoon(s: Session, flags: byte, rest: bytes, now: nat)
    requires DueSoon(s, now)
    ensures DueSoon(ReceiveSequenced(s, flags, rest, now).0, now)
  {
    if rest != [] && rest[0] == s.rxNextSeq {
      NumberedIsDueSoon(s.(rxNextSeq := NextSeq(s.rxNextSeq)), flags, rest[1..], rest[0], now);
    }
  }

  lemma IndicationIsDueSoon(s: Session, raw: bytes, now: nat)
    requires DueSoon(s, now)
    ensures DueSoon(OnIndication(s, raw, now).0, now)
  {
    var packet := raw[..Min(|raw|, s.segmentSize)];
    if packet != [] && HasFlag(packet[0], FLAG_ACK) {
      if |packet| >= 2 && ReceiveAck(s, packet[1]).Ok? {
        SequencedIsDueSoon(ReceiveAck(s, packet[1]).value, packet[0], packet[2..], now);
      }
    } else if packet != [] {
      SequencedIsDueSoon(s, packet[0], packet[1..], now);
    }
  }

  lemma ActIsDueSoon(n: Net, e: Event, now: nat)
    requires n.a.session.Valid() && DueSoon(n.a.session, now)
    ensures DueSoon(Act(n, e, now).a.session, now)
  {
    match e
    case Receive =>
      if n.ba != [] {
        IndicationIsDueSoon(n.a.session, n.ba[0], now);
      }
    case _ =>
  }

  /** The SDU being sent is left alone, and no 15 s timer is started. */
  predicate Calm(s: Session, s': Session)
  {
    && s'.txPending == s.txPending && s'.txSent == s.txSent
    && (s'.expectingAck ==> s.expectingAck && s'.txUnackedSince == s.txUnackedSince)
  }

  /** What receiving leaves alone. */
  predicate Undisturbed(s: Session, s': Session)
  {
    Calm(s, s') && s'.gattInFlight == s.gattInFlight
  }

  lemma AckIsUndisturbing(s: Session, ack: Option<byte>)
    requires Acknowledged(s, ack).Ok?
    ensures Undisturbed(s, Acknowledged(s, ack).value)
  {
  }

  lemma TakingInIsUndisturbing(s: Session, s': Session, num: byte)
    requires TookIn(s, s', num)
    ensures Undisturbed(s, s')
  {
  }

  lemma ReceivedIsUndisturbing(a: Side, b: Side, a': Side)
    requires Shapes(a, b) && ReceivedOneMore(a, b, a')
    ensures Undisturbed(a.session, a'.session)
  {
    var p := b.sent[a.rcvd];
    AckIsUndisturbing(a.session, p.ack);
    TakingInIsUndisturbing(Acknowledged(a.session, p.ack).value, a'.session, p.num);
  }

  /** `m'` is `m` after `a` has received one packet. */
  predicate TookHead(m: Net, m': Net)
  {
    && m.ba != [] && m'.b == m.b && m'.ab == m.ab && m'.ba == m.ba[1..]
    && m'.a.rcvd == m.a.rcvd + 1 && m'.a.heard == m.a.heard && m'.a.queued == m.a.queued
    && Undisturbed(m.a.session, m'.a.session)
  }

  lemma HeadIsUndisturbing(m: Net, now: nat)
    requires Shapes(m.a, m.b) && Counters(m.a, m.b) && Windows(m.a, m.b)
    requires Link(m.b, m.a, m.ba) && Stream(m.b, m.a) && m.ba != []
    ensures Undisturbed(m.a.session, ReceiveStep(m, now).a.session)
  {
    HeadIsAccepted(m, now);
    ReceivedIsUndisturbing(m.a, m.b, ReceiveStep(m, now).a);
  }

  lemma ReceiveShape(m: Net, now: nat)
    requires m.ba != []
    ensures var m' := ReceiveStep(m, now);
            && m'.b == m.b && m'.ab == m.ab && m'.ba == m.ba[1..]
            && m'.a.rcvd == m.a.rcvd + 1 && m'.a.heard == m.a.heard && m'.a.queued == m.a.queued
  {
  }

  lemma ReceiveTakesHead(m: Net, now: nat)
    requires Inv(m) && m.ba != []
    ensures TookHead(m, ReceiveStep(m, now))
  {
    InvParts(m);
    HeadIsUndisturbing(m, now);
    ReceiveShape(m, now);
  }

  // ---- Sending ----

  /** `m'` is `m` after one packet has left `a`. */
  predicate SentPacket(m: Net, m': Net)
  {
    && m'.b == m.b && m'.ba == m.ba && |m'.ab| == |m.ab| + 1
    && m'.a.heard == m.a.heard + [m.a.rcvd] && m'.a.rcvd == m.a.rcvd && m'.a.queued == m.a.queued
    && m'.a.session.Valid()
  }

  lemma WriteSends(m: Net, now: nat)
    requires m.a.session.Valid() && MayWrite(m.a.session)
    ensures SentPacket(m, WriteStep(m, now)) && Remaining(WriteStep(m, now).a) < Remaining(m.a)
  {
  }

  /** The side may send now: a fragment, or else a due acknowledgement. */
  predicate Ready(s: Session, now: nat)
  {
    && CanAcknowledge(s) && !s.gattInFlight
    && (s.txPending.None? ==> s.ackDueAt.value <= now)
    && (s.txPending.None? && AckDeadline(s).Some? ==> now < AckDeadline(s).value)
  }

  lemma TimeoutSends(m: Net, now: nat)
    requires m.a.session.Valid() && Ready(m.a.session, now) && m.a.session.txPending.None?
    ensures SentPacket(m, TimeoutStep(m, now)) && Remaining(TimeoutStep(m, now).a) == 0
  {
  }

  function Sending(s: Session): (e: Event)
  {
    if s.txPending.Some? then Write else Timeout
  }

  lemma SendsOne(m: Net, now: nat)
    requires m.a.session.Valid() && Ready(m.a.session, now)
    ensures var m' := Act(m, Sending(m.a.session), now);
            SentPacket(m, m') && Remaining(m'.a) <= Remaining(m.a)
            && (m.a.session.txPending.Some? ==> Remaining(m'.a) < Remaining(m.a))
  {
    if m.a.session.txPending.Some? {
      WriteSends(m, now);
    } else {
      TimeoutSends(m, now);
    }
  }

  // ---- Taking turns ----

  /** Nothing is in flight, both write slots are free, and `a` owes an acknowledgement that
      its window lets it send. */
  predicate Turn(m: Net)
  {
    && Inv(m) && m.ab == [] && m.ba == []
    && !m.a.session.gattInFlight && !m.b.session.gattInFlight && CanAcknowledge(m.a.session)
  }

  /** Having received a packet that acknowledges everything, `a` waits for nothing, has its
      whole window, and owes an acknowledgement. */
  lemma HeardAll(m: Net)
    requires Inv(m) && m.ab == [] && m.ba == [] && |m.b.heard| > 0
    requires m.b.heard[|m.b.heard| - 1] == |m.a.heard|
    requires Cumulative(m.a.heard, |m.a.heard|) < m.a.rcvd
    ensures !m.a.session.expectingAck && CanAcknowledge(m.a.session)
  {
    InvParts(m);
  }

  function AfterSend(m: Net, now: nat): (r: Net)
    requires m.a.session.Valid() && m.b.session.Valid()
    ensures r.a.session.Valid() && r.b.session.Valid()
  {
    Act(Act(m, Sending(m.a.session), now), Complete, now)
  }

  /** The three steps of a turn, seen from the peer when they are done. */
  function AfterTurn(m: Net, now: nat, peerNow: nat): (r: Net)
    requires m.a.session.Valid() && m.b.session.Valid()
  {
    ReceiveStep(Swap(AfterSend(m, now)), peerNow)
  }

  lemma SendKeepsInvariant(m: Net, now: nat)
    requires Inv(m)
    ensures Inv(AfterSend(m, now)) && Inv(Swap(AfterSend(m, now)))
  {
    ActKeepsInv(m, Sending(m.a.session), now);
    ActKeepsInv(Act(m, Sending(m.a.session), now), Complete, now);
    assert Swap(Swap(AfterSend(m, now))) == AfterSend(m, now);
  }

  lemma CompleteFrees(m: Net, now: nat)
    requires m.a.session.Valid()
    ensures var m' := Act(m, Complete, now);
            && m'.b == m.b && m'.ab == m.ab && m'.ba == m.ba && !m'.a.session.gattInFlight
            && m'.a.heard == m.a.heard && m'.a.rcvd == m.a.rcvd && m'.a.queued == m.a.queued
            && Remaining(m'.a) == Remaining(m.a)
  {
  }

  lemma AfterSendHolds(m: Net, now: nat)
    requires m.a.session.Valid() && m.b.session.Valid() && Ready(m.a.session, now)
    ensures var r := AfterSend(m, now);
            && SentPacket(m, r) && !r.a.session.gattInFlight && Remaining(r.a) <= Remaining(m.a)
            && (m.a.session.txPending.Some? ==> Remaining(r.a) < Remaining(m.a))
  {
    SendsOne(m, now);
    CompleteFrees(Act(m, Sending(m.a.session), now), now);
  }

  /** A turn passes to the peer, which then waits for nothing. */
  predicate TurnPassed(m: Net, r: Net)
    requires m.a.session.Valid() && m.b.session.Valid() && r.a.session.Valid() && r.b.session.Valid()
  {
    && Turn(r) && !r.a.session.expectingAck
    && r.a.queued == m.b.queued && r.b.queued == m.a.queued
    && Remaining(r.a) == Remaining(m.b) && Remaining(r.b) <= Remaining(m.a)
    && (m.a.session.txPending.Some? ==> Remaining(r.b) < Remaining(m.a))
  }

  lemma QuietCounts(m: Net)
    requires Inv(m) && m.ab == [] && m.ba == []
    ensures m.a.rcvd == |m.b.heard| && m.b.rcvd == |m.a.heard|
    ensures Cumulative(m.b.heard, |m.b.heard|) <= m.b.rcvd
  {
    InvParts(m);
  }

  /** One packet sent into an empty link and received. */
  predicate Passed(m: Net, s: Net, r: Net)
    requires m.a.session.Valid() && s.a.session.Valid()
  {
    && m.ab == [] && m.ba == [] && !m.b.session.gattInFlight
    && SentPacket(m, s) && !s.a.session.gattInFlight && Remaining(s.a) <= Remaining(m.a)
    && (m.a.session.txPending.Some? ==> Remaining(s.a) < Remaining(m.a))
    && TookHead(Swap(s), r)
  }

  lemma PassedMovesCounts(m: Net, s: Net, r: Net)
    requires m.a.session.Valid() && s.a.session.Valid() && Passed(m, s, r)
    requires m.a.rcvd == |m.b.heard| && Cumulative(m.b.heard, |m.b.heard|) <= m.b.rcvd
    ensures r.ab == [] && r.ba == [] && !r.a.session.gattInFlight && !r.b.session.gattInFlight
    ensures |r.b.heard| > 0 && r.b.heard[|r.b.heard| - 1] == |r.a.heard|
    ensures Cumulative(r.a.heard, |r.a.heard|) < r.a.rcvd
  {
  }

  lemma PassedPassesTurn(m: Net, s: Net, r: Net)
    requires m.a.session.Valid() && m.b.session.Valid() && s.a.session.Valid() && Passed(m, s, r)
    requires m.a.rcvd == |m.b.heard| && Cumulative(m.b.heard, |m.b.heard|) <= m.b.rcvd
    requires Inv(r) && r.a.session.Valid() && r.b.session.Valid()
    ensures TurnPassed(m, r)
  {
    PassedMovesCounts(m, s, r);
    HeardAll(r);
  }

  lemma ReceivesPassTurn(m: Net, s: Net, r: Net)
    requires Inv(m) && m.ab == [] && m.ba == [] && m.a.session.Valid() && m.b.session.Valid()
    requires s.a.session.Valid() && Passed(m, s, r)
    requires Inv(r) && r.a.session.Valid() && r.b.session.Valid()
    ensures TurnPassed(m, r)
  {
    QuietCounts(m);
    PassedPassesTurn(m, s, r);
  }

  lemma ValidOfInv(m: Net)
    requires Inv(m)
    ensures m.a.session.Valid() && m.b.session.Valid()
  {
  }

  lemma TurnPassesVia(m: Net, s: Net, peerNow: nat)
    requires Turn(m) && m.a.session.Valid() && m.b.session.Valid()
    requires Inv(Swap(s)) && SentPacket(m, s) && !s.a.session.gattInFlight && Remaining(s.a) <= Remaining(m.a)
    requires m.a.session.txPending.Some? ==> Remaining(s.a) < Remaining(m.a)
    ensures var r := ReceiveStep(Swap(s), peerNow);
            r.a.session.Valid() && r.b.session.Valid() && TurnPassed(m, r)
  {
    ReceiveTakesHead(Swap(s), peerNow);
    ReceiveKeepsInv(Swap(s), peerNow);
    ValidOfInv(ReceiveStep(Swap(s), peerNow));
    ReceivesPassTurn(m, s, ReceiveStep(Swap(s), peerNow));
  }

  lemma TurnPasses(m: Net, now: nat, peerNow: nat)
    requires Turn(m) && m.a.session.Valid() && m.b.session.Valid() && Ready(m.a.session, now)
    ensures var r := AfterTurn(m, now, peerNow);
            r.a.session.Valid() && r.b.session.Valid() && TurnPassed(m, r)
  {
    AfterSendHolds(m, now);
    SendKeepsInvariant(m, now);
    TurnPassesVia(m, AfterSend(m, now), peerNow);
  }

  // ---- Draining ----

  /** The three events of a turn. */
  function TurnEvents(side: bool, s: Session, now: nat, peerNow: nat): (more: seq<Occurrence>)
  {
    [Occurrence(side, now, Sending(s))] + [Occurrence(side, now, Complete)] + [Occurrence(!side, peerNow, Receive)]
  }

  lemma RunThree(n: Net, x: Occurrence, y: Occurrence, z: Occurrence)
    requires n.a.session.Valid() && n.b.session.Valid()
    ensures Run(n, [x] + [y] + [z]) == Step(Step(Step(n, x), y), z)
  {
    RunOne(n, x);
    RunLast(n, [x], y);
    RunLast(n, [x] + [y], z);
  }

  lemma TwoFrom(n: Net, x: Occurrence, y: Occurrence)
    requires n.a.session.Valid() && n.b.session.Valid() && x.central == y.central
    ensures From(Step(Step(n, x), y), !y.central)
         == Swap(Act(Act(From(n, x.central), x.event, x.now), y.event, y.now))
  {
    StepFrom(n, x);
    StepFrom(Step(n, x), y);
    assert From(Step(Step(n, x), y), !y.central) == Swap(From(Step(Step(n, x), y), y.central));
  }

  lemma ReceivesFrom(n: Net, z: Occurrence)
    requires n.a.session.Valid() && n.b.session.Valid() && z.event == Receive
    ensures From(Step(n, z), z.central) == ReceiveStep(From(n, z.central), z.now)
  {
    StepFrom(n, z);
  }

  lemma RunTurn(n: Net, side: bool, now: nat, peerNow: nat)
    requires n.a.session.Valid() && n.b.session.Valid()
    ensures var m := From(n, side);
            From(Run(n, TurnEvents(side, m.a.session, now, peerNow)), !side) == AfterTurn(m, now, peerNow)
  {
    var m := From(n, side);
    var x, y, z := Occurrence(side, now, Sending(m.a.session)), Occurrence(side, now, Complete), Occurrence(!side, peerNow, Receive);
    RunThree(n, x, y, z);
    TwoFrom(n, x, y);
    ReceivesFrom(Step(Step(n, x), y), z);
  }

  lemma TurnContinues(side: bool, s: Session, now: nat, from: Clocks)
    requires from.Of(side) <= now
    ensures Continues(TurnEvents(side, s, now, from.Of(!side)), from, from.Set(side, now))
  {
    var x, y, z := Occurrence(side, now, Sending(s)), Occurrence(side, now, Complete), Occurrence(!side, from.Of(!side), Receive);
    var to := from.Set(side, now);
    OneContinues(x, from);
    OneContinues(y, to);
    OneContinues(z, to);
    ContinuesAppend([x], [y], from, to, to);
    ContinuesAppend([x] + [y], [z], from, to, to);
  }

  function Max(a: nat, b: nat): (r: nat)
  {
    if a < b then b else a
  }

  /** When the side whose turn it is sends: at once a fragment, an acknowledgement when due. */
  function SendAt(s: Session, now: nat): (t: nat)
    ensures now <= t
  {
    if s.txPending.Some? || s.ackDueAt.None? then now else Max(now, s.ackDueAt.value)
  }

  /** The side whose turn it is does not die before it sends. */
  predicate Alive(s: Session, now: nat)
  {
    AckDeadline(s).Some? ==> SendAt(s, now) < AckDeadline(s).value
  }

  /** Nothing in flight, nothing being sent, and the same SDUs queued as in `n`. */
  predicate Drained(n: Net, r: Net)
  {
    && r.ab == [] && r.ba == [] && r.a.session.txPending.None? && r.b.session.txPending.None?
    && r.a.queued == n.a.queued && r.b.queued == n.b.queued
  }

  /** One turn as a continuation, and where it leaves the network. */
  lemma TakeTurn(n: Net, side: bool, from: Clocks) returns (turn: seq<Occurrence>, mid: Clocks)
    requires n.a.session.Valid() && n.b.session.Valid()
    requires Turn(From(n, side)) && Alive(From(n, side).a.session, from.Of(side))
    ensures Continues(turn, from, mid) && TurnPassed(From(n, side), From(Run(n, turn), !side))
  {
    var m := From(n, side);
    var now := SendAt(m.a.session, from.Of(side));
    turn, mid := TurnEvents(side, m.a.session, now, from.Of(!side)), from.Set(side, now);
    TurnPasses(m, now, from.Of(!side));
    RunTurn(n, side, now, from.Of(!side));
    TurnContinues(side, m.a.session, now, from);
  }

  lemma {:induction false} Drain(n: Net, side: bool, from: Clocks) returns (more: seq<Occurrence>, to: Clocks)
    requires n.a.session.Valid() && n.b.session.Valid()
    requires Turn(From(n, side)) && Alive(From(n, side).a.session, from.Of(side))
    ensures Continues(more, from, to) && Drained(n, Run(n, more))
    decreases Remaining(n.a) + Remaining(n.b), From(n, side).a.session.txPending.None?
  {
    var m := From(n, side);
    if m.a.session.txPending.None? && m.b.session.txPending.None? {
      more, to := [], from;
    } else {
      var turn, mid := TakeTurn(n, side, from);
      var rest;
      rest, to := Drain(Run(n, turn), !side, mid);
      more := turn + rest;
      RunAppend(n, turn, rest);
      ContinuesAppend(turn, rest, from, mid, to);
    }
  }

  // ---- Reaching a first turn ----

  /** Receiving and completing only. */
  predicate Settles(n: Net, r: Net)
  {
    && r.a.queued == n.a.queued && r.b.queued == n.b.queued
    && Calm(n.a.session, r.a.session) && Calm(n.b.session, r.b.session)
  }

  predicate BothDueSoon(n: Net, c: Clocks)
  {
    DueSoon(n.a.session, c.central) && DueSoon(n.b.session, c.peripheral)
  }

  lemma ReceiveOneInv(n: Net, side: bool, now: nat)
    requires Inv(n) && n.a.session.Valid() && n.b.session.Valid()
    ensures Inv(Step(n, Occurrence(side, now, Receive)))
  {
    InvFrom(n, side);
    ReceivesFrom(n, Occurrence(side, now, Receive));
    ReceiveKeepsInv(From(n, side), now);
    InvFrom(Step(n, Occurrence(side, now, Receive)), side);
  }

  lemma TookHeadSettles(n: Net, r: Net, side: bool, c: Clocks)
    requires TookHead(From(n, side), From(r, side)) && BothDueSoon(n, c)
    requires DueSoon(From(r, side).a.session, c.Of(side))
    ensures Settles(n, r) && BothDueSoon(r, c) && |r.ab| + |r.ba| == |n.ab| + |n.ba| - 1
  {
  }

  lemma HeadIsDueSoon(m: Net, now: nat)
    requires m.ba != [] && DueSoon(m.a.session, now)
    ensures DueSoon(ReceiveStep(m, now).a.session, now)
  {
    IndicationIsDueSoon(m.a.session, m.ba[0], now);
  }

  lemma HeadIsTaken(n: Net, side: bool, now: nat)
    requires Inv(n) && n.a.session.Valid() && n.b.session.Valid() && From(n, side).ba != []
    ensures TookHead(From(n, side), ReceiveStep(From(n, side), now))
  {
    InvFrom(n, side);
    ReceiveTakesHead(From(n, side), now);
  }

  lemma ReceiveOne(n: Net, side: bool, c: Clocks)
    requires Inv(n) && n.a.session.Valid() && n.b.session.Valid() && BothDueSoon(n, c) && From(n, side).ba != []
    ensures var r := Step(n, Occurrence(side, c.Of(side), Receive));
            Settles(n, r) && BothDueSoon(r, c) && |r.ab| + |r.ba| == |n.ab| + |n.ba| - 1
  {
    HeadIsTaken(n, side, c.Of(side));
    HeadIsDueSoon(From(n, side), c.Of(side));
    ReceivesFrom(n, Occurrence(side, c.Of(side), Receive));
    TookHeadSettles(n, Step(n, Occurrence(side, c.Of(side), Receive)), side, c);
  }

  lemma SettlesTogether(n: Net, k: Net, r: Net)
    requires Settles(n, k) && Settles(k, r)
    ensures Settles(n, r)
  {
  }

  lemma RunFirst(n: Net, o: Occurrence, rest: seq<Occurrence>, c: Clocks)
    requires n.a.session.Valid() && n.b.session.Valid()
    requires !o.event.Queue? && o.now == c.Of(o.central) && Continues(rest, c, c)
    ensures Run(n, [o] + rest) == Run(Step(n, o), rest) && Continues([o] + rest, c, c)
  {
    RunOne(n, o);
    RunAppend(n, [o], rest);
    OneContinues(o, c);
    ContinuesAppend([o], rest, c, c, c);
  }

  /** The side that has something to receive. */
  lemma SomeoneReceives(n: Net, c: Clocks) returns (o: Occurrence)
    requires Inv(n) && n.a.session.Valid() && n.b.session.Valid() && BothDueSoon(n, c)
    requires n.ab != [] || n.ba != []
    ensures !o.event.Queue? && o.now == c.Of(o.central) && Inv(Step(n, o))
    ensures var r := Step(n, o);
            Settles(n, r) && BothDueSoon(r, c) && |r.ab| + |r.ba| == |n.ab| + |n.ba| - 1
  {
    var side := n.ba != [];
    o := Occurrence(side, c.Of(side), Receive);
    ReceiveOne(n, side, c);
    ReceiveOneInv(n, side, c.Of(side));
  }

  lemma {:induction false} ReceiveAll(n: Net, c: Clocks) returns (more: seq<Occurrence>)
    requires Inv(n) && n.a.session.Valid() && n.b.session.Valid() && BothDueSoon(n, c)
    ensures Continues(more, c, c)
    ensures var r := Run(n, more); r.ab == [] && r.ba == [] && Settles(n, r) && BothDueSoon(r, c)
    decreases |n.ab| + |n.ba|
  {
    if n.ab == [] && n.ba == [] {
      more := [];
    } else {
      var o := SomeoneReceives(n, c);
      var rest := ReceiveAll(Step(n, o), c);
      more := [o] + rest;
      RunFirst(n, o, rest, c);
      SettlesTogether(n, Step(n, o), Run(n, more));
    }
  }

  lemma FreeOne(n: Net, side: bool, c: Clocks)
    requires n.a.session.Valid() && n.b.session.Valid() && BothDueSoon(n, c)
    ensures var r := Step(n, Occurrence(side, c.Of(side), Complete));
            && Settles(n, r) && BothDueSoon(r, c) && r.ab == n.ab && r.ba == n.ba
            && !SessionOf(r, side).gattInFlight && SessionOf(r, !side) == SessionOf(n, !side)
  {
  }

  lemma FreeBoth(n: Net, c: Clocks) returns (more: seq<Occurrence>)
    requires n.a.session.Valid() && n.b.session.Valid() && BothDueSoon(n, c)
    ensures Continues(more, c, c)
    ensures var r := Run(n, more);
            && r.ab == n.ab && r.ba == n.ba && Settles(n, r) && BothDueSoon(r, c)
            && !r.a.session.gattInFlight && !r.b.session.gattInFlight
  {
    var x, y := Occurrence(true, c.central, Complete), Occurrence(false, c.peripheral, Complete);
    more := [x] + [y];
    FreeOne(n, true, c);
    FreeOne(Step(n, x), false, c);
    RunOne(n, x);
    RunLast(n, [x], y);
    SettlesTogether(n, Step(n, x), Run(n, more));
    OneContinues(x, c);
    OneContinues(y, c);
    ContinuesAppend([x], [y], c, c, c);
  }

  /** A continuation that empties both links and frees both slots. */
  lemma Settle(n: Net, c: Clocks) returns (more: seq<Occurrence>)
    requires Inv(n) && n.a.session.Valid() && n.b.session.Valid() && BothDueSoon(n, c)
    ensures Continues(more, c, c)
    ensures var r := Run(n, more);
            && r.ab == [] && r.ba == [] && Settles(n, r) && BothDueSoon(r, c)
            && !r.a.session.gattInFlight && !r.b.session.gattInFlight
  {
    var x := ReceiveAll(n, c);
    var y := FreeBoth(Run(n, x), c);
    more := x + y;
    RunAppend(n, x, y);
    SettlesTogether(n, Run(n, x), Run(n, more));
    ContinuesAppend(x, y, c, c, c);
  }

  // ---- The theorem ----

  lemma StepIsDueSoon(n: Net, o: Occurrence, side: bool, before: nat)
    requires n.a.session.Valid() && n.b.session.Valid() && DueSoon(SessionOf(n, side), before)
    requires o.central == side ==> before <= o.now
    ensures DueSoon(SessionOf(Step(n, o), side), if o.central == side then o.now else before)
  {
    if o.central == side {
      ActIsDueSoon(From(n, side), o.event, o.now);
      StepFrom(n, o);
    }
  }

  /** An owed acknowledgement is always due within 2.5 s. */
  lemma {:induction false} RunIsDueSoon(n: Net, run: seq<Occurrence>, side: bool, start: nat)
    requires n.a.session.Valid() && n.b.session.Valid() && DueSoon(SessionOf(n, side), start)
    requires ClockRunsForward(run, side, start)
    ensures DueSoon(SessionOf(Run(n, run), side), Clock(run, side, start))
  {
    if run != [] {
      var before, last := run[..|run| - 1], run[|run| - 1];
      forall j | 0 <= j < |before| && before[j].central == side
        ensures Clock(before[..j], side, start) <= before[j].now
      {
        assert before[..j] == run[..j] && before[j] == run[j];
      }
      RunIsDueSoon(n, before, side, start);
      StepIsDueSoon(Run(n, before), last, side, Clock(before, side, start));
    }
  }

  /** Enough time is left on the 15 s timer for an acknowledgement to become due. */
  predicate Comfortable(s: Session, now: nat)
  {
    AckDeadline(s).Some? ==> now + ACK_SEND_TIMEOUT < AckDeadline(s).value
  }

  lemma ComfortableIsAlive(s: Session, s': Session, now: nat)
    requires Comfortable(s, now) && Calm(s, s') && DueSoon(s', now)
    ensures Alive(s', now)
  {
  }

  lemma ReasonableAppend(run: seq<Occurrence>, more: seq<Occurrence>)
    requires Reasonable(run) && forall i :: 0 <= i < |more| ==> !more[i].event.Queue?
    ensures Reasonable(run + more)
  {
  }

  /** Whatever happened, if both sides have more than 2.5 s left on the 15 s timer, the
      session can be continued, without further SDUs, until both links are empty, nothing is
      being sent, and both sides have handed over exactly what the other had queued. */
  lemma CanDrain(segmentSize: nat, window: byte, start: Clocks, run: seq<Occurrence>) returns (more: seq<Occurrence>)
    requires segmentSize <= 65535 && Reasonable(run) && ClocksRunForward(run, start)
    requires var n := Reached(segmentSize, window, start.central, start.peripheral, run);
             && Comfortable(n.a.session, Clock(run, true, start.central))
             && Comfortable(n.b.session, Clock(run, false, start.peripheral))
    ensures forall i :: 0 <= i < |more| ==> !more[i].event.Queue?
    ensures ClocksRunForward(run + more, start)
    ensures var n := Reached(segmentSize, window, start.central, start.peripheral, run);
            var r := Reached(segmentSize, window, start.central, start.peripheral, run + more);
            && Drained(n, r) && r.b.delivered == n.a.queued && r.a.delivered == n.b.queued
  {
    var s := Start(segmentSize, window, start.central, start.peripheral);
    var n, c := Run(s, run), ClocksAfter(run, start);
    ReachedInv(segmentSize, window, start.central, start.peripheral, run);
    RunIsDueSoon(s, run, true, start.central);
    RunIsDueSoon(s, run, false, start.peripheral);
    var x := Settle(n, c);
    RunAppend(s, run, x);
    ReasonableAppend(run, x);
    QuietRunCanAcknowledge(segmentSize, window, start.central, start.peripheral, run + x);
    var n1 := Run(n, x);
    ReachedInv(segmentSize, window, start.central, start.peripheral, run + x);
    var side := CanAcknowledge(n1.a.session);
    InvFrom(n1, side);
    ComfortableIsAlive(n.a.session, n1.a.session, c.central);
    ComfortableIsAlive(n.b.session, n1.b.session, c.peripheral);
    var y, to := Drain(n1, side, c);
    more := x + y;
    ContinuesAppend(x, y, c, c, to);
    RunAppend(n, x, y);
    RunAppend(s, run, more);
    ForwardsAppend(run, more, start);
    ReasonableAppend(run, more);
    QuietLinkHasDeliveredAll(segmentSize, window, start.central, start.peripheral, run + more);
  }
}
