/** Deadlines: the time to wait for is the least at which the timers do anything, the local
    window counts the packets that have not been answered, and an acknowledgement is due at
    once when that window is nearly used up. */
module BtpDeadlines {
  import opened Wire
  import opened BtpEngine
  import opened BtpSequence
  import opened BtpPacket
  import opened BtpNetwork
  import opened BtpTheorems
  import opened BtpTimers
  import opened BtpReception

  // ---- Waiting ----

  /** Serving the timers at `t` sends something or ends the session. */
  predicate Acts(s: Session, t: nat)
  {
    HandleTimeout(s, t) != (s, Ok(None))
  }

  /** The session with the window and the slot open. */
  function Unblocked(s: Session): (u: Session)
  {
    s.(gattInFlight := false, remoteWindow := 1)
  }

  /** `PollTimeout` is the least time at which the timers act, unless flow control holds an
      acknowledgement back; then they act only to end the session. */
  lemma PollIsLeast(s: Session, t: nat)
    requires s.Valid()
    ensures Acts(Unblocked(s), t) <==> PollTimeout(s).Some? && PollTimeout(s).value <= t
    ensures !s.gattInFlight && s.remoteWindow > 0 ==>
              (Acts(s, t) <==> PollTimeout(s).Some? && PollTimeout(s).value <= t)
    ensures (s.gattInFlight || s.remoteWindow == 0) ==>
              (Acts(s, t) <==> s.expectingAck && s.txUnackedSince.value + 15000 <= t)
  {
  }

  /** A new Central has the acknowledgement of packet 0 to send within 2.5 s, a new Peripheral
      waits 15 s for it. */
  lemma FirstDeadlines(segmentSize: nat, window: byte, now: nat)
    requires segmentSize <= 65535
    ensures PollTimeout(New(Central, segmentSize, window, now)) == Some(now + 2500)
    ensures New(Central, segmentSize, window, now).unackedRx == Some(0)
    ensures PollTimeout(New(Peripheral, segmentSize, window, now)) == Some(now + 15000)
  {
  }

  /** One SDU at a time, of at most 65535 bytes; a refusal changes nothing. */
  lemma QueueIff(s: Session, sdu: bytes)
    ensures var r := QueueMessage(s, sdu);
            && (r == Err(MessageInFlight) <==> s.txPending.Some?)
            && (r == Err(ReassemblyOverflow) <==> s.txPending.None? && |sdu| > 65535)
            && (r == Ok(s.(txPending := Some(sdu), txSent := 0)) <==> s.txPending.None? && |sdu| <= 65535)
  {
  }

  // ---- The local window ----

  /** Packets received since the last departure, which answered all before it. */
  function Unanswered(a: Side): (k: int)
  {
    a.rcvd - Cumulative(a.heard, |a.heard|)
  }

  predicate Debited(a: Side)
  {
    a.session.localWindow == (if Unanswered(a) <= a.session.localWindowMax then a.session.localWindowMax - Unanswered(a) else 0)
  }

  lemma AcceptedDebits(s: Session, raw: bytes, now: nat)
    requires OnIndication(s, raw, now).1.Ok?
    ensures var s' := OnIndication(s, raw, now).0;
            && s'.localWindow == (if s.localWindow > 0 then s.localWindow - 1 else 0)
            && (s'.localWindow <= 1 ==> s'.ackDueAt.Some? && s'.ackDueAt.value <= now)
  {
    RefusedIff(s, raw, now);
    OthersAreTaken(s, raw, now);
  }

  /** Reception at a side of a run is never refused. */
  lemma HeadIsOk(n: Net, now: nat)
    requires Inv(n) && n.ba != []
    ensures OnIndication(n.a.session, n.ba[0], now).1.Ok?
  {
    ReceiveKeepsInv(n, now);
    InvParts(ReceiveStep(n, now));
  }

  lemma ReceivedDebits(a: Side, raw: bytes, now: nat)
    requires Debited(a) && Unanswered(a) >= 0 && OnIndication(a.session, raw, now).1.Ok?
    ensures Debited(Received(a, raw, now))
  {
    AcceptedDebits(a.session, raw, now);
  }

  lemma AnsweredAreReceived(n: Net)
    requires Inv(n)
    ensures Unanswered(n.a) >= 0 && (n.a.session.unackedRx.None? ==> Unanswered(n.a) == 0)
  {
    InvParts(n);
  }

  lemma ReceiveDebits(n: Net, now: nat)
    requires Inv(n) && Debited(n.a)
    ensures Debited(ReceiveStep(n, now).a)
  {
    if n.ba != [] {
      AnsweredAreReceived(n);
      HeadIsOk(n, now);
      ReceivedDebits(n.a, n.ba[0], now);
    }
  }

  lemma DepartureRestores(s: Session, now: nat)
    ensures Depart(s, now).localWindow == if s.unackedRx.Some? then s.localWindowMax else s.localWindow
  {
  }

  lemma EmitRestores(a: Side, a': Side, now: nat)
    requires Debited(a) && a'.heard == a.heard + [a.rcvd] && a'.rcvd == a.rcvd
    requires a'.session.localWindow == Depart(a.session, now).localWindow
    requires a'.session.localWindowMax == a.session.localWindowMax
    requires a.session.unackedRx.None? ==> Unanswered(a) == 0
    ensures Debited(a')
  {
    DepartureRestores(a.session, now);
  }

  lemma WriteDebits(n: Net, now: nat)
    requires n.a.session.Valid() && Debited(n.a) && (n.a.session.unackedRx.None? ==> Unanswered(n.a) == 0)
    ensures Debited(WriteStep(n, now).a)
  {
    if MayWrite(n.a.session) {
      EmitRestores(n.a, WriteStep(n, now).a, now);
    }
  }

  lemma TimeoutDebits(n: Net, now: nat)
    requires n.a.session.Valid() && Debited(n.a) && (n.a.session.unackedRx.None? ==> Unanswered(n.a) == 0)
    ensures Debited(TimeoutStep(n, now).a)
  {
    match HandleTimeout(n.a.session, now)
    case (_, Ok(Some(_))) => EmitRestores(n.a, TimeoutStep(n, now).a, now);
    case _ =>
  }

  lemma OneDebits(n: Net, e: Event, now: nat)
    requires n.a.session.Valid() && Debited(n.a) && (n.a.session.unackedRx.None? ==> Unanswered(n.a) == 0)
    requires e.Receive? ==> Debited(ReceiveStep(n, now).a)
    ensures Debited(Act(n, e, now).a)
  {
    match e
    case Write => WriteDebits(n, now);
    case Timeout => TimeoutDebits(n, now);
    case _ =>
  }

  lemma ActDebits(n: Net, e: Event, now: nat)
    requires Inv(n) && n.a.session.Valid() && Debited(n.a)
    ensures Debited(Act(n, e, now).a)
  {
    AnsweredAreReceived(n);
    if e.Receive? {
      ReceiveDebits(n, now);
    }
    OneDebits(n, e, now);
  }

  lemma StepDebits(n: Net, o: Occurrence)
    requires Inv(n) && n.a.session.Valid() && n.b.session.Valid() && Debited(n.a) && Debited(n.b)
    ensures Debited(Step(n, o).a) && Debited(Step(n, o).b)
  {
    if o.central {
      ActDebits(n, o.event, o.now);
    } else {
      assert Swap(Swap(n)) == n;
      ActDebits(Swap(n), o.event, o.now);
    }
  }

  /** In every run the local window is the negotiated one less the packets not yet answered. */
  lemma {:induction false} LocalWindowAccounting(segmentSize: nat, window: byte, t0: nat, t1: nat, run: seq<Occurrence>)
    requires segmentSize <= 65535 && Reasonable(run)
    ensures var n := Reached(segmentSize, window, t0, t1, run); Debited(n.a) && Debited(n.b)
    decreases |run|
  {
    if run != [] {
      var before := run[..|run| - 1];
      LocalWindowAccounting(segmentSize, window, t0, t1, before);
      ReachedInv(segmentSize, window, t0, t1, before);
      StepDebits(Reached(segmentSize, window, t0, t1, before), run[|run| - 1]);
    }
  }

  // ---- The immediate deadline ----

  lemma ReceiveIsDueAtOnce(n: Net, now: nat)
    requires Inv(n) && n.ba != [] && ReceiveStep(n, now).a.session.localWindow <= 1
    ensures var s := ReceiveStep(n, now).a.session; s.unackedRx.Some? && s.ackDueAt.Some? && s.ackDueAt.value <= now
  {
    HeadIsOk(n, now);
    AcceptedDebits(n.a.session, n.ba[0], now);
    ReceiveKeepsInv(n, now);
    InvParts(ReceiveStep(n, now));
  }

  lemma ReceiveAtSide(n: Net, side: bool, now: nat)
    requires n.a.session.Valid() && n.b.session.Valid()
    ensures SessionOf(Step(n, Occurrence(side, now, Receive)), side)
         == ReceiveStep(if side then n else Swap(n), now).a.session
  {
  }

  lemma SwapKeepsInv(n: Net)
    requires Inv(n)
    ensures Inv(Swap(n))
  {
    assert Swap(Swap(n)) == n;
  }

  lemma StepIsDueAtOnce(n: Net, side: bool, now: nat)
    requires Inv(n) && n.a.session.Valid() && n.b.session.Valid()
    requires (if side then n.ba else n.ab) != []
    requires SessionOf(Step(n, Occurrence(side, now, Receive)), side).localWindow <= 1
    ensures var s := SessionOf(Step(n, Occurrence(side, now, Receive)), side);
            s.unackedRx.Some? && s.ackDueAt.Some? && s.ackDueAt.value <= now
  {
    ReceiveAtSide(n, side, now);
    SwapKeepsInv(n);
    ReceiveIsDueAtOnce(if side then n else Swap(n), now);
  }

  /** A packet that leaves one slot or none of the local window makes the acknowledgement due at
      once, and it stays due until the side's next departure, whatever happens in between. */
  lemma NearlyFullIsDueAtOnce(segmentSize: nat, window: byte, t0: nat, t1: nat, run: seq<Occurrence>, side: bool, now: nat,
                              more: seq<Occurrence>)
    requires segmentSize <= 65535 && Reasonable(run)
    requires var n := Reached(segmentSize, window, t0, t1, run);
             var m := Step(n, Occurrence(side, now, Receive));
             && (if side then n.ba else n.ab) != [] && SessionOf(m, side).localWindow <= 1
             && |SideOf(Run(m, more), side).sent| == |SideOf(m, side).sent|
    ensures var n := Reached(segmentSize, window, t0, t1, run);
            var s := SessionOf(Run(Step(n, Occurrence(side, now, Receive)), more), side);
            s.unackedRx.Some? && s.ackDueAt.Some? && s.ackDueAt.value <= now
  {
    var n := Reached(segmentSize, window, t0, t1, run);
    ReachedInv(segmentSize, window, t0, t1, run);
    StepIsDueAtOnce(n, side, now);
    OwedUntilDeparture(Step(n, Occurrence(side, now, Receive)), more, side);
  }
}
