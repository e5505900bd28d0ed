/** What every run of a Central and a Peripheral over reliable links guarantees. */
module BtpTheorems {
  import opened Wire
  import opened BtpEngine
  import opened BtpPacket
  import opened BtpSequence
  import opened BtpNetwork

  /** The state reached from the start of a session by a run. */
  function Reached(segmentSize: nat, window: byte, centralNow: nat, peripheralNow: nat, run: seq<Occurrence>): (n: Net)
    requires segmentSize <= 65535
    ensures n.a.session.Valid() && n.b.session.Valid()
  {
    Run(Start(segmentSize, window, centralNow, peripheralNow), run)
  }

  lemma ReachedInv(segmentSize: nat, window: byte, t0: nat, t1: nat, run: seq<Occurrence>)
    requires segmentSize <= 65535 && Reasonable(run)
    ensures Inv(Reached(segmentSize, window, t0, t1, run))
  {
    StartInv(segmentSize, window, t0, t1);
    RunKeepsInv(Start(segmentSize, window, t0, t1), run);
  }

  /** Safety: no indication is ever rejected, and what either side has handed over is
      at all times a prefix, byte for byte and in order, of what the other queued. */
  lemma RunsDeliverInOrder(segmentSize: nat, window: byte, t0: nat, t1: nat, run: seq<Occurrence>)
    requires segmentSize <= 65535 && Reasonable(run)
    ensures var n := Reached(segmentSize, window, t0, t1, run);
            && !n.a.failed && !n.b.failed
            && n.b.delivered <= n.a.queued
            && n.a.delivered <= n.b.queued
  {
    var n := Reached(segmentSize, window, t0, t1, run);
    ReachedInv(segmentSize, window, t0, t1, run);
    DeliveredIsPrefix(n);
    DeliveredIsPrefix(Swap(n));
  }

  lemma DeliveredIsPrefix(n: Net)
    requires Half(n)
    ensures n.b.delivered <= n.a.queued
  {
    FeedAllExtends(ReassemblyOf(n.b), n.a.sent[n.b.rcvd..]);
    assert n.b.delivered <= Progress(n.a).out <= n.a.queued;
  }

  /** When the link is empty and nothing is being sent, everything queued has been
      delivered: the prefix is the whole. */
  lemma QuietLinkHasDeliveredAll(segmentSize: nat, window: byte, t0: nat, t1: nat, run: seq<Occurrence>)
    requires segmentSize <= 65535 && Reasonable(run)
    ensures var n := Reached(segmentSize, window, t0, t1, run);
            && (n.ab == [] && n.a.session.txPending.None? ==> n.b.delivered == n.a.queued)
            && (n.ba == [] && n.b.session.txPending.None? ==> n.a.delivered == n.b.queued)
  {
    var n := Reached(segmentSize, window, t0, t1, run);
    ReachedInv(segmentSize, window, t0, t1, run);
    assert Half(n) && Half(Swap(n));
    assert n.ab == [] ==> n.a.sent[n.b.rcvd..] == [];
    assert n.ba == [] ==> n.b.sent[n.a.rcvd..] == [];
  }

  lemma HalfNumbersPackets(n: Net, i: nat)
    requires Half(n) && i < |n.a.sent|
    ensures |n.a.heard| == |n.a.sent| && Numbered(n.a, i)
  {
    assert PacketFits(n.a, i);
  }

  /** Every packet of a run carries the next sequence number and acknowledges the
      newest packet heard exactly when something was heard since the one before. */
  lemma PacketsAreNumberedAndAcknowledge(segmentSize: nat, window: byte, t0: nat, t1: nat, run: seq<Occurrence>, i: nat)
    requires segmentSize <= 65535 && Reasonable(run)
    ensures var n := Reached(segmentSize, window, t0, t1, run);
            && |n.a.heard| == |n.a.sent| && |n.b.heard| == |n.b.sent|
            && (i < |n.a.sent| ==> Numbered(n.a, i))
            && (i < |n.b.sent| ==> Numbered(n.b, i))
  {
    var n := Reached(segmentSize, window, t0, t1, run);
    ReachedInv(segmentSize, window, t0, t1, run);
    if i < |n.a.sent| { HalfNumbersPackets(n, i); }
    if i < |n.b.sent| { HalfNumbersPackets(Swap(n), i); }
  }

  /** Window accounting: the window never exceeds the negotiated one, and outstanding
      packets and window together make the negotiated window or one more. */
  lemma WindowAccounting(segmentSize: nat, window: byte, t0: nat, t1: nat, run: seq<Occurrence>)
    requires segmentSize <= 65535 && Reasonable(run) && window >= 1
    ensures var n := Reached(segmentSize, window, t0, t1, run);
            && Accounted(n.a, n.b, window) && Accounted(n.b, n.a, window)
  {
    ReachedInv(segmentSize, window, t0, t1, run);
    assert Half(Reached(segmentSize, window, t0, t1, run)) && Half(Swap(Reached(segmentSize, window, t0, t1, run)));
  }

  predicate Accounted(a: Side, b: Side, window: byte)
  {
    && a.rcvd <= |b.heard|
    && a.session.remoteWindow <= window
    && 0 <= Outstanding(a, b) <= window + 1
    && (Outstanding(a, b) + a.session.remoteWindow == window || Outstanding(a, b) + a.session.remoteWindow == window + 1)
    && (a.session.expectingAck <==> Outstanding(a, b) > 0)
  }

  // ---- Deadlock ----

  /** With nothing in flight some packet is always unacknowledged. */
  lemma SomethingIsOutstanding(n: Net)
    requires Inv(n) && n.ab == [] && n.ba == []
    ensures Outstanding(n.a, n.b) > 0 || Outstanding(n.b, n.a) > 0
  {
  }

  /** Never are both windows closed with nothing in flight, before or after the
      sequence numbers wrap. */
  lemma NoMutualDeadlock(segmentSize: nat, window: byte, t0: nat, t1: nat, run: seq<Occurrence>)
    requires segmentSize <= 65535 && Reasonable(run)
    ensures var n := Reached(segmentSize, window, t0, t1, run);
            n.ab == [] && n.ba == [] ==> n.a.session.remoteWindow > 0 || n.b.session.remoteWindow > 0
  {
    var n := Reached(segmentSize, window, t0, t1, run);
    ReachedInv(segmentSize, window, t0, t1, run);
    if n.ab == [] && n.ba == [] {
      NotBothClosed(n);
    }
  }

  lemma NotBothClosed(n: Net)
    requires Inv(n) && n.ab == [] && n.ba == []
    ensures n.a.session.remoteWindow > 0 || n.b.session.remoteWindow > 0
  {
    InvParts(n);
    if n.a.session.remoteWindow == 0 && n.b.session.remoteWindow == 0 {
      NoMutualClosure(n.a.heard, n.b.heard, n.a.session.localWindowMax);
      assert false;
    }
  }

  /** The side can send a standalone ack as soon as its timer is due. */
  predicate CanAcknowledge(s: Session)
  {
    s.remoteWindow > 0 && s.unackedRx.Some? && s.ackDueAt.Some?
  }

  /** Progress: with nothing in flight, some side owes an acknowledgement and has an
      open window to send it through. */
  lemma QuietRunCanAcknowledge(segmentSize: nat, window: byte, t0: nat, t1: nat, run: seq<Occurrence>)
    requires segmentSize <= 65535 && Reasonable(run)
    ensures var n := Reached(segmentSize, window, t0, t1, run);
            n.ab == [] && n.ba == [] ==> CanAcknowledge(n.a.session) || CanAcknowledge(n.b.session)
  {
    var n := Reached(segmentSize, window, t0, t1, run);
    ReachedInv(segmentSize, window, t0, t1, run);
    NoMutualDeadlock(segmentSize, window, t0, t1, run);
    if n.ab == [] && n.ba == [] {
      SomethingIsOutstanding(n);
      assert Half(n) && Half(Swap(n));
      assert n.a.session.remoteWindow == 0 ==> Outstanding(n.a, n.b) > 0;
      assert n.b.session.remoteWindow == 0 ==> Outstanding(n.b, n.a) > 0;
    }
  }

  /** What `CanAcknowledge` buys: the timer emits the owed acknowledgement at any time
      from its deadline until the session dies, once the write slot is free. */
  lemma DueAckIsEmitted(s: Session, now: nat)
    requires s.Valid() && CanAcknowledge(s) && !s.gattInFlight
    requires s.ackDueAt.value <= now
    requires s.expectingAck ==> now < s.txUnackedSince.value + ACK_TIMEOUT
    ensures HandleTimeout(s, now).1 == Ok(Some([FLAG_ACK, s.unackedRx.value, s.txNextSeq]))
    ensures HandleTimeout(s, now).0.unackedRx.None? && HandleTimeout(s, now).0.ackDueAt.None?
  {
  }
}
