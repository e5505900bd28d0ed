/** The two timers over whole runs: the session dies exactly when some packet has
    gone unacknowledged for 15 s, and a blocked acknowledgement is deferred, never
    dropped. */
module BtpTimers {
  import opened Wire
  import opened BtpEngine
  import opened BtpSequence
  import opened BtpPacket
  import opened BtpNetwork
  import opened BtpTheorems

  // ---- Clocks ----

  /** What one side's clock showed at its last event of the run. */
  function Clock(run: seq<Occurrence>, central: bool, start: nat): (t: nat)
  {
    if run == [] then start
    else if run[|run| - 1].central == central then run[|run| - 1].now
    else Clock(run[..|run| - 1], central, start)
  }

  predicate ClockRunsForward(run: seq<Occurrence>, central: bool, start: nat)
  {
    forall j :: 0 <= j < |run| && run[j].central == central ==> Clock(run[..j], central, start) <= run[j].now
  }

  lemma {:induction false} ClockIsMonotone(run: seq<Occurrence>, central: bool, start: nat, i: nat, j: nat)
    requires ClockRunsForward(run, central, start) && i <= j <= |run|
    ensures Clock(run[..i], central, start) <= Clock(run[..j], central, start)
    decreases j
  {
    if i < j {
      assert run[..j][..j - 1] == run[..j - 1];
      ClockIsMonotone(run, central, start, i, j - 1);
      assert run[j - 1].central == central ==> Clock(run[..j - 1], central, start) <= run[j - 1].now;
    }
  }

  // ---- The 15 s timer ----

  function SessionOf(n: Net, central: bool): (s: Session)
  {
    if central then n.a.session else n.b.session
  }

  /** One step starts the 15 s timer exactly when it makes the side start waiting. */
  lemma StepMovesTimer(n: Net, e: Event, now: nat)
    requires n.a.session.Valid()
    ensures var s, s' := n.a.session, Act(n, e, now).a.session;
            s'.expectingAck ==> s'.txUnackedSince == if s.expectingAck then s.txUnackedSince else Some(now)
  {
    match e
    case Receive =>
      if n.ba != [] {
        IndicationMovesTimer(n.a.session, n.ba[0], now);
      }
    case _ =>
  }

  lemma IndicationMovesTimer(s: Session, raw: bytes, now: nat)
    ensures var s' := OnIndication(s, raw, now).0;
            s'.expectingAck ==> s.expectingAck && s'.txUnackedSince == s.txUnackedSince
  {
    var packet := raw[..Min(|raw|, s.segmentSize)];
    if packet != [] && HasFlag(packet[0], FLAG_ACK) {
      if |packet| >= 2 && ReceiveAck(s, packet[1]).Ok? {
        SequencedKeepsSendSide(ReceiveAck(s, packet[1]).value, packet[0], packet[2..], now);
      }
    } else if packet != [] {
      SequencedKeepsSendSide(s, packet[0], packet[1..], now);
    }
  }

  lemma StepMovesTimerOf(n: Net, o: Occurrence, central: bool)
    requires n.a.session.Valid() && n.b.session.Valid()
    ensures var s, s' := SessionOf(n, central), SessionOf(Step(n, o), central);
            && (o.central != central ==> s' == s)
            && (s'.expectingAck ==> s'.txUnackedSince == if s.expectingAck then s.txUnackedSince else Some(o.now))
  {
    StepMovesTimer(if o.central then n else Swap(n), o.event, o.now);
  }

  /** One side's engine along a run: after 0, 1, ..., all of its events. */
  function Trace(n: Net, run: seq<Occurrence>, central: bool): (ss: seq<Session>)
    requires n.a.session.Valid() && n.b.session.Valid()
  {
    seq(|run| + 1, i requires 0 <= i <= |run| => SessionOf(Run(n, run[..i]), central))
  }

  /** Each event moves the 15 s timer the way a step does. */
  predicate TimerMoves(ss: seq<Session>, run: seq<Occurrence>, central: bool)
  {
    && |ss| == |run| + 1
    && forall i :: 0 <= i < |run| ==> TimerMovesAt(ss, run, central, i)
  }

  predicate TimerMovesAt(ss: seq<Session>, run: seq<Occurrence>, central: bool, i: nat)
    requires i < |run| && |ss| == |run| + 1
  {
    && (run[i].central != central ==> ss[i + 1].expectingAck == ss[i].expectingAck)
    && (ss[i + 1].expectingAck ==>
          ss[i + 1].txUnackedSince == if ss[i].expectingAck then ss[i].txUnackedSince else Some(run[i].now))
  }

  lemma TraceMovesAt(n: Net, run: seq<Occurrence>, central: bool, i: nat)
    requires n.a.session.Valid() && n.b.session.Valid() && i < |run|
    ensures TimerMovesAt(Trace(n, run, central), run, central, i)
  {
    assert run[..i + 1] == run[..i] + [run[i]];
    RunLast(n, run[..i], run[i]);
    StepMovesTimerOf(Run(n, run[..i]), run[i], central);
  }

  lemma TraceMovesTimer(n: Net, run: seq<Occurrence>, central: bool)
    requires n.a.session.Valid() && n.b.session.Valid()
    ensures TimerMoves(Trace(n, run, central), run, central)
  {
    forall i | 0 <= i < |run|
      ensures TimerMovesAt(Trace(n, run, central), run, central, i)
    {
      TraceMovesAt(n, run, central, i);
    }
  }

  /** The side has been waiting for an acknowledgement in every state from the `j`-th on. */
  predicate WaitingSince(ss: seq<Session>, j: nat)
  {
    j < |ss| && forall i :: j <= i < |ss| ==> ss[i].expectingAck
  }

  /** The 15 s timer was started by the event after which the side has been waiting
      ever since. */
  lemma {:induction false} TimerStartsTheWait(ss: seq<Session>, run: seq<Occurrence>, central: bool, start: nat)
    returns (j: nat)
    requires TimerMoves(ss, run, central) && ss[|run|].expectingAck
    requires ss[0].expectingAck ==> ss[0].txUnackedSince == Some(start)
    ensures WaitingSince(ss, j) && (j > 0 ==> !ss[j - 1].expectingAck)
    ensures ss[|run|].txUnackedSince == Some(Clock(run[..j], central, start))
    decreases |run|
  {
    var k := |run|;
    assert run[..k] == run;
    j := k;
    if k > 0 {
      assert TimerMovesAt(ss, run, central, k - 1);
      if ss[k - 1].expectingAck {
        var ss', run' := ss[..k], run[..k - 1];
        forall i | 0 <= i < k - 1
          ensures TimerMovesAt(ss', run', central, i)
        {
          assert TimerMovesAt(ss, run, central, i);
        }
        j := TimerStartsTheWait(ss', run', central, start);
        assert run'[..j] == run[..j];
      }
    }
  }

  /** The session is declared dead exactly when its outstanding set has been non-empty
      for at least 15 s of its own clock, in every run whatever. */
  lemma DeathIsExactlyFifteenSeconds(segmentSize: nat, window: byte, t0: nat, t1: nat, run: seq<Occurrence>,
                                     central: bool, now: nat)
    requires segmentSize <= 65535
    requires ClockRunsForward(run, central, if central then t0 else t1)
    ensures var n := Start(segmentSize, window, t0, t1);
            var start := if central then t0 else t1;
            HandleTimeout(SessionOf(Run(n, run), central), now).1 == Err(AckTimedOut)
            <==> exists j :: 0 <= j <= |run| && Clock(run[..j], central, start) + ACK_TIMEOUT <= now
                             && WaitingSince(Trace(n, run, central), j)
  {
    var n := Start(segmentSize, window, t0, t1);
    assert run[..|run|] == run && run[..0] == [];
    TraceMovesTimer(n, run, central);
    DeathIsWaiting(Trace(n, run, central), run, central, if central then t0 else t1, now);
  }

  lemma DeathIsWaiting(ss: seq<Session>, run: seq<Occurrence>, central: bool, start: nat, now: nat)
    requires TimerMoves(ss, run, central) && ClockRunsForward(run, central, start)
    requires ss[0].expectingAck ==> ss[0].txUnackedSince == Some(start)
    ensures HandleTimeout(ss[|run|], now).1 == Err(AckTimedOut)
            <==> exists j :: 0 <= j <= |run| && Clock(run[..j], central, start) + ACK_TIMEOUT <= now && WaitingSince(ss, j)
  {
    if ss[|run|].expectingAck {
      var j := TimerStartsTheWait(ss, run, central, start);
      forall k | 0 <= k <= |run| && WaitingSince(ss, k)
        ensures Clock(run[..j], central, start) <= Clock(run[..k], central, start)
      {
        ClockIsMonotone(run, central, start, j, k);
      }
    }
  }

  /** Some packet of one side has been sent and not acknowledged by what it received. */
  predicate Unacknowledged(n: Net, central: bool)
  {
    var x, y := SideOf(n, central), SideOf(n, !central);
    x.rcvd <= |y.heard| && Outstanding(x, y) > 0
  }

  function SideOf(n: Net, central: bool): (x: Side)
  {
    if central then n.a else n.b
  }

  /** Some packet has been outstanding in every state of the run from the `j`-th on. */
  predicate OutstandingSince(n: Net, run: seq<Occurrence>, central: bool, j: nat)
    requires n.a.session.Valid() && n.b.session.Valid()
  {
    forall i :: j <= i <= |run| ==> Unacknowledged(Run(n, run[..i]), central)
  }

  lemma WaitingIsUnacknowledged(segmentSize: nat, window: byte, t0: nat, t1: nat, run: seq<Occurrence>, central: bool)
    requires segmentSize <= 65535 && Reasonable(run)
    ensures var n := Reached(segmentSize, window, t0, t1, run);
            SessionOf(n, central).expectingAck <==> Unacknowledged(n, central)
  {
    ReachedInv(segmentSize, window, t0, t1, run);
    assert Half(Reached(segmentSize, window, t0, t1, run)) && Half(Swap(Reached(segmentSize, window, t0, t1, run)));
  }

  lemma WaitingIsOutstanding(segmentSize: nat, window: byte, t0: nat, t1: nat, run: seq<Occurrence>, central: bool, j: nat)
    requires segmentSize <= 65535 && Reasonable(run) && j <= |run|
    ensures var n := Start(segmentSize, window, t0, t1);
            WaitingSince(Trace(n, run, central), j) <==> OutstandingSince(n, run, central, j)
  {
    var n := Start(segmentSize, window, t0, t1);
    var ss := Trace(n, run, central);
    forall i | j <= i <= |run|
      ensures ss[i].expectingAck <==> Unacknowledged(Run(n, run[..i]), central)
    {
      WaitingIsUnacknowledged(segmentSize, window, t0, t1, run[..i], central);
    }
  }

  /** The same over the packets themselves: the session is declared dead exactly when
      its outstanding set has been non-empty for at least 15 s. */
  lemma DeathIsOutstandingForFifteenSeconds(segmentSize: nat, window: byte, t0: nat, t1: nat, run: seq<Occurrence>,
                                            central: bool, now: nat)
    requires segmentSize <= 65535 && Reasonable(run)
    requires ClockRunsForward(run, central, if central then t0 else t1)
    ensures var n := Start(segmentSize, window, t0, t1);
            var start := if central then t0 else t1;
            HandleTimeout(SessionOf(Run(n, run), central), now).1 == Err(AckTimedOut)
            <==> exists j :: 0 <= j <= |run| && Clock(run[..j], central, start) + ACK_TIMEOUT <= now
                             && OutstandingSince(n, run, central, j)
  {
    var n := Start(segmentSize, window, t0, t1);
    DeathIsExactlyFifteenSeconds(segmentSize, window, t0, t1, run, central, now);
    forall j | 0 <= j <= |run|
      ensures WaitingSince(Trace(n, run, central), j) <==> OutstandingSince(n, run, central, j)
    {
      WaitingIsOutstanding(segmentSize, window, t0, t1, run, central, j);
    }
  }

  // ---- Deferred acknowledgements ----

  /** An owed acknowledgement is still owed, and due no later. */
  predicate StillOwed(s: Session, s': Session)
  {
    s.unackedRx.Some? && s.ackDueAt.Some? ==>
      s'.unackedRx.Some? && s'.ackDueAt.Some? && s'.ackDueAt.value <= s.ackDueAt.value
  }

  lemma NumberedKeepsOwed(s: Session, flags: byte, tail: bytes, num: byte, now: nat)
    ensures StillOwed(s, TakeNumbered(s, flags, tail, num, now).0)
  {
  }

  lemma SequencedKeepsOwed(s: Session, flags: byte, rest: bytes, now: nat)
    ensures StillOwed(s, ReceiveSequenced(s, flags, rest, now).0)
  {
    if rest != [] && rest[0] == s.rxNextSeq {
      NumberedKeepsOwed(s.(rxNextSeq := NextSeq(s.rxNextSeq)), flags, rest[1..], rest[0], now);
    }
  }

  lemma IndicationKeepsOwed(s: Session, raw: bytes, now: nat)
    ensures StillOwed(s, OnIndication(s, raw, now).0)
  {
    var packet := raw[..Min(|raw|, s.segmentSize)];
    if packet != [] && HasFlag(packet[0], FLAG_ACK) {
      if |packet| >= 2 && ReceiveAck(s, packet[1]).Ok? {
        SequencedKeepsOwed(ReceiveAck(s, packet[1]).value, packet[0], packet[2..], now);
      }
    } else if packet != [] {
      SequencedKeepsOwed(s, packet[0], packet[1..], now);
    }
  }

  /** A step either sends nothing and leaves the acknowledgement owed, or sends one
      packet, and that packet carries it. */
  lemma StepKeepsOwed(n: Net, e: Event, now: nat)
    requires n.a.session.Valid()
    ensures var a, a' := n.a, Act(n, e, now).a;
            || (a'.sent == a.sent && StillOwed(a.session, a'.session))
            || (|a'.sent| == |a.sent| + 1 && a'.sent[|a.sent|].ack == a.session.unackedRx)
  {
    match e
    case Receive =>
      if n.ba != [] {
        IndicationKeepsOwed(n.a.session, n.ba[0], now);
      }
    case _ =>
  }

  lemma StepKeepsOwedOf(n: Net, o: Occurrence, central: bool)
    requires n.a.session.Valid() && n.b.session.Valid()
    ensures var a, a' := SideOf(n, central), SideOf(Step(n, o), central);
            || (a'.sent == a.sent && StillOwed(a.session, a'.session))
            || (|a'.sent| == |a.sent| + 1 && a'.sent[|a.sent|].ack == a.session.unackedRx)
  {
    StepKeepsOwed(if o.central then n else Swap(n), o.event, o.now);
  }

  /** From a deferral to that side's next departure the acknowledgement stays owed and
      its deadline never moves later, whatever happens in between. */
  lemma {:induction false} OwedUntilDeparture(n: Net, run: seq<Occurrence>, central: bool)
    requires n.a.session.Valid() && n.b.session.Valid()
    ensures var a, a' := SideOf(n, central), SideOf(Run(n, run), central);
            |a.sent| <= |a'.sent| && (|a.sent| == |a'.sent| ==> StillOwed(a.session, a'.session))
  {
    if run != [] {
      OwedUntilDeparture(n, run[..|run| - 1], central);
      StepKeepsOwedOf(Run(n, run[..|run| - 1]), run[|run| - 1], central);
    }
  }

  lemma DeferredIsDue(s: Session, s': Session, now: nat, later: nat)
    requires s.Valid() && s'.Valid() && StillOwed(s, s')
    requires s.unackedRx.Some? && s.ackDueAt.value <= now <= later
    requires s.gattInFlight || s.remoteWindow == 0
    requires s.expectingAck ==> now < s.txUnackedSince.value + ACK_TIMEOUT
    ensures HandleTimeout(s, now) == (s, Ok(None))
    ensures PollTimeout(s').Some? && PollTimeout(s').value <= now
    ensures !s'.gattInFlight && s'.remoteWindow > 0
            && (s'.expectingAck ==> later < s'.txUnackedSince.value + ACK_TIMEOUT) ==>
              HandleTimeout(s', later).1 == Ok(Some([FLAG_ACK, s'.unackedRx.value, s'.txNextSeq]))
  {
  }

  /** A due acknowledgement that flow control holds back changes nothing.  However the
      run goes on, up to the side's next departure it stays owed and due; it leaves as
      soon as the timers are served with an open window and a free slot; and whichever
      packet departs next carries it. */
  lemma DeferralLosesNothing(n: Net, run: seq<Occurrence>, o: Occurrence, central: bool, now: nat, later: nat)
    requires n.a.session.Valid() && n.b.session.Valid()
    requires var s := SessionOf(n, central);
             && s.unackedRx.Some? && s.ackDueAt.value <= now <= later
             && (s.gattInFlight || s.remoteWindow == 0)
             && (s.expectingAck ==> now < s.txUnackedSince.value + ACK_TIMEOUT)
    requires |SideOf(Run(n, run), central).sent| == |SideOf(n, central).sent|
    ensures HandleTimeout(SessionOf(n, central), now) == (SessionOf(n, central), Ok(None))
    ensures var s, s' := SessionOf(n, central), SessionOf(Run(n, run), central);
            && s'.unackedRx.Some? && s'.ackDueAt.value <= s.ackDueAt.value
            && PollTimeout(s').Some? && PollTimeout(s').value <= now
            && (!s'.gattInFlight && s'.remoteWindow > 0
                && (s'.expectingAck ==> later < s'.txUnackedSince.value + ACK_TIMEOUT) ==>
                  HandleTimeout(s', later).1 == Ok(Some([FLAG_ACK, s'.unackedRx.value, s'.txNextSeq])))
    ensures var x, x' := SideOf(Run(n, run), central), SideOf(Step(Run(n, run), o), central);
            |x'.sent| > |x.sent| ==> x'.sent[|x.sent|].ack == x.session.unackedRx
  {
    OwedUntilDeparture(n, run, central);
    DeferredIsDue(SessionOf(n, central), SessionOf(Run(n, run), central), now, later);
    StepKeepsOwedOf(Run(n, run), o, central);
  }
}
