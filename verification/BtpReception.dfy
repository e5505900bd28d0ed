/** What the engine does with any bytes at all: exactly which packets are refused, with which
    error and what is left behind, and what an accepted packet does.  Everything is said of
    the bytes and the session's fields. */
module BtpReception {
  import opened Wire
  import opened BtpEngine

  // ---- The parts of a packet ----

  /** The bytes that count: at most a segment. */
  function Seen(s: Session, raw: bytes): (p: bytes)
  {
    raw[..Min(|raw|, s.segmentSize)]
  }

  predicate Begins(p: bytes)
  {
    p != [] && p[0] % 2 == 1
  }

  predicate Goes(p: bytes)
  {
    p != [] && (p[0] / 2) % 2 == 1
  }

  predicate Ends(p: bytes)
  {
    p != [] && (p[0] / 4) % 2 == 1
  }

  predicate Acks(p: bytes)
  {
    p != [] && (p[0] / 8) % 2 == 1
  }

  /** Where the sequence number stands. */
  function NumberAt(p: bytes): (i: nat)
  {
    if Acks(p) then 2 else 1
  }

  function Body(p: bytes): (b: bytes)
    requires |p| > NumberAt(p)
  {
    p[NumberAt(p) + 1..]
  }

  // ---- Why a packet is refused ----

  predicate NoNumber(p: bytes)
  {
    |p| <= NumberAt(p)
  }

  /** The acknowledged packet is one of those outstanding: no further round from the oldest than
      the newest is. */
  predicate Acknowledges(s: Session, ack: byte)
  {
    s.expectingAck && (ack - s.txOldestUnacked) % 256 <= (s.txNewestUnacked - s.txOldestUnacked) % 256
  }

  predicate BadAck(s: Session, p: bytes)
  {
    Acks(p) && |p| >= 2 && !Acknowledges(s, p[1])
  }

  predicate BadNumber(s: Session, p: bytes)
  {
    |p| > NumberAt(p) && p[NumberAt(p)] != s.rxNextSeq
  }

  predicate IsFragment(p: bytes)
  {
    Begins(p) || Goes(p) || Ends(p)
  }

  /** A beginning inside a message, a middle outside one, or a fragment that is neither. */
  predicate OutOfTurn(s: Session, p: bytes)
  {
    && |p| > NumberAt(p) && IsFragment(p)
    && if s.rxExpectedLen.Some? then Begins(p) || !(Goes(p) || Ends(p)) else !Begins(p)
  }

  predicate NoLength(s: Session, p: bytes)
  {
    |p| > NumberAt(p) && s.rxExpectedLen.None? && Begins(p) && |Body(p)| < 2
  }

  /** The length a message announces: in its first fragment, or remembered from it. */
  function Announced(s: Session, p: bytes): (n: nat)
    requires |p| > NumberAt(p) && (s.rxExpectedLen.None? ==> |Body(p)| >= 2)
  {
    if s.rxExpectedLen.Some? then s.rxExpectedLen.value else Body(p)[0] as nat + 256 * Body(p)[1] as nat
  }

  /** What has been gathered of the message with this fragment. */
  function Gathered(s: Session, p: bytes): (b: bytes)
    requires |p| > NumberAt(p) && (s.rxExpectedLen.None? ==> |Body(p)| >= 2)
  {
    if s.rxExpectedLen.Some? then s.rxBuf + Body(p) else Body(p)[2..]
  }

  predicate InTurn(s: Session, p: bytes)
  {
    |p| > NumberAt(p) && IsFragment(p) && !OutOfTurn(s, p) && !NoLength(s, p)
  }

  predicate TooLong(s: Session, p: bytes)
  {
    && InTurn(s, p)
    && if s.rxExpectedLen.Some? then |Gathered(s, p)| > RX_REASSEMBLY_CAP else Announced(s, p) > RX_REASSEMBLY_CAP
  }

  predicate Incomplete(s: Session, p: bytes)
  {
    InTurn(s, p) && Ends(p) && |Gathered(s, p)| < Announced(s, p)
  }

  predicate Refused(s: Session, p: bytes)
  {
    NoNumber(p) || BadAck(s, p) || BadNumber(s, p) || OutOfTurn(s, p) || NoLength(s, p) || TooLong(s, p) || Incomplete(s, p)
  }

  // ---- The theorem ----

  /** The acknowledgement test is the circular one. */
  lemma AckTestIsCircular(oldest: byte, newest: byte, ack: byte)
    ensures AckInInterval(oldest, newest, ack) <==> (ack - oldest) % 256 <= (newest - oldest) % 256
  {
  }

  lemma LengthIs(b: bytes)
    requires |b| >= 2
    ensures FromLe(b[..2]) == b[0] as nat + 256 * b[1] as nat
  {
    var two := b[..2];
    assert two[1..][1..] == [];
    assert FromLe(two) == two[0] + 256 * FromLe(two[1..]);
    assert FromLe(two[1..]) == two[1] + 256 * FromLe(two[1..][1..]);
  }

  /** The receive side is as it was. */
  predicate SameReceiveSide(s: Session, s': Session)
  {
    && s'.rxNextSeq == s.rxNextSeq && s'.rxBuf == s.rxBuf && s'.rxExpectedLen == s.rxExpectedLen
    && s'.unackedRx == s.unackedRx && s'.ackDueAt == s.ackDueAt && s'.localWindow == s.localWindow
  }

  /** The packet is owed an acknowledgement, at once when the local window is nearly used up,
      and is paid for by that window. */
  predicate Owes(s: Session, s': Session, num: byte, now: nat)
  {
    && s'.unackedRx == Some(num)
    && s'.localWindow == (if s.localWindow > 0 then s.localWindow - 1 else 0)
    && var deadline := if s'.localWindow <= 1 then now else now + 2500;
       s'.ackDueAt == Some(if s.ackDueAt.Some? && s.ackDueAt.value < deadline then s.ackDueAt.value else deadline)
  }

  /** What becomes of reassembly, and what is handed over, when a packet is accepted. */
  predicate Reassembles(s: Session, s': Session, p: bytes, out: Option<bytes>)
    requires |p| > NumberAt(p) && (InTurn(s, p) || !IsFragment(p))
  {
    if !IsFragment(p) then
      s'.rxExpectedLen == s.rxExpectedLen && s'.rxBuf == s.rxBuf && out == None
    else if Ends(p) then
      && s'.rxExpectedLen == None && s'.rxBuf == []
      && |Gathered(s, p)| >= Announced(s, p) && out == Some(Gathered(s, p)[..Announced(s, p)])
    else
      s'.rxExpectedLen == Some(Announced(s, p)) && s'.rxBuf == Gathered(s, p) && out == None
  }

  lemma NumberedRefusals(s: Session, p: bytes, now: nat)
    requires |p| > NumberAt(p)
    ensures var (s', r) := TakeNumbered(s, p[0], Body(p), p[NumberAt(p)], now);
            && (OutOfTurn(s, p) ==> r == Err(ReassemblerInvalidState) && s' == s)
            && (NoLength(s, p) ==> r == Err(PacketTooShort) && s' == s)
            && (TooLong(s, p) ==> r == Err(ReassemblyOverflow) && s' == s)
  {
    if |Body(p)| >= 2 { LengthIs(Body(p)); }
  }

  lemma OweAckOwes(s: Session, num: byte, now: nat)
    ensures var s' := OweAck(s, num, now);
            Owes(s, s', num, now) && s' == s.(unackedRx := s'.unackedRx, localWindow := s'.localWindow, ackDueAt := s'.ackDueAt)
  {
  }

  lemma AccumulateGathers(s: Session, p: bytes)
    requires InTurn(s, p) && !TooLong(s, p)
    ensures Accumulate(s, p[0], Body(p)) == Ok(s.(rxExpectedLen := Some(Announced(s, p)), rxBuf := Gathered(s, p)))
  {
    if |Body(p)| >= 2 { LengthIs(Body(p)); }
  }

  lemma FinishHandsOver(s: Session)
    requires s.rxExpectedLen.Some?
    ensures var (s', r) := Finish(s);
            if |s.rxBuf| < s.rxExpectedLen.value
            then r == Err(ReassemblerInvalidState) && s' == s.(rxExpectedLen := None)
            else r == Ok(Some(s.rxBuf[..s.rxExpectedLen.value])) && s' == s.(rxExpectedLen := None, rxBuf := [])
  {
  }

  /** The outcome once the number is accepted and the fragment is in turn. */
  predicate Taken(s: Session, s': Session, p: bytes, r: Result<Option<bytes>, BtpError>, now: nat)
    requires |p| > NumberAt(p) && (InTurn(s, p) || !IsFragment(p))
  {
    && Owes(s, s', p[NumberAt(p)], now)
    && (Incomplete(s, p) ==> r == Err(ReassemblerInvalidState) && s'.rxExpectedLen == None && s'.rxBuf == Gathered(s, p))
    && (!Incomplete(s, p) ==> r.Ok? && Reassembles(s, s', p, r.value))
  }

  /** Nothing outside the receive side is touched. */
  predicate OnlyReceives(s: Session, s': Session)
  {
    s' == s.(rxNextSeq := s'.rxNextSeq, rxBuf := s'.rxBuf, rxExpectedLen := s'.rxExpectedLen,
             unackedRx := s'.unackedRx, ackDueAt := s'.ackDueAt, localWindow := s'.localWindow)
  }

  lemma NumberedTakes(s: Session, p: bytes, now: nat)
    requires |p| > NumberAt(p) && !OutOfTurn(s, p) && !NoLength(s, p) && !TooLong(s, p)
    ensures var (s', r) := TakeNumbered(s, p[0], Body(p), p[NumberAt(p)], now);
            Taken(s, s', p, r, now) && OnlyReceives(s, s') && s'.rxNextSeq == s.rxNextSeq
  {
    var num := p[NumberAt(p)];
    if !IsFragment(p) {
      OweAckOwes(s, num, now);
    } else {
      AccumulateGathers(s, p);
      var s1 := s.(rxExpectedLen := Some(Announced(s, p)), rxBuf := Gathered(s, p));
      OweAckOwes(s1, num, now);
      FinishHandsOver(OweAck(s1, num, now));
    }
  }

  // ---- The whole reception ----

  /** The session after the acknowledgement in front of the packet. */
  function AfterAck(s: Session, p: bytes): (s': Session)
  {
    if Acks(p) && |p| >= 2 && ReceiveAck(s, p[1]).Ok? then ReceiveAck(s, p[1]).value else s
  }

  lemma AckIsJudged(s: Session, p: bytes)
    requires Acks(p) && |p| >= 2
    ensures ReceiveAck(s, p[1]) == (if BadAck(s, p) then Err(InvalidAck(p[1])) else Ok(AfterAck(s, p)))
    ensures SameReceiveSide(s, AfterAck(s, p))
  {
    AckTestIsCircular(s.txOldestUnacked, s.txNewestUnacked, p[1]);
  }

  /** The judgements on number and fragment do not depend on the acknowledgement. */
  lemma AckDoesNotMatter(s: Session, t: Session, p: bytes)
    requires SameReceiveSide(s, t)
    ensures BadNumber(s, p) == BadNumber(t, p) && OutOfTurn(s, p) == OutOfTurn(t, p) && NoLength(s, p) == NoLength(t, p)
    ensures TooLong(s, p) == TooLong(t, p) && Incomplete(s, p) == Incomplete(t, p)
  {
  }

  lemma IndicationPeels(s: Session, raw: bytes, now: nat)
    requires var p := Seen(s, raw); p != [] && (Acks(p) ==> |p| >= 2) && !BadAck(s, p)
    ensures var p := Seen(s, raw);
            OnIndication(s, raw, now) == ReceiveSequenced(AfterAck(s, p), p[0], p[NumberAt(p)..], now)
  {
    var p := Seen(s, raw);
    if Acks(p) { AckIsJudged(s, p); }
  }

  /** Before the number there is nothing to look at, or the acknowledgement is refused: the
      session stays as it is. */
  lemma RefusedAtOnce(s: Session, raw: bytes, now: nat)
    requires var p := Seen(s, raw); p == [] || (Acks(p) && |p| < 2) || BadAck(s, p)
    ensures var p := Seen(s, raw);
            OnIndication(s, raw, now) == (s, Err(if BadAck(s, p) then InvalidAck(p[1]) else PacketTooShort))
  {
    var p := Seen(s, raw);
    if Acks(p) && |p| >= 2 { AckIsJudged(s, p); }
  }

  /** A missing or unexpected number leaves the receive side as it is. */
  lemma RefusedByNumber(s: Session, raw: bytes, now: nat)
    requires var p := Seen(s, raw); p != [] && (Acks(p) ==> |p| >= 2) && !BadAck(s, p) && (NoNumber(p) || BadNumber(s, p))
    ensures var p := Seen(s, raw);
            var (s', r) := OnIndication(s, raw, now);
            && s' == AfterAck(s, p) && SameReceiveSide(s, s')
            && r == Err(if NoNumber(p) then PacketTooShort else InvalidSequence(s.rxNextSeq, p[NumberAt(p)]))
  {
    var p := Seen(s, raw);
    IndicationPeels(s, raw, now);
    if Acks(p) { AckIsJudged(s, p); }
    if |p| > NumberAt(p) { assert p[NumberAt(p)..][0] == p[NumberAt(p)]; }
  }

  lemma NumberIsAccepted(s: Session, raw: bytes, now: nat)
    requires var p := Seen(s, raw); !NoNumber(p) && !BadAck(s, p) && !BadNumber(s, p)
    ensures var p := Seen(s, raw);
            var t := AfterAck(s, p);
            && SameReceiveSide(s, t)
            && OnIndication(s, raw, now)
               == TakeNumbered(t.(rxNextSeq := NextSeq(t.rxNextSeq)), p[0], Body(p), p[NumberAt(p)], now)
  {
    var p := Seen(s, raw);
    IndicationPeels(s, raw, now);
    if Acks(p) { AckIsJudged(s, p); }
    assert p[NumberAt(p)..][0] == p[NumberAt(p)] && p[NumberAt(p)..][1..] == Body(p);
  }

  /** A fragment that is refused costs its number and nothing else. */
  lemma RefusedByFragment(s: Session, raw: bytes, now: nat)
    requires var p := Seen(s, raw);
             && !NoNumber(p) && !BadAck(s, p) && !BadNumber(s, p)
             && (OutOfTurn(s, p) || NoLength(s, p) || TooLong(s, p))
    ensures var p := Seen(s, raw);
            var (s', r) := OnIndication(s, raw, now);
            && s' == AfterAck(s, p).(rxNextSeq := (s.rxNextSeq + 1) % 256) && SameReceiveSide(s, s'.(rxNextSeq := s.rxNextSeq))
            && r == Err(if OutOfTurn(s, p) then ReassemblerInvalidState
                        else if NoLength(s, p) then PacketTooShort else ReassemblyOverflow)
  {
    var p := Seen(s, raw);
    var t := AfterAck(s, p);
    NumberIsAccepted(s, raw, now);
    AckDoesNotMatter(s, t, p);
    NumberedRefusals(t.(rxNextSeq := NextSeq(t.rxNextSeq)), p, now);
  }

  /** Otherwise the packet is taken in.  An END with too little data is the one refusal that
      still owes an acknowledgement; it drops the message. */
  lemma OthersAreTaken(s: Session, raw: bytes, now: nat)
    requires var p := Seen(s, raw);
             && !NoNumber(p) && !BadAck(s, p) && !BadNumber(s, p)
             && !OutOfTurn(s, p) && !NoLength(s, p) && !TooLong(s, p)
    ensures var (s', r) := OnIndication(s, raw, now);
            && Taken(s, s', Seen(s, raw), r, now) && s'.rxNextSeq == (s.rxNextSeq + 1) % 256
            && OnlyReceives(AfterAck(s, Seen(s, raw)), s')
  {
    var p := Seen(s, raw);
    var t := AfterAck(s, p);
    NumberIsAccepted(s, raw, now);
    AckDoesNotMatter(s, t, p);
    NumberedTakes(t.(rxNextSeq := NextSeq(t.rxNextSeq)), p, now);
  }

  /** The judgements that come before the fragment is looked at. */
  predicate RefusedEarly(s: Session, p: bytes)
  {
    NoNumber(p) || BadAck(s, p) || BadNumber(s, p)
  }

  /** Exactly the packets named are refused, each with its own error. */
  lemma RefusedIff(s: Session, raw: bytes, now: nat)
    ensures var p := Seen(s, raw);
            var r := OnIndication(s, raw, now).1;
            && (r.Err? <==> Refused(s, p))
            && (r.Err? && r.error.InvalidAck? <==> BadAck(s, p))
            && (r.Err? && r.error.InvalidSequence? <==> !NoNumber(p) && !BadAck(s, p) && BadNumber(s, p))
            && (r == Err(PacketTooShort) <==> !BadAck(s, p) && (NoNumber(p) || (!BadNumber(s, p) && NoLength(s, p))))
            && (r == Err(ReassemblyOverflow) <==> !RefusedEarly(s, p) && TooLong(s, p))
            && (r == Err(ReassemblerInvalidState)
                <==> !RefusedEarly(s, p) && (OutOfTurn(s, p) || (Incomplete(s, p) && !TooLong(s, p))))
  {
    var p := Seen(s, raw);
    if p == [] || (Acks(p) && |p| < 2) || BadAck(s, p) {
      RefusedAtOnce(s, raw, now);
    } else if NoNumber(p) || BadNumber(s, p) {
      RefusedByNumber(s, raw, now);
    } else if OutOfTurn(s, p) || NoLength(s, p) || TooLong(s, p) {
      RefusedByFragment(s, raw, now);
    } else {
      OthersAreTaken(s, raw, now);
    }
  }

  /** A session that has heard packet 0 and waits for acknowledgements of 0 and 1 is sent an
      acknowledgement of 0 under number 2. */
  lemma WrongNumberIsRefused(s: Session, now: nat)
    requires s.segmentSize >= MIN_SEGMENT_SIZE && s.rxNextSeq == 1
    requires s.expectingAck && s.txOldestUnacked == 0 && s.txNewestUnacked == 1
    ensures var (s', r) := OnIndication(s, [0x08, 0x00, 0x02], now);
            r == Err(InvalidSequence(1, 2)) && SameReceiveSide(s, s')
  {
    var raw: bytes := [0x08, 0x00, 0x02];
    assert Seen(s, raw) == raw;
    RefusedByNumber(s, raw, now);
  }
}
