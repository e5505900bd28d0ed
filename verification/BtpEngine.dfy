/** The BTP session engine as a pure transition system: one function per engine
    operation, over a record with exactly the fields the engine keeps.  Sequence
    numbers, windows and flags are bytes; the wrap-arounds and the low-byte
    truncation are written out.  Time is a number of milliseconds. */
module BtpEngine {
  import opened Wire

  const ACK_SEND_TIMEOUT: nat := 2500
  const ACK_TIMEOUT: nat := 15000
  const IMMEDIATE_ACK_THRESHOLD: nat := 1
  const WINDOW_NO_ACK_SEND_THRESHOLD: nat := 1
  const RX_REASSEMBLY_CAP: nat := 2048
  const MIN_SEGMENT_SIZE: nat := 6
  const MAX_SDU: nat := 65535

  const FLAG_START: byte := 1
  const FLAG_CONTINUE: byte := 2
  const FLAG_END: byte := 4
  const FLAG_ACK: byte := 8

  datatype Role = Central | Peripheral

  datatype BtpError =
    | PacketTooShort
    | InvalidAck(ack: byte)
    | InvalidSequence(expected: byte, got: byte)
    | ReassemblerInvalidState
    | ReassemblyOverflow
    | MessageInFlight
    | AckTimedOut

  datatype Session = Session(
    role: Role,
    segmentSize: nat,
    localWindowMax: byte,
    localWindow: byte,
    rxNextSeq: byte,
    rxBuf: bytes,
    rxExpectedLen: Option<nat>,
    unackedRx: Option<byte>,
    ackDueAt: Option<nat>,
    txNextSeq: byte,
    txOldestUnacked: byte,
    txNewestUnacked: byte,
    expectingAck: bool,
    txUnackedSince: Option<nat>,
    remoteWindow: byte,
    txPending: Option<bytes>,
    txSent: nat,
    gattInFlight: bool)
  {
    /** What every engine operation relies on and keeps, whatever the peer sends. */
    predicate Valid()
    {
      && MIN_SEGMENT_SIZE <= segmentSize <= 65535
      && 1 <= localWindowMax
      && (txPending.Some? ==> |txPending.value| <= MAX_SDU && txSent <= |txPending.value|
                              && (txSent == 0 || txSent < |txPending.value|))
      && (txPending.None? ==> txSent == 0)
      && (unackedRx.Some? <==> ackDueAt.Some?)
      && (expectingAck <==> txUnackedSince.Some?)
    }

    /** The negotiated parameters are the ones of `s`. */
    predicate SameParameters(s: Session)
    {
      role == s.role && segmentSize == s.segmentSize && localWindowMax == s.localWindowMax
    }
  }

  function NextSeq(num: byte): (r: byte)
  {
    (num + 1) % 256
  }

  function SaturatingDec(w: byte): (r: byte)
  {
    if w == 0 then 0 else w - 1
  }

  function New(role: Role, segmentSize: nat, window: byte, now: nat): (s: Session)
    requires segmentSize <= 65535
    ensures s.Valid()
  {
    var seg := if segmentSize < MIN_SEGMENT_SIZE then MIN_SEGMENT_SIZE else segmentSize;
    var w: byte := if window < 1 then 1 else window;
    match role
    case Central =>
      Session(role, seg, w, SaturatingDec(w), 1, [], None, Some(0), Some(now + ACK_SEND_TIMEOUT),
              0, 0, 0, false, None, w, None, 0, false)
    case Peripheral =>
      Session(role, seg, w, w, 0, [], None, None, None,
              1, 0, 0, true, Some(now), w, None, 0, false)
  }

  // ---- Inbound acknowledgements ----

  /** The inbound-ack test on byte sequence numbers, with the wrapped interval case. */
  predicate AckInInterval(oldest: byte, newest: byte, ack: byte)
  {
    if newest >= oldest then oldest <= ack <= newest
    else ack <= newest || ack >= oldest
  }

  /** 16-bit wrapping subtraction followed by truncation to the low byte. */
  function LowByteOfSub16(a: nat, b: nat): (r: byte)
    requires a < 65536 && b < 65536
  {
    ((a - b + 65536) % 65536) % 256
  }

  function AdjustRemoteWindow(windowMax: byte, newest: byte, ack: byte): (r: byte)
  {
    var boundary: nat := ack + windowMax;
    if boundary > 255 && newest < ack
    then LowByteOfSub16(boundary, newest + 255)
    else LowByteOfSub16(boundary, newest)
  }

  function ReceiveAck(s: Session, ack: byte): (r: Result<Session, BtpError>)
    ensures r.Ok? ==> r.value.SameParameters(s) && (s.Valid() ==> r.value.Valid())
  {
    if !s.expectingAck || !AckInInterval(s.txOldestUnacked, s.txNewestUnacked, ack) then
      Err(InvalidAck(ack))
    else
      var s1 :=
        if s.txNewestUnacked == ack
        then s.(txOldestUnacked := ack, expectingAck := false, txUnackedSince := None)
        else s.(txOldestUnacked := NextSeq(ack));
      Ok(s1.(remoteWindow := AdjustRemoteWindow(s.localWindowMax, s.txNewestUnacked, ack)))
  }

  // ---- Receive path ----

  function ArmAckTimer(s: Session, now: nat): (r: Session)
  {
    var candidate := if s.localWindow <= IMMEDIATE_ACK_THRESHOLD then now else now + ACK_SEND_TIMEOUT;
    s.(ackDueAt := Some(match s.ackDueAt
                        case Some(existing) => Min(existing, candidate)
                        case None => candidate))
  }

  /** Debit the local window for an accepted packet and owe its acknowledgement. */
  function OweAck(s: Session, num: byte, now: nat): (r: Session)
    ensures r.SameParameters(s) && (s.Valid() ==> r.Valid())
  {
    ArmAckTimer(s.(localWindow := SaturatingDec(s.localWindow), unackedRx := Some(num)), now)
  }

  /** Take one data fragment into the reassembly buffer; `tail` starts after the
      sequence byte. */
  function Accumulate(s: Session, flags: byte, tail: bytes): (r: Result<Session, BtpError>)
    ensures r.Ok? ==> r.value.rxExpectedLen.Some?
    ensures r.Ok? ==> r.value.SameParameters(s) && (s.Valid() ==> r.value.Valid())
  {
    if s.rxExpectedLen.Some? then
      if HasFlag(flags, FLAG_START) || !(HasFlag(flags, FLAG_CONTINUE) || HasFlag(flags, FLAG_END)) then
        Err(ReassemblerInvalidState)
      else if |s.rxBuf| + |tail| > RX_REASSEMBLY_CAP then
        Err(ReassemblyOverflow)
      else
        Ok(s.(rxBuf := s.rxBuf + tail))
    else if !HasFlag(flags, FLAG_START) then
      Err(ReassemblerInvalidState)
    else if |tail| < 2 then
      Err(PacketTooShort)
    else
      var msgLen := FromLe(tail[..2]);
      if msgLen > RX_REASSEMBLY_CAP then
        Err(ReassemblyOverflow)
      else
        Ok(s.(rxExpectedLen := Some(msgLen), rxBuf := tail[2..]))
  }

  /** On an END fragment: check completeness, trim padding, hand the SDU over. */
  function Finish(s: Session): (r: (Session, Result<Option<bytes>, BtpError>))
    requires s.rxExpectedLen.Some?
    ensures r.0.SameParameters(s) && (s.Valid() ==> r.0.Valid())
  {
    var expected := s.rxExpectedLen.value;
    if |s.rxBuf| < expected then
      (s.(rxExpectedLen := None), Err(ReassemblerInvalidState))
    else
      (s.(rxExpectedLen := None, rxBuf := []), Ok(Some(s.rxBuf[..expected])))
  }

  /** A packet whose number was expected; `tail` starts after the sequence byte. */
  function TakeNumbered(s: Session, flags: byte, tail: bytes, num: byte, now: nat)
    : (r: (Session, Result<Option<bytes>, BtpError>))
    ensures r.0.SameParameters(s) && (s.Valid() ==> r.0.Valid())
  {
    if !HasFlag(flags, FLAG_START) && !HasFlag(flags, FLAG_CONTINUE) && !HasFlag(flags, FLAG_END) then
      (OweAck(s, num, now), Ok(None))
    else
      match Accumulate(s, flags, tail)
      case Err(e) => (s, Err(e))
      case Ok(s1) =>
        var s2 := OweAck(s1, num, now);
        if HasFlag(flags, FLAG_END) then Finish(s2) else (s2, Ok(None))
  }

  /** Everything after the acknowledgement byte; `rest` starts at the sequence byte. */
  function ReceiveSequenced(s: Session, flags: byte, rest: bytes, now: nat)
    : (r: (Session, Result<Option<bytes>, BtpError>))
    ensures r.0.SameParameters(s) && (s.Valid() ==> r.0.Valid())
  {
    if rest == [] then
      (s, Err(PacketTooShort))
    else if rest[0] != s.rxNextSeq then
      (s, Err(InvalidSequence(s.rxNextSeq, rest[0])))
    else
      TakeNumbered(s.(rxNextSeq := NextSeq(s.rxNextSeq)), flags, rest[1..], rest[0], now)
  }

  /** Taking in a packet changes nothing on the send side. */
  predicate SameSendSide(s: Session, s': Session)
  {
    && s'.txPending == s.txPending && s'.txSent == s.txSent && s'.txNextSeq == s.txNextSeq
    && s'.expectingAck == s.expectingAck && s'.txUnackedSince == s.txUnackedSince
  }

  lemma NumberedKeepsSendSide(s: Session, flags: byte, tail: bytes, num: byte, now: nat)
    ensures SameSendSide(s, TakeNumbered(s, flags, tail, num, now).0)
  {
  }

  lemma SequencedKeepsSendSide(s: Session, flags: byte, rest: bytes, now: nat)
    ensures SameSendSide(s, ReceiveSequenced(s, flags, rest, now).0)
  {
    if rest != [] && rest[0] == s.rxNextSeq {
      NumberedKeepsSendSide(s.(rxNextSeq := NextSeq(s.rxNextSeq)), flags, rest[1..], rest[0], now);
    }
  }

  function OnIndication(s: Session, raw: bytes, now: nat): (r: (Session, Result<Option<bytes>, BtpError>))
    ensures r.0.SameParameters(s) && (s.Valid() ==> r.0.Valid())
  {
    var packet := raw[..Min(|raw|, s.segmentSize)];
    if packet == [] then
      (s, Err(PacketTooShort))
    else if HasFlag(packet[0], FLAG_ACK) then
      if |packet| < 2 then
        (s, Err(PacketTooShort))
      else
        match ReceiveAck(s, packet[1])
        case Err(e) => (s, Err(e))
        case Ok(s1) => ReceiveSequenced(s1, packet[0], packet[2..], now)
    else
      ReceiveSequenced(s, packet[0], packet[1..], now)
  }

  // ---- Send path ----

  function RegisterOutboundSeq(s: Session, num: byte, now: nat): (r: Session)
    ensures r.expectingAck
    ensures r.SameParameters(s) && (s.Valid() ==> r.Valid())
  {
    var s1 := if s.expectingAck then s
              else s.(expectingAck := true, txOldestUnacked := num, txUnackedSince := Some(now));
    s1.(txNewestUnacked := num, txNextSeq := NextSeq(s1.txNextSeq))
  }

  function QueueMessage(s: Session, sdu: bytes): (r: Result<Session, BtpError>)
    ensures r.Ok? ==> r.value.SameParameters(s) && (s.Valid() ==> r.value.Valid())
  {
    if s.txPending.Some? then Err(MessageInFlight)
    else if |sdu| > MAX_SDU then Err(ReassemblyOverflow)
    else Ok(s.(txPending := Some(sdu), txSent := 0))
  }

  /** The window and latch gate in front of a data fragment. */
  predicate MayWrite(s: Session)
  {
    && !s.gattInFlight
    && s.txPending.Some?
    && s.remoteWindow != 0
    && (s.remoteWindow <= WINDOW_NO_ACK_SEND_THRESHOLD ==> s.unackedRx.Some?)
  }

  function HeaderLen(ack: bool, first: bool): (r: nat)
  {
    1 + (if ack then 1 else 0) + 1 + (if first then 2 else 0)
  }

  /** Whether the next fragment ends its SDU. */
  predicate IsLastFragment(s: Session)
    requires s.txPending.Some? && s.txSent <= |s.txPending.value|
  {
    |s.txPending.value| - s.txSent + HeaderLen(s.unackedRx.Some?, s.txSent == 0) <= s.segmentSize
  }

  /** Payload of the next fragment: all that remains when it fits, otherwise as
      much as fills the segment. */
  function NextPayload(s: Session): (p: bytes)
    requires s.Valid() && s.txPending.Some?
    ensures !IsLastFragment(s) ==> 1 <= |p| < |s.txPending.value| - s.txSent
  {
    if IsLastFragment(s) then s.txPending.value[s.txSent..]
    else s.txPending.value[s.txSent..s.txSent + s.segmentSize - HeaderLen(s.unackedRx.Some?, s.txSent == 0)]
  }

  function DataFlags(first: bool, end: bool, ack: bool): (f: byte)
  {
    (if first then FLAG_START else FLAG_CONTINUE) + (if end then FLAG_END else 0) + (if ack then FLAG_ACK else 0)
  }

  function NextPacket(s: Session): (p: bytes)
    requires s.Valid() && s.txPending.Some?
  {
    var first := s.txSent == 0;
    [DataFlags(first, IsLastFragment(s), s.unackedRx.Some?)]
    + (if s.unackedRx.Some? then [s.unackedRx.value] else [])
    + [s.txNextSeq]
    + (if first then ToLe(|s.txPending.value|, 2) else [])
    + NextPayload(s)
  }

  /** A departing packet acknowledges whatever is owed and reopens the local window. */
  function DischargeAck(s: Session): (r: Session)
    ensures r.SameParameters(s) && (s.Valid() ==> r.Valid())
  {
    if s.unackedRx.Some? then s.(unackedRx := None, ackDueAt := None, localWindow := s.localWindowMax) else s
  }

  /** Bookkeeping common to data fragments and standalone acks. */
  function Depart(s: Session, now: nat): (r: Session)
    ensures r.SameParameters(s) && (s.Valid() ==> r.Valid())
  {
    RegisterOutboundSeq(DischargeAck(s), s.txNextSeq, now)
    .(remoteWindow := SaturatingDec(s.remoteWindow), gattInFlight := true)
  }

  function NextGattWrite(s: Session, now: nat): (r: (Session, Option<bytes>))
    requires s.Valid()
    ensures r.0.SameParameters(s) && r.0.Valid()
  {
    if !MayWrite(s) then (s, None)
    else
      var s1 := Depart(s, now);
      var s2 := if IsLastFragment(s) then s1.(txPending := None, txSent := 0)
                else s1.(txSent := s.txSent + |NextPayload(s)|);
      (s2, Some(NextPacket(s)))
  }

  function GattWriteCompleted(s: Session): (r: Session)
    ensures r.SameParameters(s) && (s.Valid() ==> r.Valid())
  {
    s.(gattInFlight := false)
  }

  // ---- Timers ----

  function AckDeadline(s: Session): (r: Option<nat>)
  {
    if s.expectingAck && s.txUnackedSince.Some? then Some(s.txUnackedSince.value + ACK_TIMEOUT) else None
  }

  function PollTimeout(s: Session): (r: Option<nat>)
  {
    match (s.ackDueAt, AckDeadline(s))
    case (Some(a), Some(b)) => Some(Min(a, b))
    case (Some(a), None) => Some(a)
    case (None, b) => b
  }

  function HandleTimeout(s: Session, now: nat): (r: (Session, Result<Option<bytes>, BtpError>))
    ensures r.0.SameParameters(s) && (s.Valid() ==> r.0.Valid())
  {
    if AckDeadline(s).Some? && now >= AckDeadline(s).value then
      (s, Err(AckTimedOut))
    else if s.ackDueAt.Some? && now >= s.ackDueAt.value then
      if s.unackedRx.Some? then
        if s.gattInFlight || s.remoteWindow == 0 then (s, Ok(None))
        else (Depart(s, now), Ok(Some([FLAG_ACK, s.unackedRx.value, s.txNextSeq])))
      else
        (s.(ackDueAt := None), Ok(None))
    else
      (s, Ok(None))
  }
}
