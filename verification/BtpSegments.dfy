/** Segmentation of one SDU by one engine, whatever the peer and the timers do in
    between: arbitrary inbound bytes, write completions and timer events decide which
    fragments piggyback an acknowledgement and where standalone acks fall. */
module BtpSegments {
  import opened Wire
  import opened BtpEngine
  import opened BtpPacket
  import opened BtpSequence

  datatype Op = Indication(raw: bytes) | Write | Complete | Timeout

  datatype Sender = Sender(session: Session, log: seq<Packet>)

  /** One operation; what leaves the engine is appended to the log. */
  function Apply(x: Sender, op: Op, now: nat): (r: Sender)
    requires x.session.Valid()
    ensures r.session.Valid() && r.session.SameParameters(x.session)
  {
    var s := x.session;
    match op
    case Indication(raw) => x.(session := OnIndication(s, raw, now).0)
    case Complete => x.(session := GattWriteCompleted(s))
    case Write =>
      if MayWrite(s)
      then Sender(NextGattWrite(s, now).0, x.log + [Packet(s.unackedRx, s.txNextSeq, NextFragment(s))])
      else x
    case Timeout =>
      (match HandleTimeout(s, now)
       case (s', Ok(Some(_))) => Sender(s', x.log + [Packet(s.unackedRx, s.txNextSeq, AckOnly)])
       case (s', _) => x.(session := s'))
  }

  function ApplyAll(x: Sender, ops: seq<(Op, nat)>): (r: Sender)
    requires x.session.Valid()
    ensures r.session.Valid() && r.session.SameParameters(x.session)
  {
    if ops == [] then x
    else Apply(ApplyAll(x, ops[..|ops| - 1]), ops[|ops| - 1].0, ops[|ops| - 1].1)
  }

  /** The logged packet is what the engine emitted, byte for byte. */
  lemma LogIsWhatWasEmitted(x: Sender, op: Op, now: nat)
    requires x.session.Valid() && (op.Write? || op.Timeout?)
    ensures var out := if op.Write? then NextGattWrite(x.session, now).1
                       else if HandleTimeout(x.session, now).1.Ok? then HandleTimeout(x.session, now).1.value else None;
            match out
            case None => Apply(x, op, now).log == x.log
            case Some(wire) => exists p :: Apply(x, op, now).log == x.log + [p] && wire == Encode(p)
  {
    var s := x.session;
    if op.Write? && MayWrite(s) {
      NextPacketIsEncoded(s);
    } else if s.unackedRx.Some? {
      StandaloneAckIsEncoded(s.unackedRx.value, s.txNextSeq);
    }
  }

  // ---- The property ----

  /** The data fragments among a list of packets. */
  function DataOf(log: seq<Packet>): (fs: seq<Fragment>)
  {
    if log == [] then []
    else
      var last := log[|log| - 1].fragment;
      DataOf(log[..|log| - 1]) + (if last.AckOnly? then [] else [last])
  }

  function Payloads(fs: seq<Fragment>): (b: bytes)
    requires forall i :: 0 <= i < |fs| ==> !fs[i].AckOnly?
  {
    if fs == [] then [] else Payloads(fs[..|fs| - 1]) + fs[|fs| - 1].payload
  }

  /** Fragments of `sdu`: START and the length on the first only, and their payloads
      in order are the bytes sent so far. */
  predicate FragmentsOf(fs: seq<Fragment>, sdu: bytes, sent: nat)
    requires sent <= |sdu|
  {
    && (forall i :: 0 <= i < |fs| ==> if i == 0 then fs[i].First? && fs[i].len == |sdu| else fs[i].Next?)
    && Payloads(fs) == sdu[..sent]
  }

  /** Not finished: no END yet, every fragment non-empty. */
  predicate Unfinished(fs: seq<Fragment>, sdu: bytes, sent: nat)
    requires sent <= |sdu|
  {
    && FragmentsOf(fs, sdu, sent)
    && (fs == [] <==> sent == 0)
    && forall i :: 0 <= i < |fs| ==> !fs[i].AckOnly? && !fs[i].end && fs[i].payload != []
  }

  /** Finished: END on the last fragment only, and the payloads make up the SDU. */
  predicate Finished(fs: seq<Fragment>, sdu: bytes)
  {
    && fs != []
    && FragmentsOf(fs, sdu, |sdu|)
    && forall i :: 0 <= i < |fs| ==> !fs[i].AckOnly? && (fs[i].end <==> i == |fs| - 1)
  }

  /** Consecutive sequence numbers, within the segment size. */
  predicate WellNumbered(log: seq<Packet>, first: byte, segmentSize: nat)
  {
    forall i :: 0 <= i < |log| ==> log[i].num == (first + i) % 256 && |Encode(log[i])| <= segmentSize
  }

  predicate Segmented(x: Sender, sdu: bytes, first: byte)
  {
    && x.session.Valid()
    && WellNumbered(x.log, first, x.session.segmentSize)
    && x.session.txNextSeq == (first + |x.log|) % 256
    && SentSoFar(x.session, DataOf(x.log), sdu)
  }

  /** `fs` is what has been sent of `sdu` when the engine stands at `s`. */
  predicate SentSoFar(s: Session, fs: seq<Fragment>, sdu: bytes)
    requires s.Valid()
  {
    match s.txPending
    case Some(m) => m == sdu && Unfinished(fs, sdu, s.txSent)
    case None => Finished(fs, sdu)
  }

  lemma AppendLog(log: seq<Packet>, p: Packet)
    ensures DataOf(log + [p]) == if p.fragment.AckOnly? then DataOf(log) else DataOf(log) + [p.fragment]
  {
  }

  lemma AppendNumbered(log: seq<Packet>, p: Packet, first: byte, segmentSize: nat)
    requires WellNumbered(log, first, segmentSize)
    requires p.num == (first + |log|) % 256 && |Encode(p)| <= segmentSize
    ensures WellNumbered(log + [p], first, segmentSize)
    ensures NextSeq(p.num) == (first + |log + [p]|) % 256
  {
  }

  /** `f` is the right kind of fragment to follow `sent` bytes of `sdu`. */
  predicate Follows(f: Fragment, sdu: bytes, sent: nat)
  {
    if sent == 0 then f.First? && f.len == |sdu| else f.Next?
  }

  lemma LastFragmentFinishes(fs: seq<Fragment>, f: Fragment, sdu: bytes, sent: nat)
    requires sent <= |sdu| && Unfinished(fs, sdu, sent) && Follows(f, sdu, sent)
    requires f.end && f.payload == sdu[sent..]
    ensures Finished(fs + [f], sdu)
  {
  }

  lemma MiddleFragmentContinues(fs: seq<Fragment>, f: Fragment, sdu: bytes, sent: nat)
    requires sent <= |sdu| && Unfinished(fs, sdu, sent) && Follows(f, sdu, sent)
    requires !f.end && f.payload != [] && sent + |f.payload| <= |sdu| && f.payload == sdu[sent..sent + |f.payload|]
    ensures Unfinished(fs + [f], sdu, sent + |f.payload|)
  {
  }

  lemma LastWrite(s: Session, now: nat)
    requires s.Valid() && MayWrite(s) && IsLastFragment(s)
    ensures var s', f := NextGattWrite(s, now).0, NextFragment(s);
            && s'.txPending.None? && s'.txNextSeq == NextSeq(s.txNextSeq)
            && Follows(f, s.txPending.value, s.txSent) && f.end && f.payload == s.txPending.value[s.txSent..]
  {
  }

  lemma MiddleWrite(s: Session, now: nat)
    requires s.Valid() && MayWrite(s) && !IsLastFragment(s)
    ensures var s', f := NextGattWrite(s, now).0, NextFragment(s);
            && s'.txPending == s.txPending && s'.txNextSeq == NextSeq(s.txNextSeq)
            && Follows(f, s.txPending.value, s.txSent) && !f.end && f.payload != []
            && s'.txSent == s.txSent + |f.payload| <= |s.txPending.value|
            && f.payload == s.txPending.value[s.txSent..s'.txSent]
  {
  }

  /** The next fragment extends an unfinished list, or finishes it. */
  lemma NextFragmentExtends(s: Session, fs: seq<Fragment>, now: nat)
    requires s.Valid() && MayWrite(s) && SentSoFar(s, fs, s.txPending.value)
    ensures var s' := NextGattWrite(s, now).0;
            && (s'.txPending.Some? ==> s.txSent < s'.txSent)
            && s'.txNextSeq == NextSeq(s.txNextSeq)
            && SentSoFar(s', fs + [NextFragment(s)], s.txPending.value)
  {
    if IsLastFragment(s) {
      LastWrite(s, now);
      LastFragmentFinishes(fs, NextFragment(s), s.txPending.value, s.txSent);
    } else {
      MiddleWrite(s, now);
      MiddleFragmentContinues(fs, NextFragment(s), s.txPending.value, s.txSent);
    }
  }

  lemma NextPacketFits(s: Session)
    requires s.Valid() && MayWrite(s)
    ensures |Encode(Packet(s.unackedRx, s.txNextSeq, NextFragment(s)))| <= s.segmentSize
  {
  }

  /** A departing packet keeps the property when it continues the fragments. */
  lemma DepartureKeepsSegmented(x: Sender, r: Sender, p: Packet, sdu: bytes, first: byte)
    requires Segmented(x, sdu, first)
    requires r.session.Valid() && r.session.SameParameters(x.session) && r.log == x.log + [p]
    requires p.num == x.session.txNextSeq && r.session.txNextSeq == NextSeq(p.num)
    requires |Encode(p)| <= x.session.segmentSize
    requires SentSoFar(r.session, if p.fragment.AckOnly? then DataOf(x.log) else DataOf(x.log) + [p.fragment], sdu)
    ensures Segmented(r, sdu, first)
  {
    AppendLog(x.log, p);
    AppendNumbered(x.log, p, first, x.session.segmentSize);
  }

  lemma WriteKeepsSegmented(x: Sender, sdu: bytes, first: byte, now: nat)
    requires Segmented(x, sdu, first) && MayWrite(x.session)
    ensures Segmented(Apply(x, Write, now), sdu, first)
  {
    var s := x.session;
    NextFragmentExtends(s, DataOf(x.log), now);
    NextPacketFits(s);
    DepartureKeepsSegmented(x, Apply(x, Write, now), Packet(s.unackedRx, s.txNextSeq, NextFragment(s)), sdu, first);
  }

  lemma TimeoutKeepsSegmented(x: Sender, sdu: bytes, first: byte, now: nat)
    requires Segmented(x, sdu, first)
    ensures Segmented(Apply(x, Timeout, now), sdu, first)
  {
    var s := x.session;
    match HandleTimeout(s, now)
    case (s', Ok(Some(_))) =>
      DepartureKeepsSegmented(x, Apply(x, Timeout, now), Packet(s.unackedRx, s.txNextSeq, AckOnly), sdu, first);
    case (s', _) =>
      assert s' == s;
  }

  lemma IndicationKeepsSending(s: Session, raw: bytes, now: nat)
    ensures var s' := OnIndication(s, raw, now).0;
            s'.txPending == s.txPending && s'.txSent == s.txSent && s'.txNextSeq == s.txNextSeq
  {
    var packet := raw[..Min(|raw|, s.segmentSize)];
    if packet != [] && HasFlag(packet[0], FLAG_ACK) {
      if |packet| >= 2 && ReceiveAck(s, packet[1]).Ok? {
        SequencedKeepsSendSide(ReceiveAck(s, packet[1]).value, packet[0], packet[2..], now);
      }
    } else if packet != [] {
      SequencedKeepsSendSide(s, packet[0], packet[1..], now);
    }
  }

  lemma ApplyKeepsSegmented(x: Sender, sdu: bytes, first: byte, op: Op, now: nat)
    requires Segmented(x, sdu, first)
    ensures Segmented(Apply(x, op, now), sdu, first)
  {
    match op
    case Indication(raw) => IndicationKeepsSending(x.session, raw, now);
    case Complete =>
    case Write =>
      if MayWrite(x.session) {
        WriteKeepsSegmented(x, sdu, first, now);
      }
    case Timeout => TimeoutKeepsSegmented(x, sdu, first, now);
  }

  /** For every SDU of at most 65535 bytes, every segment size of at least 6 and every
      course of events after it is queued, the packets emitted stay within the segment
      size and are numbered consecutively; the data fragments among them carry START and
      the length on the first only, END on the last only, and in order make up the SDU. */
  lemma {:induction false} SduIsSegmented(s: Session, sdu: bytes, ops: seq<(Op, nat)>)
    requires s.Valid() && s.txPending.None? && |sdu| <= MAX_SDU
    ensures QueueMessage(s, sdu).Ok?
    ensures Segmented(ApplyAll(Sender(QueueMessage(s, sdu).value, []), ops), sdu, s.txNextSeq)
  {
    var x := Sender(QueueMessage(s, sdu).value, []);
    if ops == [] {
      assert DataOf([]) == [] && Payloads([]) == [] == sdu[..0];
    } else {
      SduIsSegmented(s, sdu, ops[..|ops| - 1]);
      ApplyKeepsSegmented(ApplyAll(x, ops[..|ops| - 1]), sdu, s.txNextSeq, ops[|ops| - 1].0, ops[|ops| - 1].1);
    }
  }

  lemma FirstFragmentVerdict(peer: Session, p: Packet, now: nat)
    requires p.fragment.First? && p.fragment.len <= MAX_SDU
    requires p.num == peer.rxNextSeq && peer.rxExpectedLen.None?
    ensures ReceiveSequenced(peer, Flags(p), [p.num] + Body(p.fragment), now).1 == Err(ReassemblyOverflow)
            <==> p.fragment.len > RX_REASSEMBLY_CAP
  {
    DataFlagBits(true, p.fragment.end, p.ack.Some?);
    var rest := [p.num] + Body(p.fragment);
    assert rest[1..] == Body(p.fragment);
    assert Body(p.fragment)[..2] == ToLe(p.fragment.len, 2);
    assert Pow256(2) == 256 * Pow256(1) == 256 * (256 * Pow256(0));
    LeRoundTrip(p.fragment.len, 2);
  }

  /** The receiver's cap is tighter than the sender's: of the SDUs the sender accepts,
      exactly those over 2048 bytes are refused, on their first fragment. */
  lemma OversizeSduIsRefused(s: Session, peer: Session, sdu: bytes, now: nat)
    requires s.Valid() && s.txPending.None? && |sdu| <= MAX_SDU
    requires peer.segmentSize == s.segmentSize && peer.rxNextSeq == s.txNextSeq && peer.rxExpectedLen.None?
    requires Acknowledged(peer, s.unackedRx).Ok?
    ensures QueueMessage(s, sdu).Ok?
    ensures OnIndication(peer, NextPacket(QueueMessage(s, sdu).value), now).1 == Err(ReassemblyOverflow)
            <==> |sdu| > RX_REASSEMBLY_CAP
  {
    var q := QueueMessage(s, sdu).value;
    NextPacketIsEncoded(q);
    var p := Packet(q.unackedRx, q.txNextSeq, NextFragment(q));
    IndicationPeelsAck(peer, p, now);
    FirstFragmentVerdict(Acknowledged(peer, p.ack).value, p, now);
  }
}
