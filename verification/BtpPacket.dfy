/** What a BTP packet says, apart from how it is laid out in bytes, and the
    reassembly of SDUs from a stream of fragments.  The lemmas tie both to the
    byte-level engine: what `NextGattWrite` and `HandleTimeout` emit is an encoded
    packet, and what `OnIndication` does to an encoded packet is acknowledge,
    then feed its fragment. */
module BtpPacket {
  import opened Wire
  import opened BtpEngine

  datatype Fragment =
    | AckOnly
    | First(len: nat, end: bool, payload: bytes)
    | Next(end: bool, payload: bytes)

  datatype Packet = Packet(ack: Option<byte>, num: byte, fragment: Fragment)

  function Flags(p: Packet): (f: byte)
  {
    match p.fragment
    case AckOnly => if p.ack.Some? then FLAG_ACK else 0
    case First(_, end, _) => DataFlags(true, end, p.ack.Some?)
    case Next(end, _) => DataFlags(false, end, p.ack.Some?)
  }

  function Body(f: Fragment): (b: bytes)
  {
    match f
    case AckOnly => []
    case First(len, _, payload) => ToLe(len, 2) + payload
    case Next(_, payload) => payload
  }

  function Encode(p: Packet): (b: bytes)
  {
    [Flags(p)] + (if p.ack.Some? then [p.ack.value] else []) + [p.num] + Body(p.fragment)
  }

  // ---- Reassembly ----

  /** Reassembly state: declared length and bytes so far of the SDU in progress,
      and the SDUs completed. */
  datatype Reassembly = Reassembly(expected: Option<nat>, buf: bytes, out: seq<bytes>)

  function EndOfData(rx: Reassembly, end: bool): (r: Option<Reassembly>)
    requires rx.expected.Some?
  {
    if !end then Some(rx)
    else if |rx.buf| < rx.expected.value then None
    else Some(Reassembly(None, [], rx.out + [rx.buf[..rx.expected.value]]))
  }

  /** One fragment; `None` when the engine would reject it. */
  function Feed(rx: Reassembly, f: Fragment): (r: Option<Reassembly>)
  {
    match f
    case AckOnly => Some(rx)
    case First(len, end, payload) =>
      if rx.expected.Some? || len > RX_REASSEMBLY_CAP then None
      else EndOfData(Reassembly(Some(len), payload, rx.out), end)
    case Next(end, payload) =>
      if rx.expected.None? || |rx.buf| + |payload| > RX_REASSEMBLY_CAP then None
      else EndOfData(rx.(buf := rx.buf + payload), end)
  }

  function FeedAll(rx: Reassembly, ps: seq<Packet>): (r: Option<Reassembly>)
    decreases |ps|
  {
    if ps == [] then Some(rx)
    else match Feed(rx, ps[0].fragment)
         case None => None
         case Some(rx1) => FeedAll(rx1, ps[1..])
  }

  lemma {:induction false} FeedAllAppend(rx: Reassembly, ps: seq<Packet>, p: Packet)
    requires FeedAll(rx, ps).Some?
    ensures FeedAll(rx, ps + [p]) == Feed(FeedAll(rx, ps).value, p.fragment)
    decreases |ps|
  {
    if ps == [] {
      assert (ps + [p])[1..] == [];
    } else {
      assert (ps + [p])[1..] == ps[1..] + [p];
      FeedAllAppend(Feed(rx, ps[0].fragment).value, ps[1..], p);
    }
  }

  /** Feeding never takes back a completed SDU. */
  lemma {:induction false} FeedAllExtends(rx: Reassembly, ps: seq<Packet>)
    requires FeedAll(rx, ps).Some?
    ensures rx.out <= FeedAll(rx, ps).value.out
    decreases |ps|
  {
    if ps != [] {
      FeedAllExtends(Feed(rx, ps[0].fragment).value, ps[1..]);
    }
  }

  // ---- The engine seen through packets ----

  lemma DataFlagBits(first: bool, end: bool, ack: bool)
    ensures var f := DataFlags(first, end, ack);
            && (HasFlag(f, FLAG_START) <==> first) && (HasFlag(f, FLAG_CONTINUE) <==> !first)
            && (HasFlag(f, FLAG_END) <==> end) && (HasFlag(f, FLAG_ACK) <==> ack)
  {
  }

  /** The fragment `NextGattWrite` would put on the wire. */
  function NextFragment(s: Session): (f: Fragment)
    requires s.Valid() && s.txPending.Some?
  {
    if s.txSent == 0 then First(|s.txPending.value|, IsLastFragment(s), NextPayload(s))
    else Next(IsLastFragment(s), NextPayload(s))
  }

  lemma NextPacketIsEncoded(s: Session)
    requires s.Valid() && s.txPending.Some?
    ensures NextPacket(s) == Encode(Packet(s.unackedRx, s.txNextSeq, NextFragment(s)))
    ensures |NextPacket(s)| <= s.segmentSize
  {
  }

  lemma StandaloneAckIsEncoded(ack: byte, num: byte)
    ensures [FLAG_ACK, ack, num] == Encode(Packet(Some(ack), num, AckOnly))
  {
  }

  /** The session after a packet's acknowledgement and sequence number. */
  function Acknowledged(s: Session, ack: Option<byte>): (r: Result<Session, BtpError>)
  {
    match ack
    case None => Ok(s)
    case Some(a) => ReceiveAck(s, a)
  }

  ghost predicate Acceptable(s: Session, p: Packet, out: seq<bytes>)
  {
    && |Encode(p)| <= s.segmentSize
    && (p.fragment.First? ==> p.fragment.len <= MAX_SDU)
    && Acknowledged(s, p.ack).Ok?
    && p.num == s.rxNextSeq
    && Feed(Reassembly(s.rxExpectedLen, s.rxBuf, out), p.fragment).Some?
  }

  /** Reassembly of one fragment by the byte-level engine. */
  lemma AccumulateIsFeed(s: Session, p: Packet, out: seq<bytes>)
    requires !p.fragment.AckOnly?
    requires p.fragment.First? ==> p.fragment.len <= MAX_SDU
    requires Feed(Reassembly(s.rxExpectedLen, s.rxBuf, out), p.fragment).Some?
    ensures Accumulate(s, Flags(p), Body(p.fragment)).Ok?
    ensures var s2 := Accumulate(s, Flags(p), Body(p.fragment)).value;
            var rx := Feed(Reassembly(s.rxExpectedLen, s.rxBuf, out), p.fragment).value;
            var (s3, r) := if p.fragment.end then Finish(s2) else (s2, Ok(None));
            && r.Ok?
            && s3 == s.(rxExpectedLen := rx.expected, rxBuf := rx.buf)
            && rx.out == out + (if r.value.Some? then [r.value.value] else [])
  {
    if p.fragment.First? {
      DataFlagBits(true, p.fragment.end, p.ack.Some?);
      var b := Body(p.fragment);
      assert b[..2] == ToLe(p.fragment.len, 2) && b[2..] == p.fragment.payload;
      assert p.fragment.len < Pow256(2) by { assert Pow256(2) == 256 * Pow256(1) == 256 * (256 * Pow256(0)); }
      LeRoundTrip(p.fragment.len, 2);
    } else {
      DataFlagBits(false, p.fragment.end, p.ack.Some?);
    }
  }

  /** `OnIndication` on an encoded packet peels off the acknowledgement. */
  lemma IndicationPeelsAck(s: Session, p: Packet, now: nat)
    requires |Encode(p)| <= s.segmentSize && Acknowledged(s, p.ack).Ok?
    ensures OnIndication(s, Encode(p), now)
         == ReceiveSequenced(Acknowledged(s, p.ack).value, Flags(p), [p.num] + Body(p.fragment), now)
  {
    var e := Encode(p);
    assert e[..Min(|e|, s.segmentSize)] == e;
    if !p.fragment.AckOnly? {
      DataFlagBits(p.fragment.First?, p.fragment.end, p.ack.Some?);
    }
    assert HasFlag(e[0], FLAG_ACK) <==> p.ack.Some?;
    if p.ack.Some? {
      assert e[2..] == [p.num] + Body(p.fragment);
    } else {
      assert e[1..] == [p.num] + Body(p.fragment);
    }
  }

  /** Reception of a numbered packet, once the number is accepted. */
  lemma NumberedIsFeed(s: Session, p: Packet, now: nat, out: seq<bytes>)
    requires p.fragment.First? ==> p.fragment.len <= MAX_SDU
    requires Feed(Reassembly(s.rxExpectedLen, s.rxBuf, out), p.fragment).Some?
    ensures var (s', r) := TakeNumbered(s, Flags(p), Body(p.fragment), p.num, now);
            var rx := Feed(Reassembly(s.rxExpectedLen, s.rxBuf, out), p.fragment).value;
            && r.Ok?
            && s' == OweAck(s, p.num, now).(rxExpectedLen := rx.expected, rxBuf := rx.buf)
            && rx.out == out + (if r.value.Some? then [r.value.value] else [])
  {
    if !p.fragment.AckOnly? {
      DataFlagBits(p.fragment.First?, p.fragment.end, p.ack.Some?);
      AccumulateIsFeed(s, p, out);
    }
  }

  lemma SequencedIsFeed(s: Session, p: Packet, now: nat, out: seq<bytes>)
    requires p.num == s.rxNextSeq
    requires p.fragment.First? ==> p.fragment.len <= MAX_SDU
    requires Feed(Reassembly(s.rxExpectedLen, s.rxBuf, out), p.fragment).Some?
    ensures var (s', r) := ReceiveSequenced(s, Flags(p), [p.num] + Body(p.fragment), now);
            var rx := Feed(Reassembly(s.rxExpectedLen, s.rxBuf, out), p.fragment).value;
            && r.Ok?
            && s' == OweAck(s.(rxNextSeq := NextSeq(s.rxNextSeq)), p.num, now)
                     .(rxExpectedLen := rx.expected, rxBuf := rx.buf)
            && rx.out == out + (if r.value.Some? then [r.value.value] else [])
  {
    var rest := [p.num] + Body(p.fragment);
    assert rest[1..] == Body(p.fragment);
    NumberedIsFeed(s.(rxNextSeq := NextSeq(s.rxNextSeq)), p, now, out);
  }

  /** `OnIndication` on an encoded packet: acknowledge, advance the receive
      sequence, owe an ack, and feed the fragment. */
  lemma IndicationIsFeed(s: Session, p: Packet, now: nat, out: seq<bytes>)
    requires Acceptable(s, p, out)
    ensures var (s', r) := OnIndication(s, Encode(p), now);
            var rx := Feed(Reassembly(s.rxExpectedLen, s.rxBuf, out), p.fragment).value;
            && r.Ok?
            && s' == OweAck(Acknowledged(s, p.ack).value.(rxNextSeq := NextSeq(s.rxNextSeq)), p.num, now)
                     .(rxExpectedLen := rx.expected, rxBuf := rx.buf)
            && rx.out == out + (if r.value.Some? then [r.value.value] else [])
  {
    IndicationPeelsAck(s, p, now);
    SequencedIsFeed(Acknowledged(s, p.ack).value, p, now, out);
  }
}
