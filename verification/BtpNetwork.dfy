/** Two engines, a Central and a Peripheral, joined by two reliable FIFO links of
    byte packets, under every interleaving of queueing, writing, write completion,
    receiving and timer events.  Besides the engine state each side remembers what
    happened to it (packets sent and heard, SDUs queued and delivered); the engine
    never looks at that. */
module BtpNetwork {
  import opened Wire
  import opened BtpEngine
  import opened BtpPacket
  import opened BtpSequence

  datatype Side = Side(
    session: Session,
    sent: seq<Packet>,      // every packet put on the wire; its index is its unbounded sequence number
    heard: seq<nat>,        // packets received from the peer when each of those was sent
    rcvd: nat,              // packets received from the peer
    queued: seq<bytes>,     // SDUs accepted by the engine
    delivered: seq<bytes>,  // SDUs the engine handed over
    failed: bool)           // an indication was rejected

  datatype Net = Net(a: Side, b: Side, ab: seq<bytes>, ba: seq<bytes>)

  datatype Event =
    | Queue(sdu: bytes)
    | Write
    | Complete
    | Receive
    | Timeout

  /** An event at one side, at the time that side's clock shows. */
  datatype Occurrence = Occurrence(central: bool, now: nat, event: Event)

  function Swap(n: Net): (r: Net)
  {
    Net(n.b, n.a, n.ba, n.ab)
  }

  // ---- Steps ----

  /** `packet` leaves side `a` with the engine in state `s`; `wire` are its bytes. */
  function Emit(n: Net, s: Session, packet: Packet, wire: bytes): (r: Net)
  {
    n.(a := n.a.(session := s, sent := n.a.sent + [packet], heard := n.a.heard + [n.a.rcvd]),
       ab := n.ab + [wire])
  }

  function QueueStep(n: Net, sdu: bytes): (r: Net)
  {
    match QueueMessage(n.a.session, sdu)
    case Err(_) => n
    case Ok(s) => n.(a := n.a.(session := s, queued := n.a.queued + [sdu]))
  }

  function WriteStep(n: Net, now: nat): (r: Net)
    requires n.a.session.Valid()
  {
    var s := n.a.session;
    match NextGattWrite(s, now)
    case (_, None) => n
    case (s', Some(wire)) => Emit(n, s', Packet(s.unackedRx, s.txNextSeq, NextFragment(s)), wire)
  }

  function TimeoutStep(n: Net, now: nat): (r: Net)
    requires n.a.session.Valid()
  {
    var s := n.a.session;
    match HandleTimeout(s, now)
    case (_, Err(_)) => n
    case (s', Ok(None)) => n.(a := n.a.(session := s'))
    case (s', Ok(Some(wire))) => Emit(n, s', Packet(s.unackedRx, s.txNextSeq, AckOnly), wire)
  }

  /** Side `a` after the packet `raw` has arrived. */
  function Received(a: Side, raw: bytes, now: nat): (r: Side)
  {
    var (s, r) := OnIndication(a.session, raw, now);
    var a' := a.(session := s, rcvd := a.rcvd + 1);
    match r
    case Err(_) => a'.(failed := true)
    case Ok(None) => a'
    case Ok(Some(sdu)) => a'.(delivered := a.delivered + [sdu])
  }

  function ReceiveStep(n: Net, now: nat): (r: Net)
  {
    if n.ba == [] then n else n.(a := Received(n.a, n.ba[0], now), ba := n.ba[1..])
  }

  /** Side `a` takes one step. */
  function Act(n: Net, e: Event, now: nat): (r: Net)
    requires n.a.session.Valid()
    ensures r.a.session.Valid() && r.a.session.SameParameters(n.a.session) && r.b == n.b
  {
    match e
    case Queue(sdu) => QueueStep(n, sdu)
    case Write => WriteStep(n, now)
    case Complete => n.(a := n.a.(session := GattWriteCompleted(n.a.session)))
    case Receive => ReceiveStep(n, now)
    case Timeout => TimeoutStep(n, now)
  }

  function Step(n: Net, o: Occurrence): (r: Net)
    requires n.a.session.Valid() && n.b.session.Valid()
    ensures r.a.session.Valid() && r.a.session.SameParameters(n.a.session)
    ensures r.b.session.Valid() && r.b.session.SameParameters(n.b.session)
  {
    if o.central then Act(n, o.event, o.now) else Swap(Act(Swap(n), o.event, o.now))
  }

  /** The state after a run of events, oldest first. */
  function Run(n: Net, run: seq<Occurrence>): (r: Net)
    requires n.a.session.Valid() && n.b.session.Valid()
    ensures r.a.session.Valid() && r.a.session.SameParameters(n.a.session)
    ensures r.b.session.Valid() && r.b.session.SameParameters(n.b.session)
  {
    if run == [] then n else Step(Run(n, run[..|run| - 1]), run[|run| - 1])
  }

  lemma RunOne(n: Net, o: Occurrence)
    requires n.a.session.Valid() && n.b.session.Valid()
    ensures Run(n, [o]) == Step(n, o)
  {
    assert [o][..0] == [];
  }

  lemma RunLast(n: Net, run: seq<Occurrence>, o: Occurrence)
    requires n.a.session.Valid() && n.b.session.Valid()
    ensures Run(n, run + [o]) == Step(Run(n, run), o)
  {
    assert (run + [o])[..|run|] == run;
  }

  function Start(segmentSize: nat, window: byte, centralNow: nat, peripheralNow: nat): (n: Net)
    requires segmentSize <= 65535
  {
    Net(Side(New(Central, segmentSize, window, centralNow), [], [], 1, [], [], false),
        Side(New(Peripheral, segmentSize, window, peripheralNow), [Packet(None, 0, AckOnly)], [0], 0, [], [], false),
        [], [])
  }

  // ---- The invariant ----

  /** Packets of `a` acknowledged by what `a` has received from `b`. */
  function Acked(a: Side, b: Side): (r: nat)
    requires a.rcvd <= |b.heard|
  {
    Cumulative(b.heard, a.rcvd)
  }

  function Outstanding(a: Side, b: Side): (r: int)
    requires a.rcvd <= |b.heard|
  {
    |a.heard| - Acked(a, b)
  }

  /** The extra slot the credit formula may have granted. */
  function Surplus(a: Side, b: Side): (r: int)
    requires a.rcvd <= |b.heard|
  {
    a.session.remoteWindow + Outstanding(a, b) - a.session.localWindowMax
  }

  predicate Shape(a: Side, b: Side)
  {
    && a.session.Valid()
    && a.session.segmentSize == b.session.segmentSize
    && a.session.localWindowMax == b.session.localWindowMax
    && a.session.role != b.session.role
    && !a.failed
    && |a.sent| == |a.heard|
    && a.rcvd <= |b.heard|
    && Monotone(a.heard)
    && (forall i :: 0 <= i < |a.heard| ==> a.heard[i] <= a.rcvd)
    && (a.session.role.Central? ==> a.rcvd >= 1 && forall i :: 0 <= i < |a.heard| ==> a.heard[i] >= 1)
    && (a.session.role.Peripheral? ==> |a.heard| >= 1)
  }

  /** The byte fields are residues of the unbounded counters, and the pending-ack
      state is a function of them. */
  predicate Counters(a: Side, b: Side)
    requires Shape(a, b) && Shape(b, a)
  {
    var s := a.session;
    var n := |a.heard|;
    && s.txNextSeq == n % 256
    && s.rxNextSeq == a.rcvd % 256
    && (s.expectingAck <==> Acked(a, b) < n)
    && (s.expectingAck ==> s.txOldestUnacked == Acked(a, b) % 256)
    && (n > 0 ==> s.txNewestUnacked == (n - 1) % 256)
    && s.unackedRx == (if Cumulative(a.heard, n) < a.rcvd then Some((a.rcvd - 1) % 256) else None)
  }

  /** Window accounting. */
  predicate Windows(a: Side, b: Side)
    requires Shape(a, b) && Shape(b, a)
  {
    && 0 <= Surplus(a, b) <= 1
    && (Surplus(a, b) == 1 ==>
          || (a.session.role.Peripheral? && a.rcvd == 0)
          || SentBeforeAcked(a.heard, b.heard, Acked(a, b), a.rcvd))
    && (a.session.remoteWindow == 0 ==> |a.heard| > 0 && Carries(a.heard, |a.heard| - 1))
  }

  /** Packet `i` of side `a` has the number and the acknowledgement it must have. */
  predicate Numbered(a: Side, i: nat)
    requires i < |a.heard| == |a.sent|
  {
    && a.sent[i].num == i % 256
    && a.sent[i].ack == (if Carries(a.heard, i) then Some((a.heard[i] - 1) % 256) else None)
  }

  predicate PacketFits(a: Side, i: nat)
    requires i < |a.heard| == |a.sent|
  {
    && Numbered(a, i)
    && |Encode(a.sent[i])| <= a.session.segmentSize
    && (a.sent[i].fragment.First? ==> a.sent[i].fragment.len <= MAX_SDU)
  }

  /** The link from `a` to `b` holds exactly the packets of `a` that `b` has not received. */
  predicate Link(a: Side, b: Side, ab: seq<bytes>)
    requires Shape(a, b) && Shape(b, a)
  {
    && |ab| == |a.sent| - b.rcvd
    && (forall k :: 0 <= k < |ab| ==> ab[k] == Encode(a.sent[b.rcvd + k]))
    && (forall i :: 0 <= i < |a.sent| ==> PacketFits(a, i))
  }

  /** Where reassembly must stand once everything sent has been received. */
  function Progress(a: Side): (r: Reassembly)
    requires a.session.Valid()
  {
    match a.session.txPending
    case None => Reassembly(None, [], a.queued)
    case Some(m) =>
      Reassembly(if a.session.txSent == 0 then None else Some(|m|), m[..a.session.txSent],
                 if a.queued == [] then [] else a.queued[..|a.queued| - 1])
  }

  function ReassemblyOf(b: Side): (r: Reassembly)
  {
    Reassembly(b.session.rxExpectedLen, b.session.rxBuf, b.delivered)
  }

  /** Feeding `b` the packets still on the link brings it exactly to where `a` is. */
  predicate Stream(a: Side, b: Side)
    requires Shape(a, b) && Shape(b, a)
  {
    && (a.session.txPending.Some? ==>
          a.queued != [] && a.session.txPending.value == a.queued[|a.queued| - 1])
    && (forall i :: 0 <= i < |a.queued| ==> |a.queued[i]| <= RX_REASSEMBLY_CAP)
    && b.rcvd <= |a.sent|
    && FeedAll(ReassemblyOf(b), a.sent[b.rcvd..]) == Some(Progress(a))
  }

  predicate Half(n: Net)
  {
    && Shape(n.a, n.b) && Shape(n.b, n.a)
    && Counters(n.a, n.b)
    && Windows(n.a, n.b)
    && Departures(n.a.heard, n.b.heard, n.a.session.localWindowMax)
    && Link(n.a, n.b, n.ab)
    && Stream(n.a, n.b)
  }

  predicate Inv(n: Net)
  {
    Half(n) && Half(Swap(n))
  }

  lemma InvParts(n: Net)
    requires Inv(n)
    ensures Shapes(n.a, n.b) && Counters(n.a, n.b) && Counters(n.b, n.a) && Windows(n.a, n.b) && Windows(n.b, n.a)
    ensures Departures(n.a.heard, n.b.heard, n.a.session.localWindowMax)
    ensures Departures(n.b.heard, n.a.heard, n.a.session.localWindowMax)
    ensures Link(n.a, n.b, n.ab) && Link(n.b, n.a, n.ba) && Stream(n.a, n.b) && Stream(n.b, n.a)
  {
    assert Half(n) && Half(Swap(n));
  }

  lemma InvOfParts(n: Net)
    requires Shapes(n.a, n.b) && Counters(n.a, n.b) && Counters(n.b, n.a) && Windows(n.a, n.b) && Windows(n.b, n.a)
    requires Departures(n.a.heard, n.b.heard, n.a.session.localWindowMax)
    requires Departures(n.b.heard, n.a.heard, n.a.session.localWindowMax)
    requires Link(n.a, n.b, n.ab) && Link(n.b, n.a, n.ba) && Stream(n.a, n.b) && Stream(n.b, n.a)
    ensures Inv(n)
  {
  }

  predicate Shapes(a: Side, b: Side)
  {
    Shape(a, b) && Shape(b, a)
  }

  lemma StartHalves(segmentSize: nat, window: byte, centralNow: nat, peripheralNow: nat)
    requires segmentSize <= 65535
    ensures Half(Start(segmentSize, window, centralNow, peripheralNow))
  {
  }

  lemma StartSwappedHalf(segmentSize: nat, window: byte, centralNow: nat, peripheralNow: nat)
    requires segmentSize <= 65535
    ensures Half(Swap(Start(segmentSize, window, centralNow, peripheralNow)))
  {
    var n := Start(segmentSize, window, centralNow, peripheralNow);
    assert n.b.sent[1..] == [];
  }

  lemma StartInv(segmentSize: nat, window: byte, centralNow: nat, peripheralNow: nat)
    requires segmentSize <= 65535
    ensures Inv(Start(segmentSize, window, centralNow, peripheralNow))
  {
    StartHalves(segmentSize, window, centralNow, peripheralNow);
    StartSwappedHalf(segmentSize, window, centralNow, peripheralNow);
  }

  // ---- Sending ----

  /** The packet history after one more departure. */
  lemma DepartureKeepsHistory(mine: seq<nat>, peer: seq<nat>, w: nat, rcvd: nat)
    requires rcvd <= |peer| && Monotone(mine) && Departures(mine, peer, w)
    requires forall i :: 0 <= i < |mine| ==> mine[i] <= rcvd
    requires Departure(mine + [rcvd], peer, w, |mine|)
    ensures Monotone(mine + [rcvd]) && Departures(mine + [rcvd], peer, w)
  {
  }

  /** The send gate gives the new history entry what it must have. */
  lemma GateGivesDeparture(a: Side, b: Side)
    requires Shapes(a, b) && Counters(a, b) && Windows(a, b)
    requires Departures(a.heard, b.heard, a.session.localWindowMax)
    requires a.session.remoteWindow != 0
    requires a.session.remoteWindow == 1 ==> a.session.unackedRx.Some?
    ensures Departure(a.heard + [a.rcvd], b.heard, a.session.localWindowMax, |a.heard|)
  {
  }

  /** `a'` is `a` after one more packet left it. */
  predicate SentOneMore(a: Side, a': Side, packet: Packet)
  {
    a' == a.(session := a'.session, sent := a.sent + [packet], heard := a.heard + [a.rcvd])
  }

  /** The session after a departure: the common bookkeeping, and whatever became of
      the SDU being sent. */
  predicate DepartedSession(s: Session, s': Session, now: nat)
  {
    s' == Depart(s, now).(txPending := s'.txPending, txSent := s'.txSent)
  }

  lemma DepartedFields(s: Session, s': Session, now: nat)
    requires DepartedSession(s, s', now)
    ensures s'.txNextSeq == NextSeq(s.txNextSeq) && s'.rxNextSeq == s.rxNextSeq
    ensures s'.expectingAck && s'.txNewestUnacked == s.txNextSeq && s'.unackedRx.None?
    ensures s'.txOldestUnacked == if s.expectingAck then s.txOldestUnacked else s.txNextSeq
  {
  }

  lemma SendKeepsCounters(a: Side, b: Side, a': Side, packet: Packet, now: nat)
    requires Shapes(a, b) && Shapes(a', b) && Counters(a, b)
    requires SentOneMore(a, a', packet) && DepartedSession(a.session, a'.session, now)
    ensures Counters(a', b)
  {
    NextSeqIsSuccessor(|a.heard|);
    DepartedFields(a.session, a'.session, now);
    assert Acked(a', b) == Acked(a, b) <= |a.heard|;
  }

  lemma SendKeepsPeerCounters(a: Side, b: Side, a': Side, packet: Packet)
    requires Shapes(a, b) && Shapes(a', b) && Counters(b, a)
    requires SentOneMore(a, a', packet)
    ensures Counters(b, a')
  {
  }

  lemma SendKeepsWindows(a: Side, b: Side, a': Side, packet: Packet, now: nat)
    requires Shapes(a, b) && Shapes(a', b) && Counters(a, b) && Windows(a, b)
    requires SentOneMore(a, a', packet) && DepartedSession(a.session, a'.session, now)
    requires a.session.remoteWindow != 0
    requires a.session.remoteWindow == 1 ==> a.session.unackedRx.Some?
    ensures Windows(a', b)
  {
  }

  lemma SendKeepsPeerWindows(a: Side, b: Side, a': Side, packet: Packet)
    requires Shapes(a, b) && Shapes(a', b) && Windows(b, a)
    requires SentOneMore(a, a', packet)
    ensures Windows(b, a')
  {
  }

  lemma SendKeepsPeerHistory(a: Side, b: Side, a': Side, packet: Packet, w: nat)
    requires Shapes(a, b) && SentOneMore(a, a', packet) && Departures(b.heard, a.heard, w)
    ensures Departures(b.heard, a'.heard, w)
  {
  }

  lemma SendKeepsLink(a: Side, b: Side, ab: seq<bytes>, a': Side, packet: Packet)
    requires Shapes(a, b) && Shapes(a', b) && Counters(a, b) && Link(a, b, ab)
    requires SentOneMore(a, a', packet) && a'.session.segmentSize == a.session.segmentSize
    requires packet.ack == a.session.unackedRx && packet.num == a.session.txNextSeq
    requires |Encode(packet)| <= a.session.segmentSize
    requires packet.fragment.First? ==> packet.fragment.len <= MAX_SDU
    ensures Link(a', b, ab + [Encode(packet)])
  {
    forall i | 0 <= i < |a'.sent|
      ensures PacketFits(a', i)
    {
      assert Cumulative(a'.heard, i) == Cumulative(a.heard, i);
      if i < |a.sent| {
        assert PacketFits(a, i);
      }
    }
  }

  lemma SendKeepsStream(a: Side, b: Side, a': Side, packet: Packet)
    requires Shapes(a, b) && Shapes(a', b) && Stream(a, b)
    requires SentOneMore(a, a', packet)
    requires a'.session.txPending.Some? ==> a'.session.txPending == a.session.txPending
    requires Feed(Progress(a), packet.fragment) == Some(Progress(a'))
    ensures Stream(a', b)
  {
    assert a'.sent[b.rcvd..] == a.sent[b.rcvd..] + [packet];
    FeedAllAppend(ReassemblyOf(b), a.sent[b.rcvd..], packet);
  }

  /** The link towards `a` and the stream on it depend on `a` only through what it
      has received. */
  lemma PeerLinkUnaffected(a: Side, b: Side, a': Side, ba: seq<bytes>)
    requires Shapes(a, b) && Shapes(a', b) && Link(b, a, ba) && Stream(b, a)
    requires a'.rcvd == a.rcvd && ReassemblyOf(a') == ReassemblyOf(a)
    ensures Link(b, a', ba) && Stream(b, a')
  {
  }

  /** The state and packet a send path hands over: a legal departure whose fragment
      continues the stream. */
  predicate DepartsWith(a: Side, s: Session, packet: Packet, now: nat)
  {
    var before := a.session;
    && before.Valid() && s.Valid()
    && before.remoteWindow != 0
    && (before.remoteWindow == 1 ==> before.unackedRx.Some?)
    && DepartedSession(before, s, now)
    && packet.ack == before.unackedRx && packet.num == before.txNextSeq
    && |Encode(packet)| <= before.segmentSize
    && (packet.fragment.First? ==> packet.fragment.len <= MAX_SDU)
    && (s.txPending.Some? ==> s.txPending == before.txPending)
    && Feed(Progress(a), packet.fragment) == Some(Progress(a.(session := s)))
  }

  lemma SendKeepsShapes(a: Side, b: Side, a': Side, packet: Packet)
    requires Shapes(a, b) && Counters(a, b) && Windows(a, b)
    requires Departures(a.heard, b.heard, a.session.localWindowMax)
    requires a.session.remoteWindow != 0 && (a.session.remoteWindow == 1 ==> a.session.unackedRx.Some?)
    requires SentOneMore(a, a', packet) && a'.session.Valid() && a'.session.SameParameters(a.session)
    ensures Shapes(a', b) && Departures(a'.heard, b.heard, a.session.localWindowMax)
  {
    GateGivesDeparture(a, b);
    DepartureKeepsHistory(a.heard, b.heard, a.session.localWindowMax, a.rcvd);
  }

  lemma SendKeepsOwnHalf(a: Side, b: Side, ab: seq<bytes>, a': Side, packet: Packet, now: nat)
    requires Shapes(a, b) && Shapes(a', b) && Counters(a, b) && Windows(a, b) && Link(a, b, ab) && Stream(a, b)
    requires SentOneMore(a, a', packet) && DepartsWith(a, a'.session, packet, now)
    ensures Counters(a', b) && Windows(a', b) && Link(a', b, ab + [Encode(packet)]) && Stream(a', b)
  {
    SendKeepsCounters(a, b, a', packet, now);
    SendKeepsWindows(a, b, a', packet, now);
    SendKeepsLink(a, b, ab, a', packet);
    assert Progress(a.(session := a'.session)) == Progress(a');
    SendKeepsStream(a, b, a', packet);
  }

  lemma SendKeepsPeerHalf(a: Side, b: Side, ba: seq<bytes>, a': Side, packet: Packet, w: nat)
    requires Shapes(a, b) && Shapes(a', b) && Counters(b, a) && Windows(b, a) && Link(b, a, ba) && Stream(b, a)
    requires Departures(b.heard, a.heard, w) && SentOneMore(a, a', packet)
    requires ReassemblyOf(a') == ReassemblyOf(a)
    ensures Counters(b, a') && Windows(b, a') && Departures(b.heard, a'.heard, w) && Link(b, a', ba) && Stream(b, a')
  {
    SendKeepsPeerCounters(a, b, a', packet);
    SendKeepsPeerWindows(a, b, a', packet);
    SendKeepsPeerHistory(a, b, a', packet, w);
    PeerLinkUnaffected(a, b, a', ba);
  }

  /** A legal departure keeps the invariant. */
  lemma SendKeepsInv(n: Net, s: Session, packet: Packet, now: nat)
    requires Inv(n) && DepartsWith(n.a, s, packet, now)
    ensures Inv(Emit(n, s, packet, Encode(packet)))
  {
    var r := Emit(n, s, packet, Encode(packet));
    InvParts(n);
    SendKeepsShapes(n.a, n.b, r.a, packet);
    SendKeepsOwnHalf(n.a, n.b, n.ab, r.a, packet, now);
    SendKeepsPeerHalf(n.a, n.b, n.ba, r.a, packet, n.a.session.localWindowMax);
    InvOfParts(r);
  }

  lemma TakeMore(m: bytes, i: nat, j: nat)
    requires i <= j <= |m|
    ensures m[..i] + m[i..j] == m[..j]
  {
  }

  lemma LastContinuesStream(a: Side, now: nat)
    requires a.session.Valid() && MayWrite(a.session) && IsLastFragment(a.session)
    requires a.queued != [] && a.session.txPending.value == a.queued[|a.queued| - 1]
    requires |a.session.txPending.value| <= RX_REASSEMBLY_CAP
    ensures Feed(Progress(a), NextFragment(a.session))
         == Some(Progress(a.(session := NextGattWrite(a.session, now).0)))
  {
    var s := a.session;
    var m := s.txPending.value;
    assert a.queued == a.queued[..|a.queued| - 1] + [m];
    TakeMore(m, s.txSent, |m|);
    assert m[s.txSent..|m|] == m[s.txSent..] && m[..|m|] == m;
  }

  lemma MiddleWrites(s: Session, now: nat)
    requires s.Valid() && MayWrite(s) && !IsLastFragment(s)
    ensures var s' := NextGattWrite(s, now).0;
            s'.txPending == s.txPending && s'.txSent == s.txSent + |NextPayload(s)|
  {
  }

  lemma MiddleProgress(a: Side, s': Session)
    requires a.session.Valid() && a.session.txPending.Some? && !IsLastFragment(a.session) && s'.Valid()
    requires s'.txPending == a.session.txPending && s'.txSent == a.session.txSent + |NextPayload(a.session)|
    requires |a.session.txPending.value| <= RX_REASSEMBLY_CAP
    ensures Feed(Progress(a), NextFragment(a.session)) == Some(Progress(a.(session := s')))
  {
    TakeMore(a.session.txPending.value, a.session.txSent, s'.txSent);
  }

  lemma MiddleContinuesStream(a: Side, now: nat)
    requires a.session.Valid() && MayWrite(a.session) && !IsLastFragment(a.session)
    requires |a.session.txPending.value| <= RX_REASSEMBLY_CAP
    ensures Feed(Progress(a), NextFragment(a.session))
         == Some(Progress(a.(session := NextGattWrite(a.session, now).0)))
  {
    MiddleWrites(a.session, now);
    MiddleProgress(a, NextGattWrite(a.session, now).0);
  }

  /** Reassembling the next fragment is the progress its departure makes. */
  lemma WriteContinuesStream(a: Side, now: nat)
    requires a.session.Valid() && MayWrite(a.session)
    requires a.queued != [] && a.session.txPending.value == a.queued[|a.queued| - 1]
    requires |a.session.txPending.value| <= RX_REASSEMBLY_CAP
    ensures Feed(Progress(a), NextFragment(a.session))
         == Some(Progress(a.(session := NextGattWrite(a.session, now).0)))
  {
    if IsLastFragment(a.session) {
      LastContinuesStream(a, now);
    } else {
      MiddleContinuesStream(a, now);
    }
  }

  lemma WriteDeparts(a: Side, now: nat)
    requires a.session.Valid() && MayWrite(a.session)
    requires a.queued != [] && a.session.txPending.value == a.queued[|a.queued| - 1]
    requires |a.session.txPending.value| <= RX_REASSEMBLY_CAP
    ensures var s := a.session;
            DepartsWith(a, NextGattWrite(s, now).0, Packet(s.unackedRx, s.txNextSeq, NextFragment(s)), now)
  {
    WriteContinuesStream(a, now);
    NextPacketIsEncoded(a.session);
  }

  lemma WriteKeepsInv(n: Net, now: nat)
    requires Inv(n)
    ensures Inv(WriteStep(n, now))
  {
    if MayWrite(n.a.session) {
      InvParts(n);
      WriteDeparts(n.a, now);
      NextPacketIsEncoded(n.a.session);
      SendKeepsInv(n, NextGattWrite(n.a.session, now).0,
                   Packet(n.a.session.unackedRx, n.a.session.txNextSeq, NextFragment(n.a.session)), now);
    }
  }

  lemma StandaloneAckDeparts(a: Side, now: nat)
    requires a.session.Valid() && a.session.unackedRx.Some? && a.session.remoteWindow != 0
    ensures var s := a.session;
            DepartsWith(a, Depart(s, now), Packet(s.unackedRx, s.txNextSeq, AckOnly), now)
  {
    assert Progress(a.(session := Depart(a.session, now))) == Progress(a);
  }

  lemma TimeoutKeepsInv(n: Net, now: nat)
    requires Inv(n)
    ensures Inv(TimeoutStep(n, now))
  {
    var s := n.a.session;
    match HandleTimeout(s, now)
    case (s', Ok(Some(wire))) =>
      StandaloneAckDeparts(n.a, now);
      StandaloneAckIsEncoded(s.unackedRx.value, s.txNextSeq);
      SendKeepsInv(n, s', Packet(s.unackedRx, s.txNextSeq, AckOnly), now);
    case (s', Ok(None)) => assert s' == s;
    case (_, Err(_)) =>
  }

  // ---- Receiving ----

  /** `s'` is `s` after taking in a packet numbered `num`. */
  predicate TookIn(s: Session, s': Session, num: byte)
  {
    && s'.Valid()
    && s' == s.(rxNextSeq := NextSeq(s.rxNextSeq), unackedRx := Some(num),
                localWindow := s'.localWindow, ackDueAt := s'.ackDueAt,
                rxExpectedLen := s'.rxExpectedLen, rxBuf := s'.rxBuf)
  }

  /** `a'` is `a` after receiving the packet numbered `a.rcvd` of `b`. */
  predicate ReceivedOneMore(a: Side, b: Side, a': Side)
    requires Shapes(a, b)
  {
    && a.rcvd < |b.sent|
    && var p := b.sent[a.rcvd];
       && Acknowledged(a.session, p.ack).Ok?
       && a' == a.(session := a'.session, rcvd := a.rcvd + 1, delivered := a'.delivered)
       && TookIn(Acknowledged(a.session, p.ack).value, a'.session, p.num)
       && Feed(ReassemblyOf(a), p.fragment) == Some(ReassemblyOf(a'))
  }

  /** The acknowledgement on the next packet falls among the outstanding packets. */
  lemma NextAckIsOutstanding(a: Side, b: Side)
    requires Shapes(a, b) && Counters(a, b) && Windows(a, b)
    requires a.rcvd < |b.sent| && Numbered(b, a.rcvd) && Carries(b.heard, a.rcvd)
    ensures var x, newest := b.heard[a.rcvd] - 1, |a.heard| - 1;
            && b.sent[a.rcvd].ack == Some(x % 256)
            && a.session.expectingAck
            && Acked(a, b) <= x <= newest <= Acked(a, b) + a.session.localWindowMax
  {
  }

  lemma NextAckIsAccepted(a: Side, b: Side)
    requires Shapes(a, b) && Counters(a, b) && Windows(a, b)
    requires a.rcvd < |b.sent| && Numbered(b, a.rcvd)
    ensures Acknowledged(a.session, b.sent[a.rcvd].ack).Ok?
  {
    if Carries(b.heard, a.rcvd) {
      NextAckIsOutstanding(a, b);
      AckOutcome(a.session, Acked(a, b), |a.heard| - 1, b.heard[a.rcvd] - 1);
    }
  }

  lemma ReceiveKeepsShapes(a: Side, b: Side, a': Side)
    requires Shapes(a, b) && ReceivedOneMore(a, b, a')
    ensures Shapes(a', b)
  {
  }

  lemma ReceiveAckKeepsCounters(a: Side, b: Side, a': Side)
    requires Shapes(a, b) && Shapes(a', b) && Counters(a, b) && Windows(a, b)
    requires ReceivedOneMore(a, b, a') && Numbered(b, a.rcvd) && Carries(b.heard, a.rcvd)
    ensures Counters(a', b)
  {
    NextSeqIsSuccessor(a.rcvd);
    NextAckIsOutstanding(a, b);
    AckOutcome(a.session, Acked(a, b), |a.heard| - 1, b.heard[a.rcvd] - 1);
    assert Acked(a', b) == b.heard[a.rcvd];
  }

  lemma ReceiveKeepsCounters(a: Side, b: Side, a': Side)
    requires Shapes(a, b) && Shapes(a', b) && Counters(a, b) && Windows(a, b)
    requires ReceivedOneMore(a, b, a') && Numbered(b, a.rcvd)
    ensures Counters(a', b)
  {
    if Carries(b.heard, a.rcvd) {
      ReceiveAckKeepsCounters(a, b, a');
    } else {
      NextSeqIsSuccessor(a.rcvd);
      assert Acked(a', b) == Acked(a, b);
    }
  }

  /** The extra slot after an acknowledgement: granted only while later packets are
      outstanding; and an acknowledgement that leaves the window closed found it closed. */
  lemma SurplusAfterAck(a: Side, b: Side, a': Side)
    requires Shapes(a, b) && Shapes(a', b) && Counters(a, b) && Windows(a, b)
    requires ReceivedOneMore(a, b, a') && Numbered(b, a.rcvd) && Carries(b.heard, a.rcvd)
    ensures Acked(a', b) == b.heard[a.rcvd]
    ensures 0 <= Surplus(a', b) <= 1
    ensures Surplus(a', b) == 1 ==> Acked(a', b) < |a.heard|
    ensures a'.session.remoteWindow == 0 ==> a.session.remoteWindow == 0
  {
    var x, newest := b.heard[a.rcvd] - 1, |a.heard| - 1;
    NextAckIsOutstanding(a, b);
    AckOutcome(a.session, Acked(a, b), newest, x);
  }

  lemma ReceiveAckKeepsWindows(a: Side, b: Side, a': Side)
    requires Shapes(a, b) && Shapes(a', b) && Counters(a, b) && Windows(a, b)
    requires ReceivedOneMore(a, b, a') && Numbered(b, a.rcvd) && Carries(b.heard, a.rcvd)
    ensures Windows(a', b)
  {
    SurplusAfterAck(a, b, a');
    var la := b.heard[a.rcvd];
    forall q | 0 <= q < a'.rcvd && b.heard[q] == la
      ensures q == a.rcvd
    {
    }
  }

  lemma ReceiveKeepsWindows(a: Side, b: Side, a': Side)
    requires Shapes(a, b) && Shapes(a', b) && Counters(a, b) && Windows(a, b)
    requires ReceivedOneMore(a, b, a') && Numbered(b, a.rcvd)
    ensures Windows(a', b)
  {
    if Carries(b.heard, a.rcvd) {
      ReceiveAckKeepsWindows(a, b, a');
    } else {
      assert Acked(a', b) == Acked(a, b);
      assert Surplus(a', b) == Surplus(a, b);
    }
  }

  lemma ReceiveKeepsPeer(a: Side, b: Side, a': Side)
    requires Shapes(a, b) && Shapes(a', b) && Counters(b, a) && Windows(b, a)
    requires ReceivedOneMore(a, b, a')
    ensures Counters(b, a') && Windows(b, a')
  {
  }

  lemma ReceiveKeepsLinks(n: Net, a': Side)
    requires Shapes(n.a, n.b) && Shapes(a', n.b)
    requires Link(n.a, n.b, n.ab) && Link(n.b, n.a, n.ba) && n.ba != []
    requires ReceivedOneMore(n.a, n.b, a')
    ensures Link(a', n.b, n.ab) && Link(n.b, a', n.ba[1..])
  {
    forall i | 0 <= i < |a'.sent|
      ensures PacketFits(a', i)
    {
      assert PacketFits(n.a, i);
    }
  }

  lemma ReceiveKeepsStream(a: Side, b: Side, a': Side)
    requires Shapes(a, b) && Shapes(a', b) && Stream(a, b)
    requires ReceivedOneMore(a, b, a')
    ensures Stream(a', b)
  {
    assert Progress(a') == Progress(a);
  }

  lemma ReceiveKeepsPeerStream(a: Side, b: Side, a': Side)
    requires Shapes(a, b) && Shapes(a', b) && Stream(b, a)
    requires ReceivedOneMore(a, b, a')
    ensures Stream(b, a')
  {
  }

  lemma HeadIsAcceptable(a: Side, b: Side)
    requires Shapes(a, b) && Counters(a, b) && Windows(a, b) && Stream(b, a)
    requires a.rcvd < |b.sent| && PacketFits(b, a.rcvd)
    ensures Acceptable(a.session, b.sent[a.rcvd], a.delivered)
  {
    NextAckIsAccepted(a, b);
    assert b.sent[a.rcvd..][0] == b.sent[a.rcvd];
  }

  /** An acceptable packet of the peer's is received as one more. */
  lemma AcceptableIsReceived(a: Side, b: Side, raw: bytes, now: nat)
    requires Shapes(a, b) && a.rcvd < |b.sent| && raw == Encode(b.sent[a.rcvd])
    requires Acceptable(a.session, b.sent[a.rcvd], a.delivered)
    ensures ReceivedOneMore(a, b, Received(a, raw, now))
  {
    IndicationIsFeed(a.session, b.sent[a.rcvd], now, a.delivered);
  }

  /** The packet at the head of the link is accepted by the engine. */
  lemma HeadIsAccepted(n: Net, now: nat)
    requires Shapes(n.a, n.b) && Counters(n.a, n.b) && Windows(n.a, n.b)
    requires Link(n.b, n.a, n.ba) && Stream(n.b, n.a) && n.ba != []
    ensures Numbered(n.b, n.a.rcvd)
    ensures ReceivedOneMore(n.a, n.b, ReceiveStep(n, now).a)
  {
    assert PacketFits(n.b, n.a.rcvd);
    HeadIsAcceptable(n.a, n.b);
    AcceptableIsReceived(n.a, n.b, n.ba[0], now);
  }

  lemma ReceiveKeepsOwnHalf(a: Side, b: Side, a': Side)
    requires Shapes(a, b) && Counters(a, b) && Windows(a, b) && Stream(a, b)
    requires ReceivedOneMore(a, b, a') && Numbered(b, a.rcvd)
    ensures Shapes(a', b) && Counters(a', b) && Windows(a', b) && Stream(a', b)
  {
    ReceiveKeepsShapes(a, b, a');
    ReceiveKeepsCounters(a, b, a');
    ReceiveKeepsWindows(a, b, a');
    ReceiveKeepsStream(a, b, a');
  }

  lemma ReceiveKeepsPeerHalf(a: Side, b: Side, a': Side)
    requires Shapes(a, b) && Shapes(a', b) && Counters(b, a) && Windows(b, a) && Stream(b, a)
    requires ReceivedOneMore(a, b, a')
    ensures Counters(b, a') && Windows(b, a') && Stream(b, a')
  {
    ReceiveKeepsPeer(a, b, a');
    ReceiveKeepsPeerStream(a, b, a');
  }

  lemma ReceiveKeepsInv(n: Net, now: nat)
    requires Inv(n)
    ensures Inv(ReceiveStep(n, now))
  {
    if n.ba != [] {
      var r := ReceiveStep(n, now);
      InvParts(n);
      HeadIsAccepted(n, now);
      ReceiveKeepsOwnHalf(n.a, n.b, r.a);
      ReceiveKeepsPeerHalf(n.a, n.b, r.a);
      ReceiveKeepsLinks(n, r.a);
      InvOfParts(r);
    }
  }

  // ---- Every run ----

  /** SDUs the receiver is willing to reassemble. */
  predicate Reasonable(run: seq<Occurrence>)
  {
    forall i :: 0 <= i < |run| && run[i].event.Queue? ==> |run[i].event.sdu| <= RX_REASSEMBLY_CAP
  }

  /** `a'` differs from `a` only in the SDU being sent, the write latch and the record
      of queued SDUs. */
  predicate QuietChange(a: Side, a': Side)
  {
    && a'.session.Valid()
    && a'.session == a.session.(txPending := a'.session.txPending, txSent := a'.session.txSent,
                                gattInFlight := a'.session.gattInFlight)
    && a' == a.(session := a'.session, queued := a'.queued)
  }

  lemma QuietKeepsOwn(a: Side, b: Side, a': Side)
    requires Shapes(a, b) && Shapes(a', b) && Counters(a, b) && Windows(a, b)
    requires QuietChange(a, a')
    ensures Counters(a', b) && Windows(a', b)
  {
  }

  lemma QuietKeepsPeer(a: Side, b: Side, a': Side)
    requires Shapes(a, b) && Shapes(a', b) && Counters(b, a) && Windows(b, a)
    requires QuietChange(a, a')
    ensures Counters(b, a') && Windows(b, a')
  {
  }

  lemma QuietKeepsLink(a: Side, b: Side, a': Side, ab: seq<bytes>)
    requires Shapes(a, b) && Shapes(a', b) && Link(a, b, ab)
    requires QuietChange(a, a')
    ensures Link(a', b, ab)
  {
    forall i | 0 <= i < |a'.sent|
      ensures PacketFits(a', i)
    {
      assert PacketFits(a, i);
    }
  }

  lemma QuietKeepsInv(n: Net, a': Side)
    requires Inv(n) && QuietChange(n.a, a')
    requires Progress(a') == Progress(n.a)
    requires a'.session.txPending.Some? ==>
               a'.queued != [] && a'.session.txPending.value == a'.queued[|a'.queued| - 1]
    requires forall i :: 0 <= i < |a'.queued| ==> |a'.queued[i]| <= RX_REASSEMBLY_CAP
    ensures Inv(n.(a := a'))
  {
    InvParts(n);
    QuietKeepsShapes(n.a, n.b, a');
    QuietKeepsOwn(n.a, n.b, a');
    QuietKeepsPeer(n.a, n.b, a');
    QuietKeepsLink(n.a, n.b, a', n.ab);
    PeerLinkUnaffected(n.a, n.b, a', n.ba);
    assert Stream(a', n.b);
    InvOfParts(n.(a := a'));
  }

  lemma QuietKeepsShapes(a: Side, b: Side, a': Side)
    requires Shapes(a, b) && QuietChange(a, a')
    ensures Shapes(a', b)
  {
  }

  lemma QueueKeepsProgress(a: Side, a': Side, sdu: bytes)
    requires a.session.Valid() && a'.session.Valid() && a.session.txPending.None?
    requires a' == a.(session := a.session.(txPending := Some(sdu), txSent := 0), queued := a.queued + [sdu])
    ensures QuietChange(a, a') && Progress(a') == Progress(a)
  {
    assert a'.queued[..|a'.queued| - 1] == a.queued;
  }

  lemma QueueKeepsInvWith(n: Net, a': Side, sdu: bytes)
    requires Inv(n) && |sdu| <= RX_REASSEMBLY_CAP && n.a.session.txPending.None? && a'.session.Valid()
    requires a' == n.a.(session := n.a.session.(txPending := Some(sdu), txSent := 0), queued := n.a.queued + [sdu])
    ensures Inv(n.(a := a'))
  {
    InvParts(n);
    QueueKeepsProgress(n.a, a', sdu);
    QuietKeepsInv(n, a');
  }

  lemma QueueKeepsInv(n: Net, sdu: bytes)
    requires Inv(n) && |sdu| <= RX_REASSEMBLY_CAP
    ensures Inv(QueueStep(n, sdu))
  {
    if n.a.session.txPending.None? {
      QueueKeepsInvWith(n, QueueStep(n, sdu).a, sdu);
    }
  }

  lemma CompleteKeepsInv(n: Net, a': Side)
    requires Inv(n) && a' == n.a.(session := GattWriteCompleted(n.a.session))
    ensures Inv(n.(a := a'))
  {
    InvParts(n);
    QuietKeepsInv(n, a');
  }

  lemma ActKeepsInv(n: Net, e: Event, now: nat)
    requires Inv(n)
    requires e.Queue? ==> |e.sdu| <= RX_REASSEMBLY_CAP
    ensures Inv(Act(n, e, now))
  {
    match e
    case Queue(sdu) => QueueKeepsInv(n, sdu);
    case Write => WriteKeepsInv(n, now);
    case Complete => CompleteKeepsInv(n, Act(n, e, now).a);
    case Receive => ReceiveKeepsInv(n, now);
    case Timeout => TimeoutKeepsInv(n, now);
  }

  /** The invariant holds after every run. */
  lemma {:induction false} RunKeepsInv(n: Net, run: seq<Occurrence>)
    requires Inv(n) && Reasonable(run)
    ensures Inv(Run(n, run))
  {
    if run != [] {
      var before, last := Run(n, run[..|run| - 1]), run[|run| - 1];
      RunKeepsInv(n, run[..|run| - 1]);
      if last.central {
        ActKeepsInv(before, last.event, last.now);
      } else {
        ActKeepsInv(Swap(before), last.event, last.now);
      }
    }
  }
}
