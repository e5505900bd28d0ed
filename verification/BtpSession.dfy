/** The session engine as the object the client drives: the fields updated in place,
    method by method, each proved to do exactly what the corresponding function of
    `BtpEngine` says. */
module BtpSession {
  import opened Wire
  import Engine = BtpEngine

  class Session {
    const role: Engine.Role
    const segmentSize: nat
    const localWindowMax: byte
    var localWindow: byte

    // Receive path.
    var rxNextSeq: byte
    var rxBuf: bytes
    var rxExpectedLen: Option<nat>
    var unackedRx: Option<byte>
    var ackDueAt: Option<nat>

    // Outstanding packets.
    var txNextSeq: byte
    var txOldestUnacked: byte
    var txNewestUnacked: byte
    var expectingAck: bool
    var txUnackedSince: Option<nat>

    // Flow control and segmentation.
    var remoteWindow: byte
    var txPending: Option<bytes>
    var txSent: nat
    var gattInFlight: bool

    function View(): (s: Engine.Session)
      reads this
    {
      Engine.Session(role, segmentSize, localWindowMax, localWindow, rxNextSeq, rxBuf, rxExpectedLen,
                     unackedRx, ackDueAt, txNextSeq, txOldestUnacked, txNewestUnacked, expectingAck,
                     txUnackedSince, remoteWindow, txPending, txSent, gattInFlight)
    }

    predicate Valid()
      reads this
    {
      View().Valid()
    }

    constructor (role: Engine.Role, segmentSize: nat, window: byte, now: nat)
      requires segmentSize <= 65535
      ensures Valid() && View() == Engine.New(role, segmentSize, window, now)
    {
      var w: byte := if window < 1 then 1 else window;
      this.role := role;
      this.segmentSize := if segmentSize < Engine.MIN_SEGMENT_SIZE then Engine.MIN_SEGMENT_SIZE else segmentSize;
      this.localWindowMax := w;
      this.rxBuf, this.rxExpectedLen := [], None;
      this.txOldestUnacked, this.txNewestUnacked := 0, 0;
      this.remoteWindow, this.txPending, this.txSent, this.gattInFlight := w, None, 0, false;
      match role {
        case Central =>
          this.localWindow := w - 1;
          this.rxNextSeq, this.unackedRx, this.ackDueAt := 1, Some(0), Some(now + Engine.ACK_SEND_TIMEOUT);
          this.txNextSeq, this.expectingAck, this.txUnackedSince := 0, false, None;
        case Peripheral =>
          this.localWindow := w;
          this.rxNextSeq, this.unackedRx, this.ackDueAt := 0, None, None;
          this.txNextSeq, this.expectingAck, this.txUnackedSince := 1, true, Some(now);
      }
    }

    /** Credit of the remote window after acknowledgement `ack`; changes nothing. */
    method AdjustRemoteWindow(ack: byte) returns (credit: byte)
      ensures credit == Engine.AdjustRemoteWindow(localWindowMax, txNewestUnacked, ack)
    {
      var boundary: nat := ack + localWindowMax;
      var difference: int;
      if boundary > 255 && txNewestUnacked < ack {
        difference := boundary - (txNewestUnacked + 255);
      } else {
        difference := boundary - txNewestUnacked;
      }
      credit := ((difference + 65536) % 65536) % 256;
    }

    method ReceiveAck(ack: byte) returns (r: Result<(), Engine.BtpError>)
      requires Valid()
      modifies this
      ensures Valid()
      ensures match Engine.ReceiveAck(old(View()), ack)
              case Ok(s) => r == Ok(()) && View() == s
              case Err(e) => r == Err(e) && View() == old(View())
    {
      if !expectingAck {
        return Err(Engine.InvalidAck(ack));
      }
      var valid: bool;
      if txNewestUnacked >= txOldestUnacked {
        valid := ack <= txNewestUnacked && ack >= txOldestUnacked;
      } else {
        valid := ack <= txNewestUnacked || ack >= txOldestUnacked;
      }
      if !valid {
        return Err(Engine.InvalidAck(ack));
      }
      if txNewestUnacked == ack {
        txOldestUnacked := ack;
        expectingAck := false;
        txUnackedSince := None;
      } else {
        txOldestUnacked := (ack + 1) % 256;
      }
      remoteWindow := AdjustRemoteWindow(ack);
      r := Ok(());
    }

    method ArmAckTimer(now: nat)
      modifies this`ackDueAt
      ensures View() == Engine.ArmAckTimer(old(View()), now)
    {
      var candidate := if localWindow <= Engine.IMMEDIATE_ACK_THRESHOLD then now else now + Engine.ACK_SEND_TIMEOUT;
      if ackDueAt.Some? && ackDueAt.value <= candidate {
      } else {
        ackDueAt := Some(candidate);
      }
    }

    /** An accepted packet is debited from the local window and owed an acknowledgement. */
    method OweAck(num: byte, now: nat)
      modifies this
      ensures View() == Engine.OweAck(old(View()), num, now)
    {
      if localWindow > 0 {
        localWindow := localWindow - 1;
      }
      unackedRx := Some(num);
      ArmAckTimer(now);
    }

    /** Take in the data after the sequence byte. */
    method Accumulate(flags: byte, tail: bytes) returns (r: Result<(), Engine.BtpError>)
      requires Valid()
      modifies this
      ensures Valid()
      ensures match Engine.Accumulate(old(View()), flags, tail)
              case Ok(s) => r == Ok(()) && View() == s
              case Err(e) => r == Err(e) && View() == old(View())
    {
      var begin := HasFlag(flags, Engine.FLAG_START);
      var end := HasFlag(flags, Engine.FLAG_END);
      var cont := HasFlag(flags, Engine.FLAG_CONTINUE);
      if rxExpectedLen.Some? {
        if begin || !(cont || end) {
          return Err(Engine.ReassemblerInvalidState);
        }
        if |rxBuf| + |tail| > Engine.RX_REASSEMBLY_CAP {
          return Err(Engine.ReassemblyOverflow);
        }
        rxBuf := rxBuf + tail;
      } else {
        if !begin {
          return Err(Engine.ReassemblerInvalidState);
        }
        if |tail| < 2 {
          return Err(Engine.PacketTooShort);
        }
        var msgLen := FromLe(tail[..2]);
        if msgLen > Engine.RX_REASSEMBLY_CAP {
          return Err(Engine.ReassemblyOverflow);
        }
        rxExpectedLen := Some(msgLen);
        rxBuf := tail[2..];
      }
      r := Ok(());
    }

    method OnIndication(raw: bytes, now: nat) returns (r: Result<Option<bytes>, Engine.BtpError>)
      requires Valid()
      modifies this
      ensures Valid() && (View(), r) == Engine.OnIndication(old(View()), raw, now)
    {
      var packet := raw[..Min(|raw|, segmentSize)];
      if |packet| == 0 {
        return Err(Engine.PacketTooShort);
      }
      var flags := packet[0];
      var idx := 1;
      if HasFlag(flags, Engine.FLAG_ACK) {
        if |packet| <= idx {
          return Err(Engine.PacketTooShort);
        }
        var acked := ReceiveAck(packet[idx]);
        if acked.Err? {
          return Err(acked.error);
        }
        idx := 2;
      }
      r := ReceiveSequenced(flags, packet[idx..], now);
    }

    method ReceiveSequenced(flags: byte, rest: bytes, now: nat) returns (r: Result<Option<bytes>, Engine.BtpError>)
      requires Valid()
      modifies this
      ensures Valid() && (View(), r) == Engine.ReceiveSequenced(old(View()), flags, rest, now)
    {
      if |rest| == 0 {
        return Err(Engine.PacketTooShort);
      }
      var num := rest[0];
      if num != rxNextSeq {
        return Err(Engine.InvalidSequence(rxNextSeq, num));
      }
      rxNextSeq := (rxNextSeq + 1) % 256;
      r := TakeNumbered(flags, rest[1..], num, now);
    }

    method TakeNumbered(flags: byte, tail: bytes, num: byte, now: nat) returns (r: Result<Option<bytes>, Engine.BtpError>)
      requires Valid()
      modifies this
      ensures Valid() && (View(), r) == Engine.TakeNumbered(old(View()), flags, tail, num, now)
    {
      var end := HasFlag(flags, Engine.FLAG_END);
      if !HasFlag(flags, Engine.FLAG_START) && !HasFlag(flags, Engine.FLAG_CONTINUE) && !end {
        OweAck(num, now);
        return Ok(None);
      }
      var taken := Accumulate(flags, tail);
      if taken.Err? {
        return Err(taken.error);
      }
      OweAck(num, now);
      if end {
        r := Finish();
      } else {
        r := Ok(None);
      }
    }

    /** After an END fragment: check completeness, trim the padding, hand the SDU over. */
    method Finish() returns (r: Result<Option<bytes>, Engine.BtpError>)
      requires rxExpectedLen.Some?
      modifies this`rxExpectedLen, this`rxBuf
      ensures (View(), r) == Engine.Finish(old(View()))
    {
      var expected := rxExpectedLen.value;
      rxExpectedLen := None;
      if |rxBuf| < expected {
        return Err(Engine.ReassemblerInvalidState);
      }
      r := Ok(Some(rxBuf[..expected]));
      rxBuf := [];
    }

    method RegisterOutboundSeq(num: byte, now: nat)
      modifies this
      ensures View() == Engine.RegisterOutboundSeq(old(View()), num, now)
    {
      if !expectingAck {
        expectingAck := true;
        txOldestUnacked := num;
        txUnackedSince := Some(now);
      }
      txNewestUnacked := num;
      txNextSeq := (txNextSeq + 1) % 256;
    }

    method QueueMessage(sdu: bytes) returns (r: Result<(), Engine.BtpError>)
      requires Valid()
      modifies this
      ensures Valid()
      ensures match Engine.QueueMessage(old(View()), sdu)
              case Ok(s) => r == Ok(()) && View() == s
              case Err(e) => r == Err(e) && View() == old(View())
    {
      if txPending.Some? {
        return Err(Engine.MessageInFlight);
      }
      if |sdu| > Engine.MAX_SDU {
        return Err(Engine.ReassemblyOverflow);
      }
      txPending := Some(sdu);
      txSent := 0;
      r := Ok(());
    }

    /** The next data fragment, laid out; changes nothing. */
    method BuildFragment() returns (out: bytes, payloadLen: nat, end: bool)
      requires Valid() && txPending.Some?
      ensures out == Engine.NextPacket(View())
      ensures payloadLen == |Engine.NextPayload(View())| && end == Engine.IsLastFragment(View())
    {
      var msg := txPending.value;
      var sendAck := unackedRx.Some?;
      var first := txSent == 0;
      var headerLen := 1 + (if sendAck then 1 else 0) + 1 + (if first then 2 else 0);
      var remaining := |msg| - txSent;
      end := remaining + headerLen <= segmentSize;
      payloadLen := if end then remaining else segmentSize - headerLen;
      var flags: int := if first then Engine.FLAG_START else Engine.FLAG_CONTINUE;
      if end {
        flags := flags + Engine.FLAG_END;
      }
      if sendAck {
        flags := flags + Engine.FLAG_ACK;
      }
      out := [flags];
      if sendAck {
        out := out + [unackedRx.value];
      }
      out := out + [txNextSeq];
      if first {
        out := out + ToLe(|msg|, 2);
      }
      out := out + msg[txSent..txSent + payloadLen];
    }

    /** Bookkeeping of a departing packet: discharge the owed acknowledgement, register
        the sequence number, debit the remote window, latch the write slot. */
    method Depart(now: nat)
      requires remoteWindow > 0
      modifies this
      ensures View() == Engine.Depart(old(View()), now)
    {
      if unackedRx.Some? {
        unackedRx := None;
        ackDueAt := None;
        localWindow := localWindowMax;
      }
      RegisterOutboundSeq(txNextSeq, now);
      remoteWindow := remoteWindow - 1;
      gattInFlight := true;
    }

    method NextGattWrite(now: nat) returns (packet: Option<bytes>)
      requires Valid()
      modifies this
      ensures Valid() && (View(), packet) == Engine.NextGattWrite(old(View()), now)
    {
      if gattInFlight || txPending.None? {
        return None;
      }
      if remoteWindow == 0 {
        return None;
      }
      if remoteWindow <= Engine.WINDOW_NO_ACK_SEND_THRESHOLD && unackedRx.None? {
        return None;
      }
      var out, payloadLen, end := BuildFragment();
      Depart(now);
      if end {
        txPending := None;
        txSent := 0;
      } else {
        txSent := txSent + payloadLen;
      }
      packet := Some(out);
    }

    method GattWriteCompleted()
      modifies this`gattInFlight
      ensures View() == Engine.GattWriteCompleted(old(View()))
    {
      gattInFlight := false;
    }

    /** Earliest deadline of the two timers; changes nothing. */
    method PollTimeout() returns (due: Option<nat>)
      ensures due == Engine.PollTimeout(View())
    {
      due := ackDueAt;
      if expectingAck && txUnackedSince.Some? {
        var deadline := txUnackedSince.value + Engine.ACK_TIMEOUT;
        if due.None? || deadline < due.value {
          due := Some(deadline);
        }
      }
    }

    method HandleTimeout(now: nat) returns (r: Result<Option<bytes>, Engine.BtpError>)
      modifies this
      ensures (View(), r) == Engine.HandleTimeout(old(View()), now)
      ensures old(Valid()) ==> Valid()
    {
      if expectingAck && txUnackedSince.Some? && now >= txUnackedSince.value + Engine.ACK_TIMEOUT {
        return Err(Engine.AckTimedOut);
      }
      if ackDueAt.Some? && now >= ackDueAt.value {
        if unackedRx.Some? {
          if gattInFlight || remoteWindow == 0 {
            return Ok(None);
          }
          var packet := [Engine.FLAG_ACK, unackedRx.value, txNextSeq];
          Depart(now);
          return Ok(Some(packet));
        }
        ackDueAt := None;
      }
      r := Ok(None);
    }
  }
}
