/** The arithmetic under the engine's acknowledgements: byte sequence numbers
    against the unbounded numbers they stand for, and the history argument that
    rules out a mutual window deadlock. */
module BtpSequence {
  import opened Wire
  import opened BtpEngine

  // ---- Byte sequence numbers ----

  /** With packets `oldest..newest` outstanding (at most 256 of them), the byte test
      accepts the byte of `x` and recognises the newest exactly. */
  lemma AckTestIsExact(oldest: nat, newest: nat, x: nat)
    requires oldest <= x <= newest < oldest + 256
    ensures AckInInterval(oldest % 256, newest % 256, x % 256)
    ensures newest % 256 == x % 256 <==> x == newest
  {
  }

  lemma SameResidue(x: nat, y: nat)
    requires x <= y < x + 256 && x % 256 == y % 256
    ensures x == y
  {
  }

  /** The other direction: a byte the test accepts is the byte of exactly one
      outstanding packet. */
  lemma AckTestIsSound(oldest: nat, newest: nat, ack: byte) returns (x: nat)
    requires oldest <= newest < oldest + 256
    requires AckInInterval(oldest % 256, newest % 256, ack)
    ensures oldest <= x <= newest && x % 256 == ack
    ensures forall y: nat :: oldest <= y <= newest && y % 256 == ack ==> y == x
  {
    x := AckedPacket(oldest, newest, ack);
    forall y: nat | oldest <= y <= newest && y % 256 == ack
      ensures y == x
    {
      if x <= y { SameResidue(x, y); } else { SameResidue(y, x); }
    }
  }

  lemma AckedPacket(oldest: nat, newest: nat, ack: byte) returns (x: nat)
    requires oldest <= newest < oldest + 256
    requires AckInInterval(oldest % 256, newest % 256, ack)
    ensures oldest <= x <= newest && x % 256 == ack
  {
    x := oldest - oldest % 256 + ack;
    if x < oldest { x := x + 256; }
    assert x % 256 == ack by { assert x == 256 * (x / 256) + x % 256; }
  }

  /** The credit after an acknowledgement of `x` when `newest` is the newest packet
      sent: the window less what is still outstanding, plus one when the newest
      byte has wrapped past the acknowledged one. */
  lemma CreditAfterAck(window: byte, newest: nat, x: nat)
    requires x <= newest <= x + window
    ensures AdjustRemoteWindow(window, newest % 256, x % 256)
         == window - (newest - x) + (if newest % 256 < x % 256 then 1 else 0)
    ensures newest % 256 < x % 256 ==> newest > x
  {
    var n, k := newest / 256, x / 256;
    assert k <= n <= k + 1;
  }

  lemma NextSeqIsSuccessor(n: nat)
    ensures NextSeq(n % 256) == (n + 1) % 256
  {
  }

  /** What an acknowledgement of packet `x` does to a session with packets
      `la..newest` outstanding. */
  lemma AckOutcome(s: Session, la: nat, newest: nat, x: nat)
    requires la <= x <= newest <= la + s.localWindowMax
    requires s.expectingAck && s.txOldestUnacked == la % 256 && s.txNewestUnacked == newest % 256
    ensures var r := ReceiveAck(s, x % 256);
            && r.Ok?
            && r.value == s.(txOldestUnacked := r.value.txOldestUnacked, expectingAck := x < newest,
                             txUnackedSince := if x < newest then s.txUnackedSince else None,
                             remoteWindow := r.value.remoteWindow)
            && (x < newest ==> r.value.txOldestUnacked == (x + 1) % 256)
            && r.value.remoteWindow == s.localWindowMax - (newest - x)
                                       + (if newest % 256 < x % 256 then 1 else 0)
            && (newest % 256 < x % 256 ==> newest > x)
  {
    AckTestIsExact(la, newest, x);
    CreditAfterAck(s.localWindowMax, newest, x);
    NextSeqIsSuccessor(x);
  }

  // ---- Heard histories ----
  //
  // `h[i]` is how many packets of the peer had been received when packet `i` was
  // sent.  A departing packet always acknowledges everything owed, so `h[i]` is
  // also the cumulative acknowledgement the peer holds after receiving packet `i`,
  // and packet `i` carries an acknowledgement exactly when `h` grows at `i`.

  function Cumulative(h: seq<nat>, n: nat): (r: nat)
    requires n <= |h|
  {
    if n == 0 then 0 else h[n - 1]
  }

  predicate Carries(h: seq<nat>, i: nat)
    requires i < |h|
  {
    Cumulative(h, i) < h[i]
  }

  predicate Monotone(h: seq<nat>)
  {
    forall i, j :: 0 <= i <= j < |h| ==> h[i] <= h[j]
  }

  /** Packet `la` had already been sent when every packet acknowledging up to `la`
      arrived: the situation in which the credit formula grants its extra slot. */
  predicate SentBeforeAcked(mine: seq<nat>, peer: seq<nat>, la: nat, received: nat)
    requires received <= |peer|
  {
    && 1 <= la < |mine|
    && forall q :: 0 <= q < received && peer[q] == la ==> mine[la] <= q
  }

  /** What the send gate guaranteed about packet `i` when it departed. */
  predicate Departure(mine: seq<nat>, peer: seq<nat>, w: nat, i: nat)
    requires i < |mine| && mine[i] <= |peer|
  {
    var la := Cumulative(peer, mine[i]);
    && la <= i <= la + w
    && (i == la + w ==> Carries(mine, i) && SentBeforeAcked(mine, peer, la, mine[i]))
    && (w == 1 && i >= 1 ==> i == la)
  }

  predicate Departures(mine: seq<nat>, peer: seq<nat>, w: nat)
  {
    forall i :: 0 <= i < |mine| ==> mine[i] <= |peer| && Departure(mine, peer, w, i)
  }

  /** Two histories that respect the send gate never leave both windows closed at
      once with nothing in flight.  Otherwise each side's last packet would cross
      the other's, both acknowledging exactly one packet of a window plus one; the
      packet before last would then have needed an acknowledgement of its own. */
  lemma NoMutualClosure(mine: seq<nat>, peer: seq<nat>, w: nat)
    requires w >= 1 && |mine| > 0 && |peer| > 0
    requires Monotone(mine) && Monotone(peer)
    requires Departures(mine, peer, w) && Departures(peer, mine, w)
    requires Carries(mine, |mine| - 1) && Carries(peer, |peer| - 1)
    ensures Cumulative(peer, |peer|) + w > |mine| || Cumulative(mine, |mine|) + w > |peer|
  {
  }
}
