/** The client's send loop: flush every fragment the session permits, emit a due
    standalone ack, and say what to wait for.  The clock and the outcome of each GATT
    write are arbitrary. */
module BtpCentral {
  import opened Wire
  import Engine = BtpEngine
  import opened BtpSession

  datatype Wake = At(due: nat) | Retry | Idle

  datatype CentralError = Gatt | Btp(error: Engine.BtpError)

  /** The engine after it was asked for a fragment at each of `times`, the slot being released
      before every further request, and the packets it gave.  The last write is still in
      flight. */
  function Written(s: Engine.Session, times: seq<nat>): (r: (Engine.Session, seq<bytes>))
    requires s.Valid()
    ensures r.0.Valid() && |r.1| <= |times|
  {
    if times == [] then (s, [])
    else
      var (before, packets) := Written(s, times[..|times| - 1]);
      var (after, packet) := Engine.NextGattWrite(Engine.GattWriteCompleted(before), times[|times| - 1]);
      (after, packets + (if packet.Some? then [packet.value] else []))
  }

  predicate NotBefore(times: seq<nat>, start: nat)
  {
    forall i :: 0 <= i < |times| ==> times[i] >= start
  }

  /** The slot is free again unless the write in it failed. */
  function Settled(s: Engine.Session, ok: bool): (r: Engine.Session)
  {
    if ok then Engine.GattWriteCompleted(s) else s
  }

  lemma WriteOneMore(s: Engine.Session, times: seq<nat>, now: nat)
    requires s.Valid()
    ensures var (before, packets) := Written(s, times);
            var (after, packet) := Engine.NextGattWrite(Engine.GattWriteCompleted(before), now);
            Written(s, times + [now]) == (after, packets + (if packet.Some? then [packet.value] else []))
  {
    assert (times + [now])[..|times|] == times;
  }

  /** Every write is paid for by the remote window and discharges what was owed. */
  lemma {:induction false} WritesCost(s: Engine.Session, times: seq<nat>)
    requires s.Valid() && |Written(s, times).1| == |times|
    ensures Written(s, times).0.remoteWindow == s.remoteWindow - |times|
    ensures times != [] ==> Written(s, times).0.gattInFlight && Written(s, times).0.unackedRx.None?
  {
    if times != [] {
      WritesCost(s, times[..|times| - 1]);
      WriteCosts(Engine.GattWriteCompleted(Written(s, times[..|times| - 1]).0), times[|times| - 1]);
    }
  }

  lemma WriteCosts(s: Engine.Session, now: nat)
    requires s.Valid() && Engine.NextGattWrite(s, now).1.Some?
    ensures var s' := Engine.NextGattWrite(s, now).0;
            s.remoteWindow > 0 && s'.remoteWindow == s.remoteWindow - 1 && s'.gattInFlight && s'.unackedRx.None?
  {
  }

  /** Write one fragment and release the in-flight slot; a failed write keeps it latched. */
  method WriteFragment(session: Session) returns (ok: bool)
    modifies session`gattInFlight
    ensures session.View() == if ok then Engine.GattWriteCompleted(old(session.View())) else old(session.View())
  {
    ok := *;
    if ok {
      session.GattWriteCompleted();
    }
  }

  /** Take the next fragment and write it, if there is one. */
  method WriteNext(session: Session, now: nat) returns (fragment: Option<bytes>, ok: bool)
    requires session.Valid() && !session.gattInFlight
    modifies session
    ensures session.Valid() && fragment == Engine.NextGattWrite(old(session.View()), now).1
    ensures fragment.None? ==> ok && session.View() == old(session.View()) && !Engine.MayWrite(session.View())
    ensures fragment.Some? ==> session.View() == Settled(Engine.NextGattWrite(old(session.View()), now).0, ok)
                               && session.remoteWindow < old(session.remoteWindow)
  {
    fragment := session.NextGattWrite(now);
    ok := true;
    if fragment.Some? {
      ok := WriteFragment(session);
    }
  }

  /** Write fragments until the session withholds the next one; `times` are the clock's
      readings at the writes. */
  method FlushFragments(session: Session, start: nat)
    returns (ok: bool, fragments: seq<bytes>, now: nat, ghost times: seq<nat>)
    requires session.Valid() && !session.gattInFlight
    modifies session
    ensures session.Valid() && now >= start && NotBefore(times, start)
    ensures |times| == |fragments| && fragments == Written(old(session.View()), times).1
    ensures session.View() == Settled(Written(old(session.View()), times).0, ok)
    ensures ok ==> !Engine.MayWrite(session.View())
    ensures !ok ==> fragments != []
  {
    ghost var before := session.View();
    fragments, now, times, ok := [], start, [], true;
    while true
      invariant session.Valid() && now >= start && ok && NotBefore(times, start)
      invariant |times| == |fragments| && fragments == Written(before, times).1
      invariant session.View() == Settled(Written(before, times).0, true)
      decreases session.remoteWindow
    {
      now :| now >= start;
      var fragment;
      fragment, ok := WriteNext(session, now);
      if fragment.None? {
        return;
      }
      WriteOneMore(before, times, now);
      fragments, times := fragments + [fragment.value], times + [now];
      if !ok {
        return;
      }
    }
  }

  /** A standalone ack is sent for the newest packet received, costs one slot of the window,
      and leaves nothing more to write. */
  lemma AckCosts(s: Engine.Session, now: nat)
    requires s.Valid() && !s.gattInFlight && !Engine.MayWrite(s)
    requires Engine.HandleTimeout(s, now).1.Ok? && Engine.HandleTimeout(s, now).1.value.Some?
    ensures s.unackedRx.Some? && s.remoteWindow > 0
    ensures Engine.HandleTimeout(s, now).1.value == Some([Engine.FLAG_ACK, s.unackedRx.value, s.txNextSeq])
    ensures var s' := Engine.HandleTimeout(s, now).0;
            && s'.remoteWindow == s.remoteWindow - 1 && s'.gattInFlight && s'.unackedRx.None?
            && !Engine.MayWrite(Settled(s', true))
  {
  }

  /** What the loop's answer says about the session at time `now`. */
  predicate Means(s: Engine.Session, r: Result<Wake, CentralError>, now: nat)
  {
    match r
    case Ok(Idle) => s.unackedRx.None? && !s.expectingAck
    case Ok(Retry) => s.remoteWindow == 0 && s.unackedRx.Some? && s.ackDueAt.Some? && s.ackDueAt.value <= now
                      && (s.expectingAck ==> s.txUnackedSince.Some? && now < s.txUnackedSince.value + Engine.ACK_TIMEOUT)
    case Ok(At(due)) => Engine.PollTimeout(s) == Some(due) && now < due
    case Err(Btp(e)) => e == Engine.AckTimedOut && s.expectingAck && s.txUnackedSince.Some?
                        && s.txUnackedSince.value + Engine.ACK_TIMEOUT <= now
    case Err(Gatt) => s.gattInFlight
  }

  lemma NothingDueMeans(s: Engine.Session, now: nat)
    requires s.Valid()
    ensures match Engine.PollTimeout(s)
            case None => Means(s, Ok(Idle), now)
            case Some(due) => now < due ==> Means(s, Ok(At(due)), now)
  {
  }

  /** At a due deadline that gives no ack the session is dead or its ack is blocked by the
      window. */
  lemma NoAckMeans(s: Engine.Session, now: nat)
    requires s.Valid() && !s.gattInFlight
    requires Engine.PollTimeout(s).Some? && Engine.PollTimeout(s).value <= now
    ensures var (s', r) := Engine.HandleTimeout(s, now);
            && (r.Err? ==> s' == s && Means(s, Err(Btp(r.error)), now))
            && (r == Ok(None) ==> s' == s && Means(s, Ok(Retry), now))
            && (r.Ok? ==> s.unackedRx.Some?)
  {
  }

  /** Serve a due deadline and write the ack it gives, if any; `ok` says whether that write
      went through. */
  method SendDueAck(session: Session, now: nat) returns (r: Result<Option<bytes>, Engine.BtpError>, ok: bool)
    requires session.Valid() && !session.gattInFlight
    requires Engine.PollTimeout(session.View()).Some? && Engine.PollTimeout(session.View()).value <= now
    modifies session
    ensures session.Valid() && r == Engine.HandleTimeout(old(session.View()), now).1
    ensures r.Ok? && r.value.Some? ==>
              session.View() == Settled(Engine.HandleTimeout(old(session.View()), now).0, ok)
    ensures r.Err? || r.value.None? ==> session.View() == old(session.View())
  {
    NoAckMeans(session.View(), now);
    r := session.HandleTimeout(now);
    ok := true;
    if r.Ok? && r.value.Some? {
      ok := WriteFragment(session);
    }
  }

  /** `s` is where the timers leave the engine that was in state `before`: unchanged, or with
      the one ack they gave at `sentAt` written. */
  predicate Served(before: Engine.Session, s: Engine.Session, ack: Option<bytes>, sentAt: nat, ok: bool)
  {
    if ack.None? then s == before
    else Engine.HandleTimeout(before, sentAt).1 == Ok(ack) && s == Settled(Engine.HandleTimeout(before, sentAt).0, ok)
  }

  /** One turn: an answer, or an ack written and the timers to be looked at again. */
  method ServeOnce(session: Session, start: nat)
    returns (r: Option<Result<Wake, CentralError>>, ack: Option<bytes>, now: nat)
    requires session.Valid() && !session.gattInFlight
    modifies session
    ensures session.Valid() && now >= start
    ensures Served(old(session.View()), session.View(), ack, now, r.None?)
    ensures ack.None? ==> r.Some? && r.value != Err(Gatt) && Means(session.View(), r.value, now)
    ensures ack.Some? ==> (r.None? || r == Some(Err(Gatt))) && old(session.unackedRx).Some?
  {
    ack, now := None, start;
    var due := session.PollTimeout();
    NothingDueMeans(session.View(), now);
    if due.None? {
      r := Some(Ok(Idle));
      return;
    }
    now :| now >= start;
    NothingDueMeans(session.View(), now);
    if due.value > now {
      r := Some(Ok(At(due.value)));
      return;
    }
    var later: nat :| later >= now;
    now := later;
    NoAckMeans(session.View(), now);
    var emitted, ok := SendDueAck(session, now);
    match emitted {
      case Err(e) =>
        r := Some(Err(Btp(e)));
      case Ok(None) =>
        r := Some(Ok(Retry));
      case Ok(Some(packet)) =>
        ack := Some(packet);
        r := if ok then None else Some(Err(Gatt));
    }
  }

  /** Emit a due standalone ack, then decide what to wait for; `sentAt` is when it was sent. */
  method ServeTimers(session: Session, start: nat)
    returns (r: Result<Wake, CentralError>, ack: Option<bytes>, now: nat, ghost sentAt: nat)
    requires session.Valid() && !session.gattInFlight && !Engine.MayWrite(session.View())
    modifies session
    ensures session.Valid() && now >= start && sentAt >= start
    ensures Served(old(session.View()), session.View(), ack, sentAt, r != Err(Gatt))
    ensures r == Err(Gatt) ==> ack.Some?
    ensures r.Ok? ==> !Engine.MayWrite(session.View())
    ensures Means(session.View(), r, now)
  {
    ghost var before := session.View();
    ack, now, sentAt := None, start, start;
    while true
      invariant session.Valid() && !session.gattInFlight && now >= start && sentAt >= start
      invariant !Engine.MayWrite(session.View())
      invariant Served(before, session.View(), ack, sentAt, true)
      invariant ack.Some? ==> session.unackedRx.None?
      decreases ack.None?
    {
      var answer, packet;
      answer, packet, now := ServeOnce(session, start);
      if packet.Some? {
        AckCosts(before, now);
        ack, sentAt := packet, now;
      }
      if answer.Some? {
        r := answer.value;
        return;
      }
    }
  }

  /** The whole loop; `fragments` and `ack` are what was written, `times` and `sentAt` when. */
  method DriveOutbound(session: Session, start: nat)
    returns (r: Result<Wake, CentralError>, fragments: seq<bytes>, ack: Option<bytes>, now: nat,
             ghost times: seq<nat>, ghost sentAt: nat)
    requires session.Valid() && !session.gattInFlight
    modifies session
    ensures session.Valid() && now >= start && sentAt >= start && NotBefore(times, start)
    // What was written is what the engine gave when asked again after every completed write, and
    // the session is left as those requests leave the engine.
    ensures |times| == |fragments| && fragments == Written(old(session.View()), times).1
    ensures r == Err(Gatt) && ack.None? ==> session.View() == Written(old(session.View()), times).0
    ensures r != Err(Gatt) || ack.Some? ==>
              Served(Settled(Written(old(session.View()), times).0, true), session.View(), ack, sentAt, r != Err(Gatt))
    // Every write is paid for by the remote window, so there are at most that many.
    ensures session.remoteWindow == old(session.remoteWindow) - |fragments| - (if ack.Some? then 1 else 0)
    // At most one standalone ack, only when no fragment carried it, for the newest packet received.
    ensures ack.Some? ==> fragments == [] && old(session.unackedRx).Some?
                          && ack.value == [Engine.FLAG_ACK, old(session.unackedRx).value, old(session.txNextSeq)]
    // The slot is free again unless a write failed.
    ensures session.gattInFlight <==> r == Err(Gatt)
    // Nothing more may be written, and the answer says what is left to wait for.
    ensures r.Ok? ==> !Engine.MayWrite(session.View())
    ensures Means(session.View(), r, now)
  {
    var ok;
    ack, sentAt := None, start;
    ok, fragments, now, times := FlushFragments(session, start);
    WritesCost(old(session.View()), times);
    if !ok {
      r := Err(Gatt);
      return;
    }
    ghost var flushed := session.View();
    r, ack, now, sentAt := ServeTimers(session, now);
    if ack.Some? {
      AckCosts(flushed, sentAt);
    }
  }
}
