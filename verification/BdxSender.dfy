/** The receiver-driven sender: a state machine that serves an image block by block. */
module BdxSender {
  import opened Wire
  import opened BdxMessages

  datatype State = AwaitingInit | Sending | AwaitingEofAck | Complete | Aborted

  datatype Status = UnexpectedMessage | TransferMethodNotSupported | BadBlockCounter

  datatype MessageType = ReceiveAcceptType | BlockType | BlockEofType

  datatype Outcome = Send(messageType: MessageType, payload: bytes) | Done | Abort(status: Status)

  const RECEIVER_DRIVE: byte := 0x20
  const COUNTERS: nat := 0x1_0000_0000

  datatype Sender = Sender(image: bytes, maxBlockSize: nat, offset: nat, nextCounter: nat, lastCounter: nat, state: State)

  predicate Valid(s: Sender)
  {
    s.offset <= |s.image| && s.nextCounter < COUNTERS && s.maxBlockSize < 0x1_0000
  }

  function New(image: bytes, maxBlockSize: nat): (s: Sender)
  {
    Sender(image, maxBlockSize, 0, 0, 0, AwaitingInit)
  }

  function Refuse(s: Sender, status: Status): (r: (Sender, Outcome))
  {
    (s.(state := Aborted), Abort(status))
  }

  function AcceptOf(s: Sender, size: nat): (m: ReceiveAccept)
  {
    ReceiveAccept(Proposal(RECEIVER_DRIVE, 0, size, 0, Min(|s.image|, 0xFFFF_FFFF_FFFF_FFFF)), [])
  }

  function AcceptReceiveInit(s: Sender, init: TransferInit): (r: (Sender, Outcome))
    requires Valid(s)
    ensures Valid(r.0)
  {
    if s.state != AwaitingInit then Refuse(s, UnexpectedMessage)
    else if !HasFlag(init.proposal.control, RECEIVER_DRIVE) then Refuse(s, TransferMethodNotSupported)
    else
      var size := Min(init.proposal.maxBlockSize, s.maxBlockSize);
      (s.(maxBlockSize := size, state := Sending), Send(ReceiveAcceptType, EncodeReceiveAccept(AcceptOf(s, size))))
  }

  /** Where the next block ends. */
  function BlockEnd(s: Sender): (end: nat)
  {
    Min(s.offset + s.maxBlockSize, |s.image|)
  }

  function HandleBlockQuery(s: Sender, counter: nat): (r: (Sender, Outcome))
    requires Valid(s)
    ensures Valid(r.0)
  {
    if s.state != Sending then Refuse(s, UnexpectedMessage)
    else if counter != s.nextCounter then Refuse(s, BadBlockCounter)
    else
      var end := BlockEnd(s);
      var eof := end == |s.image|;
      (s.(offset := end, lastCounter := s.nextCounter, nextCounter := (s.nextCounter + 1) % COUNTERS,
          state := if eof then AwaitingEofAck else Sending),
       Send(if eof then BlockEofType else BlockType, ToLe(s.nextCounter, 4) + s.image[s.offset..end]))
  }

  function HandleBlockAckEof(s: Sender, counter: nat): (r: (Sender, Outcome))
    requires Valid(s)
    ensures Valid(r.0)
  {
    if s.state != AwaitingEofAck then Refuse(s, UnexpectedMessage)
    else if counter != s.lastCounter then Refuse(s, BadBlockCounter)
    else (s.(state := Complete), Done)
  }

  /** The sender as an object that its handlers update. */
  class BlockSender {
    const image: bytes
    var maxBlockSize: nat
    var offset: nat
    var nextBlockCounter: nat
    var lastBlockCounter: nat
    var state: State

    ghost function View(): (s: Sender)
      reads this
    {
      Sender(image, maxBlockSize, offset, nextBlockCounter, lastBlockCounter, state)
    }

    constructor (image: bytes, maxBlockSize: nat)
      ensures View() == New(image, maxBlockSize)
    {
      this.image := image;
      this.maxBlockSize := maxBlockSize;
      offset, nextBlockCounter, lastBlockCounter := 0, 0, 0;
      state := AwaitingInit;
    }

    method Stop(status: Status) returns (o: Outcome)
      modifies this`state
      ensures (View(), o) == Refuse(old(View()), status)
    {
      state := Aborted;
      return Abort(status);
    }

    method AcceptInit(init: TransferInit) returns (o: Outcome)
      requires Valid(View())
      modifies this
      ensures (View(), o) == AcceptReceiveInit(old(View()), init)
    {
      if state != AwaitingInit {
        o := Stop(UnexpectedMessage);
        return;
      }
      if !HasFlag(init.proposal.control, RECEIVER_DRIVE) {
        o := Stop(TransferMethodNotSupported);
        return;
      }
      var negotiated := if init.proposal.maxBlockSize < maxBlockSize then init.proposal.maxBlockSize else maxBlockSize;
      maxBlockSize := negotiated;
      var length := if |image| <= 0xFFFF_FFFF_FFFF_FFFF then |image| else 0xFFFF_FFFF_FFFF_FFFF;
      state := Sending;
      return Send(ReceiveAcceptType,
                  EncodeReceiveAccept(ReceiveAccept(Proposal(RECEIVER_DRIVE, 0, negotiated, 0, length), [])));
    }

    method BlockQuery(counter: nat) returns (o: Outcome)
      requires Valid(View())
      modifies this
      ensures (View(), o) == HandleBlockQuery(old(View()), counter)
    {
      if state != Sending {
        o := Stop(UnexpectedMessage);
        return;
      }
      if counter != nextBlockCounter {
        o := Stop(BadBlockCounter);
        return;
      }
      var end := if offset + maxBlockSize < |image| then offset + maxBlockSize else |image|;
      var eof := end == |image|;
      var payload := ToLe(nextBlockCounter, 4);
      payload := payload + image[offset..end];
      offset := end;
      lastBlockCounter := nextBlockCounter;
      nextBlockCounter := (nextBlockCounter + 1) % COUNTERS;
      if eof {
        state := AwaitingEofAck;
        return Send(BlockEofType, payload);
      }
      return Send(BlockType, payload);
    }

    method BlockAckEof(counter: nat) returns (o: Outcome)
      requires Valid(View())
      modifies this
      ensures (View(), o) == HandleBlockAckEof(old(View()), counter)
    {
      if state != AwaitingEofAck {
        o := Stop(UnexpectedMessage);
        return;
      }
      if counter != lastBlockCounter {
        o := Stop(BadBlockCounter);
        return;
      }
      state := Complete;
      return Done;
    }
  }

  // ---- Every run ----

  datatype Call = Init(init: TransferInit) | Query(counter: nat) | AckEof(counter: nat)

  function Handle(s: Sender, c: Call): (r: (Sender, Outcome))
    requires Valid(s)
    ensures Valid(r.0)
  {
    match c
    case Init(init) => AcceptReceiveInit(s, init)
    case Query(counter) => HandleBlockQuery(s, counter)
    case AckEof(counter) => HandleBlockAckEof(s, counter)
  }

  /** The state after a sequence of calls. */
  function After(s: Sender, calls: seq<Call>): (t: Sender)
    requires Valid(s)
    ensures Valid(t)
    decreases |calls|
  {
    if calls == [] then s else Handle(After(s, calls[..|calls| - 1]), calls[|calls| - 1]).0
  }

  /** The messages sent, one outcome per call. */
  function Outcomes(s: Sender, calls: seq<Call>): (os: seq<Outcome>)
    requires Valid(s)
    ensures |os| == |calls|
    decreases |calls|
  {
    if calls == [] then []
    else
      var before := calls[..|calls| - 1];
      Outcomes(s, before) + [Handle(After(s, before), calls[|calls| - 1]).1]
  }

  predicate IsBlock(o: Outcome)
  {
    o.Send? && (o.messageType == BlockType || o.messageType == BlockEofType)
  }

  /** The image bytes in one message, read back from it. */
  function DataOf(o: Outcome): (s: bytes)
  {
    if IsBlock(o) && DecodeBlock(o.payload).Ok? then DecodeBlock(o.payload).value.data else []
  }

  /** The image bytes in all that was sent. */
  function Delivered(os: seq<Outcome>): (s: bytes)
    decreases |os|
  {
    if os == [] then [] else Delivered(os[..|os| - 1]) + DataOf(os[|os| - 1])
  }

  predicate Over(s: Sender)
  {
    s.state == Complete || s.state == Aborted
  }

  predicate AllSent(s: Sender)
  {
    s.state == AwaitingEofAck || s.state == Complete
  }

  /** The end of the image is announced exactly when it is reached. */
  predicate Consistent(s: Sender)
  {
    AllSent(s) ==> s.offset == |s.image|
  }

  lemma QuerySends(s: Sender, counter: nat)
    requires Valid(s) && s.state == Sending && counter == s.nextCounter
    ensures var (t, o) := HandleBlockQuery(s, counter);
            && t.offset == BlockEnd(s) >= s.offset
            && DecodeBlock(o.payload) == Ok(DataBlock(s.nextCounter, s.image[s.offset..t.offset]))
            && o.payload == EncodeBlock(DataBlock(s.nextCounter, s.image[s.offset..t.offset]))
  {
    BlockRoundTrip(DataBlock(s.nextCounter, s.image[s.offset..BlockEnd(s)]));
  }

  /** What one call does to the image and how much of it leaves. */
  predicate SendsNext(s: Sender, t: Sender, o: Outcome)
    requires Valid(s) && Valid(t)
  {
    && t.image == s.image && s.offset <= t.offset && Consistent(t)
    && DataOf(o) == s.image[s.offset..t.offset]
    && (o.Send? && o.messageType == BlockEofType ==> t.offset == |s.image|)
  }

  lemma InitSendsNothing(s: Sender, init: TransferInit)
    requires Valid(s) && Consistent(s)
    ensures SendsNext(s, AcceptReceiveInit(s, init).0, AcceptReceiveInit(s, init).1)
  {
  }

  lemma QuerySendsNext(s: Sender, counter: nat)
    requires Valid(s) && Consistent(s)
    ensures SendsNext(s, HandleBlockQuery(s, counter).0, HandleBlockQuery(s, counter).1)
  {
    if s.state == Sending && counter == s.nextCounter {
      QuerySends(s, counter);
    }
  }

  lemma AckEofSendsNothing(s: Sender, counter: nat)
    requires Valid(s) && Consistent(s)
    ensures SendsNext(s, HandleBlockAckEof(s, counter).0, HandleBlockAckEof(s, counter).1)
  {
  }

  lemma HandleSends(s: Sender, c: Call)
    requires Valid(s) && Consistent(s)
    ensures SendsNext(s, Handle(s, c).0, Handle(s, c).1)
  {
    match c
    case Init(init) => InitSendsNothing(s, init);
    case Query(counter) => QuerySendsNext(s, counter);
    case AckEof(counter) => AckEofSendsNothing(s, counter);
  }

  lemma {:induction false} RunSends(s: Sender, calls: seq<Call>)
    requires Valid(s) && Consistent(s)
    ensures var t := After(s, calls);
            && t.image == s.image && s.offset <= t.offset && Consistent(t)
            && Delivered(Outcomes(s, calls)) == s.image[s.offset..t.offset]
    decreases |calls|
  {
    if calls != [] {
      var before, c := calls[..|calls| - 1], calls[|calls| - 1];
      RunSends(s, before);
      var t, os := After(s, before), Outcomes(s, before);
      HandleSends(t, c);
      DeliveredMore(os, Handle(t, c).1);
      Pieces(s.image, s.offset, t.offset, Handle(t, c).0.offset);
    }
  }

  lemma DeliveredMore(os: seq<Outcome>, o: Outcome)
    ensures Delivered(os + [o]) == Delivered(os) + DataOf(o)
  {
  }

  lemma Pieces(s: bytes, a: nat, b: nat, c: nat)
    requires a <= b <= c <= |s|
    ensures s[a..b] + s[b..c] == s[a..c]
  {
  }

  /** In every run, what was sent is a beginning of the image, and all of it once the end was
      announced. */
  lemma DeliveredIsPrefix(image: bytes, size: nat, calls: seq<Call>)
    requires size < 0x1_0000
    ensures var s, os := After(New(image, size), calls), Outcomes(New(image, size), calls);
            && Delivered(os) <= image
            && (AllSent(s) ==> Delivered(os) == image)
  {
    RunSends(New(image, size), calls);
  }

  // ---- When a call is refused ----

  /** How many blocks have been sent. */
  function Blocks(os: seq<Outcome>): (n: nat)
    decreases |os|
  {
    if os == [] then 0 else Blocks(os[..|os| - 1]) + (if IsBlock(os[|os| - 1]) then 1 else 0)
  }

  predicate IsSent(o: Outcome, t: MessageType)
  {
    o.Send? && o.messageType == t
  }

  /** The proposal was accepted and only blocks followed. */
  predicate Serving(os: seq<Outcome>)
  {
    os != [] && IsSent(os[0], ReceiveAcceptType) && BlocksFollow(os)
  }

  predicate BlocksFollow(os: seq<Outcome>)
  {
    forall i :: 1 <= i < |os| ==> IsSent(os[i], BlockType)
  }

  /** The last thing sent was the block that ends the image. */
  predicate Ended(os: seq<Outcome>)
  {
    |os| > 1 && Serving(os[..|os| - 1]) && IsSent(os[|os| - 1], BlockEofType)
  }

  /** The state, told from what was sent. */
  predicate Tells(os: seq<Outcome>, s: Sender)
  {
    && (s.state == AwaitingInit <==> os == [])
    && (s.state == Sending <==> Serving(os))
    && (s.state == AwaitingEofAck <==> Ended(os))
    && s.nextCounter == Blocks(os) % 0x1_0000_0000
    && (Blocks(os) > 0 ==> s.lastCounter == (Blocks(os) - 1) % 0x1_0000_0000)
  }

  lemma BlocksFollowMore(os: seq<Outcome>, o: Outcome)
    requires os != []
    ensures BlocksFollow(os + [o]) <==> BlocksFollow(os) && IsSent(o, BlockType)
  {
    var qs := os + [o];
    assert qs[|os|] == o;
    assert forall i :: 1 <= i < |os| ==> qs[i] == os[i];
  }

  lemma {:induction false} ServingMore(os: seq<Outcome>, o: Outcome)
    ensures Serving(os + [o]) <==> (if os == [] then IsSent(o, ReceiveAcceptType) else Serving(os) && IsSent(o, BlockType))
  {
    var qs := os + [o];
    assert qs[|os|] == o;
    if os != [] {
      BlocksFollowMore(os, o);
      assert qs[0] == os[0];
    }
  }

  lemma {:induction false} EndedMore(os: seq<Outcome>, o: Outcome)
    ensures Ended(os + [o]) <==> Serving(os) && IsSent(o, BlockEofType)
    ensures Blocks(os + [o]) == Blocks(os) + (if IsBlock(o) then 1 else 0)
  {
    var qs := os + [o];
    assert qs[..|os|] == os && qs[|os|] == o;
  }

  lemma CounterStep(n: nat)
    ensures (n % 0x1_0000_0000 + 1) % 0x1_0000_0000 == (n + 1) % 0x1_0000_0000
  {
  }

  lemma CallTells(os: seq<Outcome>, s: Sender, c: Call)
    requires Valid(s) && Tells(os, s)
    ensures Tells(os + [Handle(s, c).1], Handle(s, c).0)
  {
    ServingMore(os, Handle(s, c).1);
    EndedMore(os, Handle(s, c).1);
    CounterStep(Blocks(os));
    if os != [] {
      assert Serving(os) ==> !Ended(os);
    }
  }

  lemma {:induction false} RunTells(image: bytes, size: nat, calls: seq<Call>)
    requires size < 0x1_0000
    ensures Tells(Outcomes(New(image, size), calls), After(New(image, size), calls))
    decreases |calls|
  {
    if calls != [] {
      var before := calls[..|calls| - 1];
      RunTells(image, size, before);
      CallTells(Outcomes(New(image, size), before), After(New(image, size), before), calls[|calls| - 1]);
    }
  }

  /** What the answer to a call must be after `os` was sent: a proposal first, and only with
      receiver drive (bit 5); queries while blocks remain, each for the block not yet sent; one
      acknowledgement of the last block. */
  predicate Answers(os: seq<Outcome>, c: Call, o: Outcome)
  {
    match c
    case Init(init) =>
      && (o == Abort(UnexpectedMessage) <==> os != [])
      && (o == Abort(TransferMethodNotSupported) <==> os == [] && (init.proposal.control / 32) % 2 == 0)
      && (IsSent(o, ReceiveAcceptType) <==> os == [] && (init.proposal.control / 32) % 2 == 1)
    case Query(counter) =>
      && (o == Abort(UnexpectedMessage) <==> !Serving(os))
      && (o == Abort(BadBlockCounter) <==> Serving(os) && counter != Blocks(os) % 0x1_0000_0000)
      && (IsBlock(o) <==> Serving(os) && counter == Blocks(os) % 0x1_0000_0000)
    case AckEof(counter) =>
      && (o == Abort(UnexpectedMessage) <==> !Ended(os))
      && (o == Abort(BadBlockCounter) <==> Ended(os) && counter != (Blocks(os) - 1) % 0x1_0000_0000)
      && (o == Done <==> Ended(os) && counter == (Blocks(os) - 1) % 0x1_0000_0000)
  }

  lemma EndedHasBlocks(os: seq<Outcome>)
    requires Ended(os)
    ensures Blocks(os) > 0
  {
  }

  lemma HandleAnswers(os: seq<Outcome>, s: Sender, c: Call)
    requires Valid(s) && Tells(os, s)
    ensures Answers(os, c, Handle(s, c).1)
  {
    if Ended(os) { EndedHasBlocks(os); }
  }

  /** In every run each call is answered or refused as it must be. */
  lemma RunAnswers(image: bytes, size: nat, calls: seq<Call>, c: Call)
    requires size < 0x1_0000
    ensures Answers(Outcomes(New(image, size), calls), c, Handle(After(New(image, size), calls), c).1)
  {
    RunTells(image, size, calls);
    HandleAnswers(Outcomes(New(image, size), calls), After(New(image, size), calls), c);
  }

  /** Once aborted or complete, every call is refused and nothing is sent. */
  lemma {:induction false} NothingAfterTheEnd(s: Sender, calls: seq<Call>, i: nat)
    requires Valid(s) && Over(s) && i < |calls|
    ensures Over(After(s, calls)) && Outcomes(s, calls)[i] == Abort(UnexpectedMessage)
    decreases |calls|
  {
    var before := calls[..|calls| - 1];
    if i < |before| {
      NothingAfterTheEnd(s, before, i);
    } else if before != [] {
      NothingAfterTheEnd(s, before, 0);
    }
  }

  // ---- The whole transfer ----

  /** How many blocks an image takes. */
  function BlockCount(len: nat, size: nat): (n: nat)
    requires size > 0
    ensures n >= 1
  {
    if len == 0 then 1 else (len + size - 1) / size
  }

  /** Queries for the counters `0`, `1`, `2`, ..., reduced to 32 bits. */
  function Queries(n: nat): (calls: seq<Call>)
    ensures |calls| == n
  {
    seq(n, i => Query(i % COUNTERS))
  }

  lemma CountIsExact(len: nat, size: nat)
    requires size > 0
    ensures var n := BlockCount(len, size);
            n * size >= len && (len > 0 ==> (n - 1) * size < len) && (len == 0 ==> n == 1)
  {
  }

  /** Whether block `k`, counted from zero, is the last. */
  lemma LastBlock(len: nat, size: nat, k: nat)
    requires size > 0
    ensures k < BlockCount(len, size) && (k + 1) * size >= len <==> k + 1 == BlockCount(len, size)
    ensures k < BlockCount(len, size) ==> k * size <= len
  {
    CountIsExact(len, size);
    var n := BlockCount(len, size);
    if k + 1 < n {
      Scaled(k + 1, n - 1, size);
    }
    if k < n {
      Scaled(k, n - 1, size);
    }
  }

  lemma Scaled(a: nat, b: nat, size: nat)
    requires a <= b
    ensures a * size <= b * size
  {
  }

  /** After `k` of `n` queries, with `offset` bytes sent. */
  function At(image: bytes, size: nat, k: nat, offset: nat, n: nat): (s: Sender)
  {
    Sender(image, size, offset, k % COUNTERS, if k == 0 then 0 else (k - 1) % COUNTERS,
           if k < n then Sending else AwaitingEofAck)
  }

  /** The state after `k` queries of a transfer that began with an accepted proposal. */
  function Midway(image: bytes, size: nat, k: nat): (s: Sender)
    requires size > 0
  {
    At(image, size, k, Min(k * size, |image|), BlockCount(|image|, size))
  }

  lemma NextCounterOf(k: nat)
    ensures (k % COUNTERS + 1) % COUNTERS == (k + 1) % COUNTERS
  {
  }

  lemma MidwayOffsets(len: nat, size: nat, k: nat, a: nat)
    requires size > 0 && k < BlockCount(len, size) && a == k * size
    ensures a <= len && (k + 1) * size == a + size
    ensures a + size >= len <==> k + 1 == BlockCount(len, size)
  {
    LastBlock(len, size, k);
  }

  lemma QueryAt(image: bytes, size: nat, k: nat, a: nat, n: nat)
    requires size < 0x1_0000 && a <= |image| && k < n && (a + size >= |image| <==> k + 1 == n)
    ensures Valid(At(image, size, k, a, n))
    ensures HandleBlockQuery(At(image, size, k, a, n), k % COUNTERS)
         == (At(image, size, k + 1, Min(a + size, |image|), n),
             Send(if k + 1 == n then BlockEofType else BlockType,
                  EncodeBlock(DataBlock(k % COUNTERS, image[a..Min(a + size, |image|)]))))
  {
    NextCounterOf(k);
  }

  /** One query of the transfer. */
  lemma QueryMidway(image: bytes, size: nat, k: nat, n: nat)
    requires 0 < size < 0x1_0000 && n == BlockCount(|image|, size) && k < n
    ensures Valid(Midway(image, size, k))
    ensures HandleBlockQuery(Midway(image, size, k), k % COUNTERS).0 == Midway(image, size, k + 1)
    ensures var o := HandleBlockQuery(Midway(image, size, k), k % COUNTERS).1;
            o.Send? && o.messageType == (if k + 1 == n then BlockEofType else BlockType)
  {
    var a := k * size;
    MidwayOffsets(|image|, size, k, a);
    QueryAt(image, size, k, a, n);
  }

  /** Querying the counters in order gives `max(1, ceil(len / size))` blocks, whose data make
      up the image and of which exactly the last is marked. */
  lemma {:induction false} TransferStep(image: bytes, size: nat, k: nat)
    requires 0 < size < 0x1_0000 && k <= BlockCount(|image|, size)
    ensures Valid(Midway(image, size, 0)) && After(Midway(image, size, 0), Queries(k)) == Midway(image, size, k)
    ensures forall j :: 0 <= j < k ==>
      var o := Outcomes(Midway(image, size, 0), Queries(k))[j];
      o.Send? && o.messageType == (if j + 1 == BlockCount(|image|, size) then BlockEofType else BlockType)
  {
    QueryMidway(image, size, 0, BlockCount(|image|, size));
    if k > 0 {
      TransferStep(image, size, k - 1);
      QueryMidway(image, size, k - 1, BlockCount(|image|, size));
      assert Queries(k)[..k - 1] == Queries(k - 1);
    }
  }

  lemma WholeTransfer(image: bytes, size: nat)
    requires 0 < size < 0x1_0000
    ensures var n, s := BlockCount(|image|, size), Midway(image, size, 0);
            && Valid(s) && After(s, Queries(n)).state == AwaitingEofAck
            && Delivered(Outcomes(s, Queries(n))) == image
            && (forall j :: 0 <= j < n ==>
                  var o := Outcomes(s, Queries(n))[j];
                  o.Send? && o.messageType == (if j == n - 1 then BlockEofType else BlockType))
            && Handle(After(s, Queries(n)), AckEof((n - 1) % COUNTERS)).1 == Done
  {
    var n := BlockCount(|image|, size);
    TransferStep(image, size, n);
    RunSends(Midway(image, size, 0), Queries(n));
    WholeImage(image, size);
  }

  lemma WholeImage(image: bytes, size: nat)
    requires size > 0
    ensures image[0..Midway(image, size, BlockCount(|image|, size)).offset] == image
  {
  }

  /** The transfer begins where an accepted proposal leaves the sender. */
  lemma TransferBegins(image: bytes, size: nat, init: TransferInit)
    requires size < 0x1_0000 && HasFlag(init.proposal.control, RECEIVER_DRIVE)
    requires 0 < Min(init.proposal.maxBlockSize, size)
    ensures AcceptReceiveInit(New(image, size), init).0 == Midway(image, Min(init.proposal.maxBlockSize, size), 0)
  {
  }

  /** The acceptance is read back as the negotiated size and the whole image's length. */
  lemma AcceptanceIsSent(s: Sender, init: TransferInit)
    requires Valid(s) && s.state == AwaitingInit && HasFlag(init.proposal.control, RECEIVER_DRIVE)
    ensures var size := Min(init.proposal.maxBlockSize, s.maxBlockSize);
            AcceptReceiveInit(s, init).1 == Send(ReceiveAcceptType, EncodeReceiveAccept(AcceptOf(s, size)))
  {
  }

  lemma AcceptanceIsEncodable(s: Sender, size: nat)
    requires size < 0x1_0000
    ensures ValidProposal(AcceptOf(s, size).proposal) && Encodable(AcceptOf(s, size).proposal)
  {
  }

  /** The acceptance says: receiver drive, version 0, the smaller block size, from the beginning,
      the image's length. */
  lemma AcceptanceIsReadBack(s: Sender, init: TransferInit)
    requires Valid(s) && s.state == AwaitingInit && (init.proposal.control / 32) % 2 == 1
    ensures var (t, o) := AcceptReceiveInit(s, init);
            var a, b := init.proposal.maxBlockSize, s.maxBlockSize;
            var size := if a < b then a else b;
            && t == s.(maxBlockSize := size, state := Sending) && o.Send? && o.messageType == ReceiveAcceptType
            && DecodeReceiveAccept(o.payload)
               == Ok(ReceiveAccept(Proposal(0x20, 0, size, 0, if |s.image| < 0x1_0000_0000_0000_0000 then |s.image|
                                                                 else 0xFFFF_FFFF_FFFF_FFFF), []))
  {
    var size := Min(init.proposal.maxBlockSize, s.maxBlockSize);
    AcceptanceIsSent(s, init);
    AcceptanceIsEncodable(s, size);
    ReceiveAcceptRoundTrip(AcceptOf(s, size));
  }

  lemma {:induction false} ZeroSizeNeverEnds(s: Sender, calls: seq<Call>)
    requires Valid(s) && s.state == Sending && s.maxBlockSize == 0 && s.offset < |s.image|
    ensures var t := After(s, calls);
            t.offset == s.offset && t.image == s.image && t.maxBlockSize == 0 && (t.state == Sending || t.state == Aborted)
    decreases |calls|
  {
    if calls != [] {
      ZeroSizeNeverEnds(s, calls[..|calls| - 1]);
    }
  }

  ghost predicate CanEnd(s: Sender)
    requires Valid(s)
  {
    exists calls :: AllSent(After(s, calls))
  }

  lemma CanEndBy(s: Sender, calls: seq<Call>)
    requires Valid(s) && AllSent(After(s, calls))
    ensures CanEnd(s)
  {
  }

  /** A transfer can come to its end exactly when the negotiated size is not zero or the image
      is empty. */
  lemma TransferCanEnd(image: bytes, size: nat)
    requires size < 0x1_0000
    ensures CanEnd(Sender(image, size, 0, 0, 0, Sending)) <==> size > 0 || image == []
  {
    var s := Sender(image, size, 0, 0, 0, Sending);
    if size > 0 {
      WholeTransfer(image, size);
      CanEndBy(s, Queries(BlockCount(|image|, size)));
    } else if image == [] {
      assert [Query(0)][..0] == [];
      CanEndBy(s, [Query(0)]);
    } else {
      forall calls ensures !AllSent(After(s, calls)) {
        ZeroSizeNeverEnds(s, calls);
      }
    }
  }
}
