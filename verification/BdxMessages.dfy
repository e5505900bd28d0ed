/** The bulk-data messages: bit-packed control bytes, fields present only when set, and two
    widths (section 11.21 of the Matter Core Specification). */
module BdxMessages {
  import opened Wire

  datatype BdxError = Truncated

  // ---- Values ----

  /** What `TransferInit` and `ReceiveAccept` have in common. */
  datatype Proposal = Proposal(control: byte, version: byte, maxBlockSize: nat, startOffset: nat, length: nat)

  predicate ValidProposal(p: Proposal)
  {
    p.maxBlockSize < 0x1_0000 && p.startOffset < 0x1_0000_0000_0000_0000 && p.length < 0x1_0000_0000_0000_0000
  }

  datatype TransferInit = TransferInit(proposal: Proposal, fileDesignator: bytes, metadata: bytes)

  datatype ReceiveAccept = ReceiveAccept(proposal: Proposal, metadata: bytes)

  datatype SendAccept = SendAccept(control: byte, version: byte, maxBlockSize: nat, metadata: bytes)

  datatype DataBlock = DataBlock(counter: nat, data: bytes)

  // ---- Bits ----

  /** Bitwise or of the low `k` bits. */
  function Or(a: nat, b: nat, k: nat): (r: nat)
    ensures k == 4 ==> r < 16
    ensures k == 3 ==> r < 8
    ensures k == 2 ==> r < 4
    ensures k == 1 ==> r < 2
  {
    if k == 0 then 0 else (if a % 2 == 1 || b % 2 == 1 then 1 else 0) + 2 * Or(a / 2, b / 2, k - 1)
  }

  /** The version's low nibble or-ed with the control byte; the control's high nibble stays. */
  function ControlByte(control: byte, version: byte): (b: byte)
    ensures b / 16 == control / 16
  {
    16 * (control / 16) + Or(version % 16, control % 16, 4)
  }

  lemma {:induction false} OrWithNothing(a: nat, k: nat)
    requires a < Pow2(k)
    ensures Or(a, 0, k) == a
  {
    if k > 0 {
      OrWithNothing(a / 2, k - 1);
    }
  }

  // ---- Encoding ----

  function RangeByte(p: Proposal): (b: byte)
  {
    (if p.length > 0 then 0x01 else 0) + (if p.startOffset > 0 then 0x02 else 0) + (if IsWide(p) then 0x10 else 0)
  }

  predicate IsWide(p: Proposal)
  {
    p.startOffset > 0xFFFF_FFFF || p.length > 0xFFFF_FFFF
  }

  /** A range value, present only when it is not zero. */
  function RangeValue(v: nat, wide: bool): (s: bytes)
  {
    if v == 0 then [] else ToLe(v, if wide then 8 else 4)
  }

  function EncodeProposal(p: Proposal): (s: bytes)
  {
    [ControlByte(p.control, p.version), RangeByte(p)] + ToLe(p.maxBlockSize, 2)
    + RangeValue(p.startOffset, IsWide(p)) + RangeValue(p.length, IsWide(p))
  }

  function DesignatorLength(fd: bytes): (n: nat)
  {
    if |fd| < 0x1_0000 then |fd| else 0xFFFF
  }

  /** Everything before the metadata. */
  function FixedPart(m: TransferInit): (s: bytes)
  {
    EncodeProposal(m.proposal) + ToLe(DesignatorLength(m.fileDesignator), 2) + m.fileDesignator
  }

  function EncodeInit(m: TransferInit): (s: bytes)
  {
    FixedPart(m) + m.metadata
  }

  function EncodeReceiveAccept(m: ReceiveAccept): (s: bytes)
  {
    EncodeProposal(m.proposal) + m.metadata
  }

  function EncodeSendAccept(m: SendAccept): (s: bytes)
  {
    [ControlByte(m.control, m.version)] + ToLe(m.maxBlockSize, 2) + m.metadata
  }

  function EncodeCounter(counter: nat): (s: bytes)
  {
    ToLe(counter, 4)
  }

  function EncodeBlock(m: DataBlock): (s: bytes)
  {
    ToLe(m.counter, 4) + m.data
  }

  // ---- Decoding ----

  /** `n` little-endian bytes off the front. */
  function GetLe(s: bytes, n: nat): (r: Option<(nat, bytes)>)
  {
    if |s| < n then None else Some((FromLe(s[..n]), s[n..]))
  }

  /** A range value off the front, if it is present. */
  function GetRange(s: bytes, present: bool, wide: bool): (r: Option<(nat, bytes)>)
  {
    if present then GetLe(s, if wide then 8 else 4) else Some((0, s))
  }

  function DecodeProposal(s: bytes): (r: Option<(Proposal, bytes)>)
  {
    if |s| < 4 then None
    else
      var ctl, range := s[0], s[1];
      var wide := HasFlag(range, 0x10);
      match GetRange(s[4..], HasFlag(range, 0x02), wide)
      case None => None
      case Some((startOffset, s1)) =>
        match GetRange(s1, HasFlag(range, 0x01), wide)
        case None => None
        case Some((length, s2)) =>
          Some((Proposal(ctl - ctl % 16, ctl % 16, FromLe(s[2..4]), startOffset, length), s2))
  }

  /** The message without its metadata, and what follows. */
  function DecodeFixed(s: bytes): (r: Option<(TransferInit, bytes)>)
  {
    match DecodeProposal(s)
    case None => None
    case Some((p, s1)) =>
      match GetLe(s1, 2)
      case None => None
      case Some((n, s2)) => if |s2| < n then None else Some((TransferInit(p, s2[..n], []), s2[n..]))
  }

  function DecodeInit(s: bytes): (r: Result<TransferInit, BdxError>)
  {
    match DecodeFixed(s)
    case None => Err(Truncated)
    case Some((m, rest)) => Ok(m.(metadata := rest))
  }

  function DecodeReceiveAccept(s: bytes): (r: Result<ReceiveAccept, BdxError>)
  {
    match DecodeProposal(s)
    case None => Err(Truncated)
    case Some((p, rest)) => Ok(ReceiveAccept(p, rest))
  }

  function DecodeSendAccept(s: bytes): (r: Result<SendAccept, BdxError>)
  {
    if |s| < 3 then Err(Truncated) else Ok(SendAccept(s[0] - s[0] % 16, s[0] % 16, FromLe(s[1..3]), s[3..]))
  }

  function DecodeCounter(s: bytes): (r: Result<nat, BdxError>)
  {
    if |s| < 4 then Err(Truncated) else Ok(FromLe(s[..4]))
  }

  function DecodeBlock(s: bytes): (r: Result<DataBlock, BdxError>)
  {
    if |s| < 4 then Err(Truncated) else Ok(DataBlock(FromLe(s[..4]), s[4..]))
  }

  // ---- Round trips ----

  lemma GetLeBack(v: nat, n: nat, x: bytes)
    requires v < Pow256(n)
    ensures GetLe(ToLe(v, n) + x, n) == Some((v, x))
  {
  }

  lemma Powers()
    ensures Pow256(2) == 0x1_0000 && Pow256(4) == 0x1_0000_0000 && Pow256(8) == 0x1_0000_0000_0000_0000
  {
  }

  lemma GetRangeBack(v: nat, wide: bool, x: bytes)
    requires v < (if wide then 0x1_0000_0000_0000_0000 else 0x1_0000_0000)
    ensures GetRange(RangeValue(v, wide) + x, v > 0, wide) == Some((v, x))
  {
    Powers();
    if v == 0 {
      assert [] + x == x;
    } else {
      GetLeBack(v, if wide then 8 else 4, x);
    }
  }

  lemma RangeFlags(p: Proposal)
    ensures HasFlag(RangeByte(p), 0x01) <==> p.length > 0
    ensures HasFlag(RangeByte(p), 0x02) <==> p.startOffset > 0
    ensures HasFlag(RangeByte(p), 0x10) <==> IsWide(p)
  {
  }

  /** What comes back: the control's high nibble and the or of the low ones. */
  function Masked(p: Proposal): (q: Proposal)
  {
    p.(control := p.control - p.control % 16, version := Or(p.version % 16, p.control % 16, 4))
  }

  lemma ControlBack(control: byte, version: byte)
    ensures var b := ControlByte(control, version);
            b - b % 16 == control - control % 16 && b % 16 == Or(version % 16, control % 16, 4)
  {
  }

  /** Decoding, from the parts it looks at. */
  lemma DecodeProposalIs(s: bytes, wide: bool, startOffset: nat, length: nat, s1: bytes, s2: bytes)
    requires |s| >= 4 && HasFlag(s[1], 0x10) == wide
    requires GetRange(s[4..], HasFlag(s[1], 0x02), wide) == Some((startOffset, s1))
    requires GetRange(s1, HasFlag(s[1], 0x01), wide) == Some((length, s2))
    ensures DecodeProposal(s)
         == Some((Proposal(s[0] - s[0] % 16, s[0] % 16, FromLe(s[2..4]), startOffset, length), s2))
  {
  }

  lemma ProposalBack(p: Proposal, x: bytes)
    requires ValidProposal(p)
    ensures DecodeProposal(EncodeProposal(p) + x) == Some((Masked(p), x))
  {
    var w := IsWide(p);
    var a, b := RangeValue(p.startOffset, w), RangeValue(p.length, w);
    var head: bytes := [ControlByte(p.control, p.version), RangeByte(p)];
    Slices(head, ToLe(p.maxBlockSize, 2), a, b, x);
    Powers();
    LeRoundTrip(p.maxBlockSize, 2);
    RangeFlags(p);
    ControlBack(p.control, p.version);
    GetRangeBack(p.startOffset, w, b + x);
    GetRangeBack(p.length, w, x);
    DecodeProposalIs(EncodeProposal(p) + x, w, p.startOffset, p.length, b + x, x);
  }

  lemma Slices(head: bytes, mid: bytes, a: bytes, b: bytes, x: bytes)
    requires |head| == 2 && |mid| == 2
    ensures var s := head + mid + a + b + x;
            |s| >= 4 && s[0] == head[0] && s[1] == head[1] && s[2..4] == mid && s[4..] == a + (b + x)
  {
  }

  /** A transfer message comes back exactly when its version fits four bits, its control
      leaves them free, and its designator's length fits two bytes. */
  predicate Encodable(p: Proposal)
  {
    p.version < 16 && p.control % 16 == 0
  }

  lemma MaskedIff(p: Proposal)
    ensures Masked(p) == p <==> Encodable(p)
  {
    FourDoublings(0);
    OrWithNothing(p.version % 16, 4);
  }

  lemma FixedBack(m: TransferInit, x: bytes)
    requires ValidProposal(m.proposal) && |m.fileDesignator| < 0x1_0000
    ensures DecodeFixed(FixedPart(m) + x) == Some((TransferInit(Masked(m.proposal), m.fileDesignator, []), x))
  {
    var fd := m.fileDesignator;
    var len := ToLe(|fd|, 2);
    Regroup(EncodeProposal(m.proposal), len, fd, x);
    ProposalBack(m.proposal, len + (fd + x));
    Powers();
    GetLeBack(|fd|, 2, fd + x);
    assert (fd + x)[..|fd|] == fd && (fd + x)[|fd|..] == x;
  }

  lemma Regroup(a: bytes, b: bytes, c: bytes, d: bytes)
    ensures a + b + c + d == a + (b + (c + d))
  {
  }

  /** An oversized designator is cut at 65535 bytes and its rest read as metadata. */
  lemma OversizedDesignator(m: TransferInit)
    requires ValidProposal(m.proposal) && |m.fileDesignator| >= 0x1_0000
    ensures DecodeInit(EncodeInit(m))
         == Ok(TransferInit(Masked(m.proposal), m.fileDesignator[..0xFFFF], m.fileDesignator[0xFFFF..] + m.metadata))
  {
    var fd := m.fileDesignator;
    var short := TransferInit(m.proposal, fd[..0xFFFF], []);
    FixedBack(short, fd[0xFFFF..] + m.metadata);
    CutAgrees(EncodeProposal(m.proposal) + ToLe(0xFFFF, 2), fd, m.metadata, 0xFFFF);
  }

  lemma CutAgrees(a: bytes, fd: bytes, x: bytes, n: nat)
    requires n <= |fd|
    ensures a + fd + x == (a + fd[..n]) + (fd[n..] + x)
  {
  }

  lemma InitRoundTrip(m: TransferInit)
    requires ValidProposal(m.proposal)
    ensures DecodeInit(EncodeInit(m)) == Ok(m) <==> Encodable(m.proposal) && |m.fileDesignator| < 0x1_0000
  {
    MaskedIff(m.proposal);
    if |m.fileDesignator| < 0x1_0000 {
      FixedBack(m, m.metadata);
    } else {
      OversizedDesignator(m);
    }
  }

  lemma ReceiveAcceptRoundTrip(m: ReceiveAccept)
    requires ValidProposal(m.proposal)
    ensures DecodeReceiveAccept(EncodeReceiveAccept(m)) == Ok(m) <==> Encodable(m.proposal)
  {
    MaskedIff(m.proposal);
    ProposalBack(m.proposal, m.metadata);
  }

  lemma SendAcceptParts(c: byte, mid: bytes, x: bytes)
    requires |mid| == 2
    ensures DecodeSendAccept([c] + mid + x) == Ok(SendAccept(c - c % 16, c % 16, FromLe(mid), x))
  {
  }

  lemma SendAcceptRoundTrip(m: SendAccept)
    requires m.maxBlockSize < 0x1_0000
    ensures DecodeSendAccept(EncodeSendAccept(m)) == Ok(m) <==> m.version < 16 && m.control % 16 == 0
  {
    SendAcceptParts(ControlByte(m.control, m.version), ToLe(m.maxBlockSize, 2), m.metadata);
    Powers();
    LeRoundTrip(m.maxBlockSize, 2);
    ControlBack(m.control, m.version);
    MaskedIff(Proposal(m.control, m.version, 0, 0, 0));
  }

  lemma BlockRoundTrip(m: DataBlock)
    ensures DecodeBlock(EncodeBlock(m)) == Ok(DataBlock(FromLe(ToLe(m.counter, 4)), m.data))
    ensures m.counter < 0x1_0000_0000 ==> DecodeBlock(EncodeBlock(m)) == Ok(m)
    ensures m.counter < 0x1_0000_0000 ==> DecodeCounter(EncodeCounter(m.counter)) == Ok(m.counter)
  {
    var s := EncodeBlock(m);
    assert s[..4] == ToLe(m.counter, 4) && s[4..] == m.data;
    Powers();
    if m.counter < 0x1_0000_0000 {
      LeRoundTrip(m.counter, 4);
      assert EncodeCounter(m.counter)[..4] == EncodeCounter(m.counter);
    }
  }

  // ---- Truncation ----

  lemma GetLeExtends(s: bytes, n: nat, y: bytes)
    requires GetLe(s, n).Some?
    ensures GetLe(s + y, n) == Some((GetLe(s, n).value.0, GetLe(s, n).value.1 + y))
  {
    assert (s + y)[..n] == s[..n] && (s + y)[n..] == s[n..] + y;
  }

  lemma GetRangeExtends(s: bytes, present: bool, wide: bool, y: bytes)
    requires GetRange(s, present, wide).Some?
    ensures GetRange(s + y, present, wide)
         == Some((GetRange(s, present, wide).value.0, GetRange(s, present, wide).value.1 + y))
  {
    if present {
      GetLeExtends(s, if wide then 8 else 4, y);
    }
  }

  lemma ProposalExtends(s: bytes, y: bytes)
    requires DecodeProposal(s).Some?
    ensures DecodeProposal(s + y) == Some((DecodeProposal(s).value.0, DecodeProposal(s).value.1 + y))
  {
    var wide := HasFlag(s[1], 0x10);
    assert (s + y)[0] == s[0] && (s + y)[1] == s[1] && (s + y)[2..4] == s[2..4] && (s + y)[4..] == s[4..] + y;
    GetRangeExtends(s[4..], HasFlag(s[1], 0x02), wide, y);
    GetRangeExtends(GetRange(s[4..], HasFlag(s[1], 0x02), wide).value.1, HasFlag(s[1], 0x01), wide, y);
  }

  lemma FixedExtends(s: bytes, y: bytes)
    requires DecodeFixed(s).Some?
    ensures DecodeFixed(s + y) == Some((DecodeFixed(s).value.0, DecodeFixed(s).value.1 + y))
  {
    ProposalExtends(s, y);
    var s1 := DecodeProposal(s).value.1;
    GetLeExtends(s1, 2, y);
    var (n, s2) := GetLe(s1, 2).value;
    assert (s2 + y)[..n] == s2[..n] && (s2 + y)[n..] == s2[n..] + y;
  }

  /** A cut inside the fixed part is refused; a cut in the metadata only shortens it. */
  lemma FixedNeedsAll(m: TransferInit, k: nat)
    requires ValidProposal(m.proposal) && |m.fileDesignator| < 0x1_0000 && k < |FixedPart(m)|
    ensures DecodeFixed(FixedPart(m)[..k]).None?
  {
    var f := FixedPart(m);
    if DecodeFixed(f[..k]).Some? {
      FixedExtends(f[..k], f[k..]);
      assert f[..k] + f[k..] == f && f + [] == f;
      FixedBack(m, []);
      assert false;
    }
  }

  lemma InitCut(m: TransferInit, k: nat)
    requires ValidProposal(m.proposal) && |m.fileDesignator| < 0x1_0000 && k <= |EncodeInit(m)|
    ensures k < |FixedPart(m)| ==> DecodeInit(EncodeInit(m)[..k]) == Err(Truncated)
    ensures k >= |FixedPart(m)| ==>
      DecodeInit(EncodeInit(m)[..k])
      == Ok(TransferInit(Masked(m.proposal), m.fileDesignator, m.metadata[..k - |FixedPart(m)|]))
  {
    var f := FixedPart(m);
    if k < |f| {
      assert EncodeInit(m)[..k] == f[..k];
      FixedNeedsAll(m, k);
    } else {
      assert EncodeInit(m)[..k] == f + m.metadata[..k - |f|];
      FixedBack(m, m.metadata[..k - |f|]);
    }
  }

  lemma ReceiveAcceptCut(m: ReceiveAccept, k: nat)
    requires ValidProposal(m.proposal) && k <= |EncodeReceiveAccept(m)|
    ensures var f := EncodeProposal(m.proposal);
            DecodeReceiveAccept(EncodeReceiveAccept(m)[..k])
            == if k < |f| then Err(Truncated) else Ok(ReceiveAccept(Masked(m.proposal), m.metadata[..k - |f|]))
  {
    var f := EncodeProposal(m.proposal);
    if k < |f| {
      assert EncodeReceiveAccept(m)[..k] == f[..k];
      if DecodeProposal(f[..k]).Some? {
        ProposalExtends(f[..k], f[k..]);
        assert f[..k] + f[k..] == f && f + [] == f;
        ProposalBack(m.proposal, []);
        assert false;
      }
    } else {
      assert EncodeReceiveAccept(m)[..k] == f + m.metadata[..k - |f|];
      ProposalBack(m.proposal, m.metadata[..k - |f|]);
    }
  }

  // ---- The layout, by position ----

  /** The width of a range value: eight bytes when bit 4 of the range byte is set. */
  function Width(s: bytes): (w: nat)
    requires |s| >= 2
  {
    if (s[1] / 16) % 2 == 1 then 8 else 4
  }

  /** Bit 1 announces the start offset. */
  function OffsetWidth(s: bytes): (w: nat)
    requires |s| >= 2
  {
    if (s[1] / 2) % 2 == 1 then Width(s) else 0
  }

  /** Bit 0 announces the length, which follows the start offset. */
  function LengthWidth(s: bytes): (w: nat)
    requires |s| >= 2
  {
    if s[1] % 2 == 1 then Width(s) else 0
  }

  /** Where the ranges end. */
  function RangesEnd(s: bytes): (i: nat)
    requires |s| >= 2
  {
    4 + OffsetWidth(s) + LengthWidth(s)
  }

  predicate HasRanges(s: bytes)
  {
    |s| >= 4 && |s| >= RangesEnd(s)
  }

  /** Control in the high nibble, version in the low one, the block size, the start offset, the
      length. */
  function ProposalAt(s: bytes): (p: Proposal)
    requires HasRanges(s)
  {
    var o := 4 + OffsetWidth(s);
    Proposal(16 * (s[0] / 16), s[0] % 16, s[2] as nat + 256 * s[3] as nat, FromLe(s[4..o]), FromLe(s[o..RangesEnd(s)]))
  }

  lemma TwoAre(s: bytes)
    requires |s| == 2
    ensures FromLe(s) == s[0] as nat + 256 * s[1] as nat
  {
    assert s[1..][1..] == [];
    assert FromLe(s) == s[0] + 256 * FromLe(s[1..]);
    assert FromLe(s[1..]) == s[1] + 256 * FromLe(s[1..][1..]);
  }

  lemma RangeAt(s: bytes, from: nat, present: bool, wide: bool)
    requires from <= |s|
    ensures var w := if !present then 0 else if wide then 8 else 4;
            GetRange(s[from..], present, wide)
            == if |s| < from + w then None else Some((FromLe(s[from..from + w]), s[from + w..]))
  {
    var w := if !present then 0 else if wide then 8 else 4;
    if |s| >= from + w {
      assert s[from..][..w] == s[from..from + w] && s[from..][w..] == s[from + w..];
    }
  }

  lemma ProposalLayout(s: bytes)
    ensures DecodeProposal(s) == if HasRanges(s) then Some((ProposalAt(s), s[RangesEnd(s)..])) else None
  {
    if |s| >= 4 {
      var o := 4 + OffsetWidth(s);
      RangeAt(s, 4, HasFlag(s[1], 0x02), HasFlag(s[1], 0x10));
      if |s| >= o {
        RangeAt(s, o, HasFlag(s[1], 0x01), HasFlag(s[1], 0x10));
        TwoAre(s[2..4]);
      }
    }
  }

  /** Where the file designator begins: after its length of two bytes. */
  function DesignatorAt(s: bytes): (i: nat)
    requires |s| >= 2
  {
    RangesEnd(s) + 2
  }

  /** Where it ends. */
  function DesignatorEnd(s: bytes): (i: nat)
    requires |s| >= 4 && |s| >= DesignatorAt(s)
  {
    DesignatorAt(s) + s[DesignatorAt(s) - 2] as nat + 256 * s[DesignatorAt(s) - 1] as nat
  }

  predicate IsInit(s: bytes)
  {
    |s| >= 4 && |s| >= DesignatorAt(s) && |s| >= DesignatorEnd(s)
  }

  /** Any bytes are an initiation exactly when they are long enough for what they announce, and
      then every field is read at its place. */
  lemma InitLayout(s: bytes)
    ensures DecodeInit(s)
         == if IsInit(s)
            then Ok(TransferInit(ProposalAt(s), s[DesignatorAt(s)..DesignatorEnd(s)], s[DesignatorEnd(s)..]))
            else Err(Truncated)
  {
    ProposalLayout(s);
    if HasRanges(s) && |s| >= DesignatorAt(s) {
      var r := s[RangesEnd(s)..];
      assert r[..2] == s[RangesEnd(s)..DesignatorAt(s)] && r[2..] == s[DesignatorAt(s)..];
      TwoAre(r[..2]);
      if |s| >= DesignatorEnd(s) {
        var n := DesignatorEnd(s) - DesignatorAt(s);
        assert s[DesignatorAt(s)..][..n] == s[DesignatorAt(s)..DesignatorEnd(s)];
        assert s[DesignatorAt(s)..][n..] == s[DesignatorEnd(s)..];
      }
    }
  }

  lemma AcceptLayout(s: bytes)
    ensures DecodeReceiveAccept(s)
         == if HasRanges(s) then Ok(ReceiveAccept(ProposalAt(s), s[RangesEnd(s)..])) else Err(Truncated)
    ensures DecodeSendAccept(s)
         == if |s| >= 3 then Ok(SendAccept(16 * (s[0] / 16), s[0] % 16, s[1] as nat + 256 * s[2] as nat, s[3..]))
            else Err(Truncated)
  {
    ProposalLayout(s);
    if |s| >= 3 {
      TwoAre(s[1..3]);
    }
  }

  // ---- The form that is written ----

  /** Of the range byte only bits 0, 1 and 4 are used: a length, an offset, one of them from
      2^32 on.  The ranges follow it and nothing else. */
  lemma WrittenRanges(p: Proposal)
    ensures var s := EncodeProposal(p);
            && |s| >= 4 && (s[1] % 2 == 1 <==> p.length != 0) && ((s[1] / 2) % 2 == 1 <==> p.startOffset != 0)
            && ((s[1] / 16) % 2 == 1 <==> p.length >= 0x1_0000_0000 || p.startOffset >= 0x1_0000_0000)
            && (s[1] / 4) % 4 == 0 && s[1] < 32 && |s| == RangesEnd(s)
  {
  }

  lemma {:induction false} FromLeIsBounded(s: bytes)
    requires |s| <= 4
    ensures FromLe(s) < 0x1_0000_0000 && (s == [] ==> FromLe(s) == 0)
  {
    if s != [] {
      assert |s| >= 2 ==> FromLe(s[1..]) == s[1] + 256 * FromLe(s[1..][1..]);
      assert |s| >= 3 ==> FromLe(s[1..][1..]) == s[2] + 256 * FromLe(s[1..][1..][1..]);
      assert |s| >= 4 ==> FromLe(s[1..][1..][1..]) == s[3] + 256 * FromLe(s[1..][1..][1..][1..]);
    }
  }

  lemma ShortestRanges(s: bytes)
    requires HasRanges(s)
    ensures |EncodeProposal(ProposalAt(s))| <= RangesEnd(s)
  {
    var p, o := ProposalAt(s), 4 + OffsetWidth(s);
    WrittenRanges(p);
    if Width(s) == 4 {
      FromLeIsBounded(s[4..o]);
      FromLeIsBounded(s[o..RangesEnd(s)]);
    } else {
      if OffsetWidth(s) == 0 { FromLeIsBounded(s[4..o]); }
      if LengthWidth(s) == 0 { FromLeIsBounded(s[o..RangesEnd(s)]); }
    }
  }

  /** No bytes that are read as an initiation are shorter than its encoding. */
  lemma InitIsShortest(s: bytes)
    requires DecodeInit(s).Ok?
    ensures |EncodeInit(DecodeInit(s).value)| <= |s|
  {
    InitLayout(s);
    ShortestRanges(s);
  }
}
