/** The codecs as they run: a cursor over a body, and a buffer that fields are pushed to. */
module BdxCodec {
  import opened Wire
  import opened BdxMessages

  class Reader {
    const buf: bytes
    var pos: nat

    ghost predicate Valid()
      reads this
    {
      pos <= |buf|
    }

    ghost function Ahead(): (s: bytes)
      requires Valid()
      reads this
    {
      buf[pos..]
    }

    constructor (buf: bytes)
      ensures Valid() && Ahead() == buf
    {
      this.buf := buf;
      pos := 0;
    }

    method Take(n: nat) returns (s: Option<bytes>)
      requires Valid()
      modifies this
      ensures Valid()
      ensures |old(Ahead())| < n ==> s == None && Ahead() == old(Ahead())
      ensures |old(Ahead())| >= n ==> s == Some(old(Ahead())[..n]) && Ahead() == old(Ahead())[n..]
    {
      var end := pos + n;
      if end > |buf| {
        return None;
      }
      s := Some(buf[pos..end]);
      assert buf[pos..end] == buf[pos..][..n] && buf[end..] == buf[pos..][n..];
      pos := end;
    }

    method U8() returns (b: Option<byte>)
      requires Valid()
      modifies this
      ensures Valid()
      ensures old(Ahead()) == [] ==> b == None && Ahead() == []
      ensures old(Ahead()) != [] ==> b == Some(old(Ahead())[0]) && Ahead() == old(Ahead())[1..]
    {
      if pos >= |buf| {
        return None;
      }
      b := Some(buf[pos]);
      pos := pos + 1;
    }

    /** A little-endian value of two, four or eight bytes. */
    method Le(n: nat) returns (v: Option<nat>)
      requires Valid()
      modifies this
      ensures Valid()
      ensures GetLe(old(Ahead()), n).None? ==> v == None
      ensures GetLe(old(Ahead()), n).Some? ==> v == Some(GetLe(old(Ahead()), n).value.0) && Ahead() == GetLe(old(Ahead()), n).value.1
    {
      var s := Take(n);
      if s.None? {
        return None;
      }
      return Some(FromLe(s.value));
    }

    method Rest() returns (s: bytes)
      requires Valid()
      modifies this
      ensures Valid() && s == old(Ahead()) && Ahead() == []
    {
      s := buf[pos..];
      pos := |buf|;
    }
  }

  /** The fields that both transfer messages begin with. */
  method ReadProposal(r: Reader) returns (p: Option<Proposal>)
    requires r.Valid()
    modifies r
    ensures r.Valid()
    ensures DecodeProposal(old(r.Ahead())).None? ==> p == None
    ensures DecodeProposal(old(r.Ahead())).Some? ==>
      p == Some(DecodeProposal(old(r.Ahead())).value.0) && r.Ahead() == DecodeProposal(old(r.Ahead())).value.1
  {
    ghost var s := r.Ahead();
    var ctl := r.U8();
    if ctl.None? {
      return None;
    }
    var range := r.U8();
    if range.None? {
      return None;
    }
    assert r.Ahead() == s[2..];
    var maxBlockSize := r.Le(2);
    if maxBlockSize.None? {
      return None;
    }
    assert s[2..][..2] == s[2..4] && s[2..][2..] == s[4..];
    var width := if HasFlag(range.value, 0x10) then 8 else 4;
    var startOffset := Some(0);
    if HasFlag(range.value, 0x02) {
      startOffset := r.Le(width);
      if startOffset.None? {
        return None;
      }
    }
    var length := Some(0);
    if HasFlag(range.value, 0x01) {
      length := r.Le(width);
      if length.None? {
        return None;
      }
    }
    return Some(Proposal(ctl.value - ctl.value % 16, ctl.value % 16, maxBlockSize.value, startOffset.value, length.value));
  }

  method ParseInit(body: bytes) returns (m: Result<TransferInit, BdxError>)
    ensures m == DecodeInit(body)
  {
    var r := new Reader(body);
    var p := ReadProposal(r);
    if p.None? {
      return Err(Truncated);
    }
    var fdLen := r.Le(2);
    if fdLen.None? {
      return Err(Truncated);
    }
    var fd := r.Take(fdLen.value);
    if fd.None? {
      return Err(Truncated);
    }
    var metadata := r.Rest();
    return Ok(TransferInit(p.value, fd.value, metadata));
  }

  method ParseReceiveAccept(body: bytes) returns (m: Result<ReceiveAccept, BdxError>)
    ensures m == DecodeReceiveAccept(body)
  {
    var r := new Reader(body);
    var p := ReadProposal(r);
    if p.None? {
      return Err(Truncated);
    }
    var metadata := r.Rest();
    return Ok(ReceiveAccept(p.value, metadata));
  }

  lemma {:induction false} LowBytesFirst(v: nat, n: nat, k: nat)
    requires k <= n
    ensures ToLe(v, n)[..k] == ToLe(v, k)
    decreases k
  {
    if k > 0 {
      LowBytesFirst(v / 256, n - 1, k - 1);
      assert ToLe(v, n)[..k] == [v % 256] + ToLe(v / 256, n - 1)[..k - 1];
    }
  }

  /** A range value, if present: eight bytes, or the first four of them. */
  method PutRangeValue(buf: bytes, v: nat, wide: bool) returns (out: bytes)
    ensures out == buf + RangeValue(v, wide)
  {
    out := buf;
    if v > 0 {
      var le := ToLe(v, 8);
      LowBytesFirst(v, 8, 4);
      out := out + (if wide then le else le[..4]);
    }
  }

  method BuildProposal(p: Proposal) returns (buf: bytes)
    ensures buf == EncodeProposal(p)
  {
    var wide := p.startOffset > 0xFFFF_FFFF || p.length > 0xFFFF_FFFF;
    var range := 0;
    if p.length > 0 {
      range := range + 0x01;
    }
    if p.startOffset > 0 {
      range := range + 0x02;
    }
    if wide {
      range := range + 0x10;
    }
    buf := [ControlByte(p.control, p.version), range];
    buf := buf + ToLe(p.maxBlockSize, 2);
    buf := PutRangeValue(buf, p.startOffset, wide);
    buf := PutRangeValue(buf, p.length, wide);
  }

  method BuildInit(m: TransferInit) returns (buf: bytes)
    ensures buf == EncodeInit(m)
  {
    buf := BuildProposal(m.proposal);
    var fdLen := DesignatorLength(m.fileDesignator);
    buf := buf + ToLe(fdLen, 2);
    buf := buf + m.fileDesignator;
    buf := buf + m.metadata;
  }
}
