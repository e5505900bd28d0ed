/** Taking one element off the front of a buffer, and a certificate apart. */
module DerReader {
  import opened Wire
  import opened Der

  datatype DerError = TooShort | UnsupportedLengthOfLength(n: nat) | TruncatedLength | ContentExceedsBuffer

  /** The content length and header length announced at the front of `buf`. */
  function Header(buf: bytes): (r: Result<(nat, nat), DerError>)
  {
    if |buf| < 2 then Err(TooShort)
    else if buf[1] < 0x80 then Ok((buf[1] as nat, 2))
    else
      var n: nat := buf[1] - 0x80;
      if n == 0 || n > 4 then Err(UnsupportedLengthOfLength(n))
      else if |buf| < 2 + n then Err(TruncatedLength)
      else Ok((FromBe(buf[2..2 + n]), 2 + n))
  }

  /** The content of the first element and its total length. */
  function Element(buf: bytes): (r: Result<(bytes, nat), DerError>)
    ensures r.Ok? ==> |r.value.0| + 2 <= r.value.1 <= |buf|
  {
    match Header(buf)
    case Err(e) => Err(e)
    case Ok((contentLen, headerLen)) =>
      if |buf| < headerLen + contentLen then Err(ContentExceedsBuffer)
      else Ok((buf[headerLen..headerLen + contentLen], headerLen + contentLen))
  }

  /** `Element` with the length accumulated byte by byte. */
  method DerElement(buf: bytes) returns (r: Result<(bytes, nat), DerError>)
    ensures r == Element(buf)
  {
    if |buf| < 2 {
      return Err(TooShort);
    }
    var firstLenByte := buf[1];
    var contentLen: nat, headerLen: nat := firstLenByte, 2;
    if firstLenByte >= 0x80 {
      var n: nat := firstLenByte % 0x80;
      if n == 0 || n > 4 {
        return Err(UnsupportedLengthOfLength(n));
      }
      if |buf| < 2 + n {
        return Err(TruncatedLength);
      }
      var bs := buf[2..2 + n];
      contentLen := 0;
      for i := 0 to |bs|
        invariant contentLen == FromBe(bs[..i])
      {
        assert bs[..i + 1][..i] == bs[..i];
        contentLen := contentLen * 256 + bs[i];
      }
      assert bs[..|bs|] == bs;
      headerLen := 2 + n;
    }
    if |buf| < headerLen + contentLen {
      return Err(ContentExceedsBuffer);
    }
    return Ok((buf[headerLen..headerLen + contentLen], headerLen + contentLen));
  }

  /** The first element inside the first element. */
  function Tbs(der: bytes): (r: Result<bytes, DerError>)
  {
    match Element(der)
    case Err(e) => Err(e)
    case Ok((outer, _)) =>
      match Element(outer)
      case Err(e) => Err(e)
      case Ok((_, total)) => Ok(outer[..total])
  }

  method ExtractTbs(der: bytes) returns (r: Result<bytes, DerError>)
    ensures r == Tbs(der)
  {
    var outer := DerElement(der);
    if outer.Err? {
      return Err(outer.error);
    }
    var inner := DerElement(outer.value.0);
    if inner.Err? {
      return Err(inner.error);
    }
    return Ok(outer.value.0[..inner.value.1]);
  }

  lemma LongHeaderOf(buf: bytes, k: nat)
    requires 1 <= k <= 4 && |buf| >= 2 + k && buf[1] == 0x80 + k
    ensures Header(buf) == Ok((FromBe(buf[2..2 + k]), 2 + k))
  {
  }

  /** Where the length bytes lie. */
  lemma LengthBytesAt(tag: byte, l: bytes, x: bytes)
    requires |l| >= 1
    ensures var buf := [tag] + l + x; |buf| >= 1 + |l| && buf[1] == l[0] && buf[2..1 + |l|] == l[1..]
  {
  }

  lemma LengthBytesAreRead(n: usize, tag: byte, x: bytes)
    requires n < 0x1_0000_0000
    ensures Header([tag] + Length(n) + x) == Ok((n, 1 + |Length(n)|))
  {
    LengthBytesAt(tag, Length(n), x);
    if n >= 0x80 {
      WordIsEightBytes();
      BigEndianFits(n, 4);
      BigEndianRoundTrip(n);
      LongHeaderOf([tag] + Length(n) + x, |BigEndian(n)|);
      assert Length(n)[1..] == BigEndian(n);
    }
  }

  lemma {:induction false} BigEndianNeeds(n: nat, k: nat)
    requires n >= Pow256(k)
    ensures |BigEndian(n)| > k
  {
    if k > 0 {
      BigEndianNeeds(n / 256, k - 1);
    }
  }

  /** One element is taken off exactly when its content is below four gigabytes. */
  lemma ElementInvertsTlv(tag: byte, content: bytes, x: bytes)
    requires |content| < WORD
    ensures |content| < 0x1_0000_0000 ==> Element(Tlv(tag, content) + x) == Ok((content, |Tlv(tag, content)|))
    ensures |content| >= 0x1_0000_0000 ==> Element(Tlv(tag, content) + x).Err?
  {
    var n := |content|;
    var buf := Tlv(tag, content) + x;
    assert buf == [tag] + Length(n) + (content + x);
    if n < 0x1_0000_0000 {
      LengthBytesAreRead(n, tag, content + x);
      assert buf[1 + |Length(n)|..1 + |Length(n)| + n] == content;
    } else {
      WordIsEightBytes();
      BigEndianFits(n, 8);
      BigEndianNeeds(n, 4);
      assert buf[1] == 0x80 + |BigEndian(n)|;
    }
  }

  /** A certificate gives back the bytes of its first part, exactly when its content is
      below four gigabytes. */
  lemma TbsIsRecovered(tag: byte, first: Node, rest: seq<Node>, x: bytes)
    requires |EncodeAll([first] + rest)| < WORD
    ensures Tbs(Encode(Cons(tag, [first] + rest)) + x) == Ok(Encode(first))
       <==> |EncodeAll([first] + rest)| < 0x1_0000_0000
  {
    var outer := EncodeAll([first] + rest);
    ElementInvertsTlv(tag, outer, x);
    EncodeAllAppend([first], rest);
    EncodeAllOne(first);
    assert outer == Encode(first) + EncodeAll(rest);
    assert Encode(first) == Tlv(first.tag, Content(first));
    ElementInvertsTlv(first.tag, Content(first), EncodeAll(rest));
    assert outer[..|Encode(first)|] == Encode(first);
  }

  /** How many bytes the header announces for the length: none for the short form. */
  function LengthBytes(buf: bytes): (k: nat)
    requires |buf| >= 2
  {
    if buf[1] < 128 then 0 else buf[1] - 128
  }

  /** The header is whole: a short length, or one of one to four bytes that are all there. */
  predicate HeaderIsWhole(buf: bytes)
  {
    |buf| >= 2 && (buf[1] < 128 || (1 <= LengthBytes(buf) <= 4 && |buf| >= 2 + LengthBytes(buf)))
  }

  function AnnouncedLength(buf: bytes): (n: nat)
    requires HeaderIsWhole(buf)
  {
    if buf[1] < 128 then buf[1] else FromBe(buf[2..2 + LengthBytes(buf)])
  }

  /** What each error means, and that anything else is taken off the front. */
  lemma ElementIff(buf: bytes)
    ensures Element(buf) == Err(TooShort) <==> |buf| < 2
    ensures forall k :: Element(buf) == Err(UnsupportedLengthOfLength(k)) <==>
      |buf| >= 2 && buf[1] >= 128 && k == LengthBytes(buf) && (k == 0 || k > 4)
    ensures Element(buf) == Err(TruncatedLength) <==>
      |buf| >= 2 && buf[1] >= 128 && 1 <= LengthBytes(buf) <= 4 && |buf| < 2 + LengthBytes(buf)
    ensures Element(buf) == Err(ContentExceedsBuffer) <==>
      HeaderIsWhole(buf) && |buf| < 2 + LengthBytes(buf) + AnnouncedLength(buf)
    ensures Element(buf).Ok? <==> HeaderIsWhole(buf) && |buf| >= 2 + LengthBytes(buf) + AnnouncedLength(buf)
    ensures Element(buf).Ok? ==>
      var from, to := 2 + LengthBytes(buf), 2 + LengthBytes(buf) + AnnouncedLength(buf);
      Element(buf).value == (buf[from..to], to)
  {
  }
}
