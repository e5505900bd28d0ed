/** Reading DER: bytes back into the tree of elements, by the rules of section 8.1 of ITU-T
    X.690 alone. */
module DerParser {
  import opened Wire
  import opened Der

  /** A definite length and what follows it. */
  function ReadLength(s: bytes): (r: Option<(nat, bytes)>)
    ensures r.Some? ==> |r.value.1| < |s|
  {
    if s == [] then None
    else if s[0] < 0x80 then Some((s[0] as nat, s[1..]))
    else
      var k := s[0] - 0x80;
      if k == 0 || |s| < 1 + k then None else Some((FromBe(s[1..1 + k]), s[1 + k..]))
  }

  /** The first element and what follows it. */
  function ReadNode(s: bytes): (r: Option<(Node, bytes)>)
    ensures r.Some? ==> |r.value.1| < |s|
    decreases |s|, 1
  {
    if s == [] then None
    else
      match ReadLength(s[1..])
      case None => None
      case Some((n, rest)) =>
        if |rest| < n then None
        else if !IsConstructed(s[0]) then Some((Prim(s[0], rest[..n]), rest[n..]))
        else
          match ReadNodes(rest[..n])
          case None => None
          case Some(children) => Some((Cons(s[0], children), rest[n..]))
  }

  /** All elements up to the end. */
  function ReadNodes(s: bytes): (r: Option<seq<Node>>)
    decreases |s|, 2
  {
    if s == [] then Some([])
    else
      match ReadNode(s)
      case None => None
      case Some((first, rest)) =>
        match ReadNodes(rest)
        case None => None
        case Some(more) => Some([first] + more)
  }

  lemma LongLengthIsRead(b: bytes, x: bytes)
    requires 1 <= |b| <= 8
    ensures ReadLength(([0x80 + |b|] + b) + x) == Some((FromBe(b), x))
  {
    var s := ([0x80 + |b|] + b) + x;
    assert s[0] == 0x80 + |b|;
    assert s[1..1 + |b|] == b;
    assert s[1 + |b|..] == x;
  }

  lemma ShortLengthIsRead(n: byte, x: bytes)
    requires n < 0x80
    ensures ReadLength([n] + x) == Some((n as nat, x))
  {
    assert ([n] + x)[1..] == x;
  }

  lemma LengthIsReadBack(n: usize, x: bytes)
    ensures ReadLength(Length(n) + x) == Some((n as nat, x))
  {
    if n < 0x80 {
      ShortLengthIsRead(n, x);
    } else {
      WordIsEightBytes();
      BigEndianFits(n, 8);
      BigEndianRoundTrip(n);
      LongLengthIsRead(BigEndian(n), x);
    }
  }

  lemma HeaderIsRead(tag: byte, content: bytes, x: bytes)
    requires |content| < WORD
    ensures var s := Tlv(tag, content) + x;
            && s != [] && s[0] == tag && ReadLength(s[1..]) == Some((|content|, content + x))
            && (content + x)[..|content|] == content && (content + x)[|content|..] == x
  {
    TlvSplits(tag, content, x);
    LengthIsReadBack(|content|, content + x);
  }

  lemma ContentIsShorter(n: Node)
    ensures |Content(n)| < |Encode(n)|
  {
  }

  /** An encoding is read back as its tree, and what follows is left. */
  lemma {:induction false} NodeIsReadBack(n: Node, x: bytes)
    requires WellTagged(n) && |Encode(n)| < WORD
    ensures ReadNode(Encode(n) + x) == Some((n, x))
    decreases n
  {
    ContentIsShorter(n);
    HeaderIsRead(n.tag, Content(n), x);
    if n.Cons? {
      NodesAreReadBack(n.children);
    }
  }

  lemma {:induction false} NodesAreReadBack(ns: seq<Node>)
    requires forall i :: 0 <= i < |ns| ==> WellTagged(ns[i])
    requires |EncodeAll(ns)| < WORD
    ensures ReadNodes(EncodeAll(ns)) == Some(ns)
    decreases ns
  {
    if ns != [] {
      NodeIsReadBack(ns[0], EncodeAll(ns[1..]));
      NodesAreReadBack(ns[1..]);
      assert [ns[0]] + ns[1..] == ns;
      NothingIffEmpty(ns);
    }
  }

  /** A single element that fills the buffer. */
  function ReadWhole(s: bytes): (r: Option<Node>)
  {
    match ReadNode(s)
    case Some((n, rest)) => if rest == [] then Some(n) else None
    case None => None
  }

  lemma {:induction false} WholeIsReadBack(n: Node)
    requires WellTagged(n) && |Encode(n)| < WORD
    ensures ReadWhole(Encode(n)) == Some(n)
  {
    NodeIsReadBack(n, []);
    assert Encode(n) + [] == Encode(n);
  }
}
