/** DER elements.  A tree of elements has one pure encoding; the writer builds the same
    bytes in a shared buffer by splicing each header in front of content already written;
    the reader takes one element off the front of a buffer. */
module Der {
  import opened Wire

  const WORD: nat := 0x1_0000_0000_0000_0000

  /** A machine word: lengths are taken in it. */
  type usize = n: nat | n < WORD

  function Usize(n: nat): (r: usize)
    ensures n < WORD ==> r == n
  {
    n % WORD
  }

  // ---- Big-endian numbers ----

  /** The shortest big-endian form; empty for zero. */
  function BigEndian(n: nat): (s: bytes)
  {
    if n == 0 then [] else BigEndian(n / 256) + [n % 256]
  }

  /** The big-endian form in exactly `k` bytes. */
  function ToBe(n: nat, k: nat): (s: bytes)
    ensures |s| == k
  {
    if k == 0 then [] else ToBe(n / 256, k - 1) + [n % 256]
  }

  function FromBe(s: bytes): (n: nat)
  {
    if s == [] then 0 else FromBe(s[..|s| - 1]) * 256 + s[|s| - 1]
  }

  function Zeros(k: nat): (s: bytes)
    ensures |s| == k && forall i :: 0 <= i < k ==> s[i] == 0
  {
    seq(k, _ => 0)
  }

  lemma {:induction false} BigEndianRoundTrip(n: nat)
    ensures FromBe(BigEndian(n)) == n
    ensures n > 0 ==> BigEndian(n) != [] && BigEndian(n)[0] != 0
  {
    if n > 0 {
      BigEndianRoundTrip(n / 256);
      assert BigEndian(n)[..|BigEndian(n)| - 1] == BigEndian(n / 256);
    }
  }

  lemma {:induction false} BigEndianFits(n: nat, k: nat)
    requires n < Pow256(k)
    ensures |BigEndian(n)| <= k
    ensures ToBe(n, k) == Zeros(k - |BigEndian(n)|) + BigEndian(n)
    decreases k
  {
    if k > 0 && n > 0 {
      BigEndianFits(n / 256, k - 1);
    } else if k > 0 {
      BigEndianFits(0, k - 1);
    }
  }

  lemma WordIsEightBytes()
    ensures Pow256(8) == WORD && Pow256(4) == 0x1_0000_0000
  {
  }

  // ---- Lengths ----

  /** The definite form of a length: one byte below 128, else a count and the shortest
      big-endian bytes. */
  function Length(n: usize): (s: bytes)
    ensures |s| >= 1
  {
    if n < 0x80 then [n]
    else
      WordIsEightBytes();
      BigEndianFits(n, 8);
      [0x80 + |BigEndian(n)|] + BigEndian(n)
  }

  /** No length is the beginning of another. */
  lemma LengthIsPrefixFree(m: usize, n: usize, x: bytes, y: bytes)
    requires Length(m) + x == Length(n) + y
    ensures m == n && x == y
  {
    WordIsEightBytes();
    BigEndianFits(m, 8);
    BigEndianFits(n, 8);
    BigEndianRoundTrip(m);
    BigEndianRoundTrip(n);
    assert (Length(m) + x)[0] == (Length(n) + y)[0];
    assert |Length(m)| == |Length(n)|;
    var k := |Length(m)|;
    assert (Length(m) + x)[..k] == Length(m) && (Length(n) + y)[..k] == Length(n);
    assert (Length(m) + x)[k..] == x && (Length(n) + y)[k..] == y;
    if m >= 0x80 {
      assert Length(m)[1..] == BigEndian(m) && Length(n)[1..] == BigEndian(n);
    }
  }

  // ---- Elements ----

  datatype Node =
    | Prim(tag: byte, content: bytes)
    | Cons(tag: byte, children: seq<Node>)

  function Tlv(tag: byte, content: bytes): (s: bytes)
  {
    [tag] + Length(Usize(|content|)) + content
  }

  function Encode(n: Node): (s: bytes)
    decreases n
  {
    match n
    case Prim(tag, content) => Tlv(tag, content)
    case Cons(tag, children) => Tlv(tag, EncodeAll(children))
  }

  function EncodeAll(ns: seq<Node>): (s: bytes)
    decreases ns
  {
    if ns == [] then [] else Encode(ns[0]) + EncodeAll(ns[1..])
  }

  function Content(n: Node): (s: bytes)
  {
    match n
    case Prim(_, content) => content
    case Cons(_, children) => EncodeAll(children)
  }

  lemma {:induction false} EncodeAllAppend(a: seq<Node>, b: seq<Node>)
    ensures EncodeAll(a + b) == EncodeAll(a) + EncodeAll(b)
  {
    if a == [] {
      assert a + b == b;
    } else {
      assert (a + b)[0] == a[0] && (a + b)[1..] == a[1..] + b;
      calc {
        EncodeAll(a + b);
        Encode(a[0]) + EncodeAll(a[1..] + b);
        { EncodeAllAppend(a[1..], b); }
        Encode(a[0]) + (EncodeAll(a[1..]) + EncodeAll(b));
        (Encode(a[0]) + EncodeAll(a[1..])) + EncodeAll(b);
      }
    }
  }

  lemma EncodeAllOne(n: Node)
    ensures EncodeAll([n]) == Encode(n)
  {
  }

  /** Bit 6 of the tag, set for constructed elements. */
  predicate IsConstructed(tag: byte)
  {
    0x20 <= tag < 0x40 || 0x60 <= tag < 0x80 || 0xA0 <= tag < 0xC0 || 0xE0 <= tag
  }

  /** The tag tells the two kinds of element apart. */
  predicate WellTagged(n: Node)
    decreases n
  {
    match n
    case Prim(tag, _) => !IsConstructed(tag)
    case Cons(tag, children) => IsConstructed(tag) && forall i :: 0 <= i < |children| ==> WellTagged(children[i])
  }

  lemma TlvSplits(t: byte, c: bytes, x: bytes)
    ensures var s := Tlv(t, c) + x; s[0] == t && s[1..] == Length(Usize(|c|)) + (c + x)
  {
  }

  lemma SameLengthSplit(c: bytes, d: bytes, x: bytes, y: bytes)
    requires c + x == d + y && |c| == |d|
    ensures c == d && x == y
  {
    assert c == (c + x)[..|c|] && d == (d + y)[..|c|];
    assert x == (c + x)[|c|..] && y == (d + y)[|c|..];
  }

  lemma TlvIsPrefixFree(t: byte, u: byte, c: bytes, d: bytes, x: bytes, y: bytes)
    requires Tlv(t, c) + x == Tlv(u, d) + y
    requires |Tlv(t, c) + x| < WORD
    ensures t == u && c == d && x == y
  {
    TlvSplits(t, c, x);
    TlvSplits(u, d, y);
    LengthIsPrefixFree(Usize(|c|), Usize(|d|), c + x, d + y);
    SameLengthSplit(c, d, x, y);
  }

  lemma NothingIffEmpty(ns: seq<Node>)
    ensures EncodeAll(ns) == [] <==> ns == []
  {
  }

  /** An encoding determines its tree, and where it ends. */
  lemma {:induction false} EncodingDetermines(a: Node, b: Node, x: bytes, y: bytes)
    requires WellTagged(a) && WellTagged(b)
    requires Encode(a) + x == Encode(b) + y
    requires |Encode(a) + x| < WORD
    ensures a == b && x == y
    decreases a
  {
    TlvIsPrefixFree(a.tag, b.tag, Content(a), Content(b), x, y);
    if a.Cons? {
      EncodingsDetermine(a.children, b.children);
    }
  }

  lemma {:induction false} EncodingsDetermine(a: seq<Node>, b: seq<Node>)
    requires forall i :: 0 <= i < |a| ==> WellTagged(a[i])
    requires forall i :: 0 <= i < |b| ==> WellTagged(b[i])
    requires EncodeAll(a) == EncodeAll(b)
    requires |EncodeAll(a)| < WORD
    ensures a == b
    decreases a
  {
    NothingIffEmpty(a);
    NothingIffEmpty(b);
    if a != [] {
      EncodingDetermines(a[0], b[0], EncodeAll(a[1..]), EncodeAll(b[1..]));
      EncodingsDetermine(a[1..], b[1..]);
      assert a == [a[0]] + a[1..] && b == [b[0]] + b[1..];
    }
  }
}
