/** The writer: content goes onto the end of a shared buffer, and its header is spliced in
    front of it once its length is known. */
module DerWriter {
  import opened Wire
  import opened Der

  method LeadingZeros(s: bytes) returns (k: nat)
    ensures k <= |s| && s[..k] == Zeros(k) && (k < |s| ==> s[k] != 0)
  {
    k := 0;
    while k < |s| && s[k] == 0
      invariant k <= |s| && s[..k] == Zeros(k)
    {
      k := k + 1;
    }
  }

  /** Without its leading zeros, the eight-byte form is the shortest one. */
  lemma LeadingZerosDropped(n: usize, k: nat)
    requires n > 0 && k <= 8 && ToBe(n, 8)[..k] == Zeros(k) && (k < 8 ==> ToBe(n, 8)[k] != 0)
    ensures ToBe(n, 8)[k..] == BigEndian(n)
  {
    WordIsEightBytes();
    BigEndianFits(n, 8);
    BigEndianRoundTrip(n);
    var z := 8 - |BigEndian(n)|;
    assert ToBe(n, 8)[z] == BigEndian(n)[0];
    assert forall i :: 0 <= i < k ==> ToBe(n, 8)[..k][i] == ToBe(n, 8)[i];
  }

  method CopyAfterFirst(buf: array<byte>, digits: bytes)
    requires 1 + |digits| <= buf.Length
    modifies buf
    ensures buf[0] == old(buf[0]) && buf[1..1 + |digits|] == digits
  {
    for i := 0 to |digits|
      invariant buf[0] == old(buf[0])
      invariant buf[1..1 + i] == digits[..i]
    {
      buf[1 + i] := digits[i];
    }
  }

  /** The length prefix, in a fixed nine-byte buffer. */
  method DefiniteLengthPrefix(len: usize) returns (buf: array<byte>, used: nat)
    ensures fresh(buf) && buf.Length == 9 && 1 <= used <= 9
    ensures buf[..used] == Length(len)
  {
    buf := new byte[9](_ => 0);
    if len < 0x80 {
      buf[0] := len;
      used := 1;
    } else {
      var be := ToBe(len, 8);
      var zeros := LeadingZeros(be);
      LeadingZerosDropped(len, zeros);
      var digits := be[zeros..];
      buf[0] := 0x80 + |digits|;
      CopyAfterFirst(buf, digits);
      used := 1 + |digits|;
      assert buf[..used] == [buf[0]] + buf[1..used];
    }
  }

  class Buffer {
    var data: bytes

    constructor ()
      ensures data == []
    {
      data := [];
    }

    method Push(b: byte)
      modifies this
      ensures data == old(data) + [b]
    {
      data := data + [b];
    }

    method Extend(s: bytes)
      modifies this
      ensures data == old(data) + s
    {
      data := data + s;
    }

    /** The length prefix, appended. */
    method EncodeDefiniteLength(len: usize)
      modifies this
      ensures data == old(data) + Length(len)
    {
      if len < 0x80 {
        Push(len);
      } else {
        var be := ToBe(len, 8);
        var zeros := LeadingZeros(be);
        LeadingZerosDropped(len, zeros);
        var digits := be[zeros..];
        Push(0x80 + |digits|);
        Extend(digits);
        assert data == old(data) + ([0x80 + |digits|] + digits);
      }
    }

    /** The end of a wrapper: splices the header in front of the content that was
        appended since the buffer had length `start`. */
    method WrapTagged(tag: byte, start: nat)
      requires start <= |data|
      modifies this
      ensures data == old(data)[..start] + Tlv(tag, old(data)[start..])
    {
      var prefix, used := DefiniteLengthPrefix(Usize(|data| - start));
      var header := [tag] + prefix[..used];
      data := data[..start] + header + data[start..];
      assert data == old(data)[..start] + (header + old(data)[start..]);
    }

    method WrapPrimitive(tag: byte, value: bytes)
      modifies this
      ensures data == old(data) + Tlv(tag, value)
    {
      Push(tag);
      EncodeDefiniteLength(Usize(|value|));
      Extend(value);
      assert data == old(data) + ([tag] + Length(Usize(|value|)) + value);
    }

    /** Any nesting of wrappers appends exactly the pure encoding of its tree. */
    method Write(n: Node)
      modifies this
      ensures data == old(data) + Encode(n)
      decreases n
    {
      match n
      case Prim(tag, content) =>
        WrapPrimitive(tag, content);
      case Cons(tag, children) =>
        var start := |data|;
        WriteAll(children);
        assert data[..start] == old(data) && data[start..] == EncodeAll(children);
        WrapTagged(tag, start);
    }

    method WriteAll(ns: seq<Node>)
      modifies this
      ensures data == old(data) + EncodeAll(ns)
      decreases ns
    {
      if ns != [] {
        Write(ns[0]);
        WriteAll(ns[1..]);
        Associate(old(data), Encode(ns[0]), EncodeAll(ns[1..]));
      }
    }
  }
}
