/** Reading and writing a certificate as the code does: a reader that advances, loops that
    fill slots, and a writer that appends. */
module CertificateReader {
  import opened Wire
  import opened Certificate
  import opened CertificateTlv
  import opened Tlv

  /** Attributes already read, in front of the outcome for the rest. */
  function Before<T>(done: seq<T>, r: Result<(seq<T>, seq<Element>), Error>): (p: Result<(seq<T>, seq<Element>), Error>)
  {
    match r
    case Err(e) => Err(e)
    case Ok((more, after)) => Ok((done + more, after))
  }

  lemma BeforeNothing<T>(r: Result<(seq<T>, seq<Element>), Error>)
    ensures Before([], r) == r
  {
    if r.Ok? {
      assert [] + r.value.0 == r.value.0;
    }
  }

  lemma NameStep(done: DistinguishedName, es: seq<Element>)
    requires es != [] && es[0].Scalar? && es[0].tag.Context? && DecodeAttribute(es[0].tag.number, es[0].value).Ok?
    ensures Before(done, ReadName(es))
         == Before(done + [DecodeAttribute(es[0].tag.number, es[0].value).value], ReadName(es[1..]))
  {
    var a := DecodeAttribute(es[0].tag.number, es[0].value).value;
    if ReadName(es[1..]).Ok? {
      var more := ReadName(es[1..]).value.0;
      assert done + ([a] + more) == (done + [a]) + more;
    }
  }

  /** The attributes of a name whose list is open. */
  method ReadNameFrom(reader: Reader) returns (r: Result<DistinguishedName, Error>)
    requires reader.Valid()
    modifies reader
    ensures reader.Valid()
    ensures r.Ok? ==> ReadName(old(reader.Rest())) == Ok((r.value, reader.Rest()))
    ensures r.Err? ==> ReadName(old(reader.Rest())) == Err(r.error)
  {
    var attrs: DistinguishedName := [];
    BeforeNothing(ReadName(reader.Rest()));
    while true
      invariant reader.Valid()
      invariant ReadName(old(reader.Rest())) == Before(attrs, ReadName(reader.Rest()))
      decreases |reader.Rest()|
    {
      ghost var es := reader.Rest();
      var next := reader.Next();
      if next.None? {
        return Err(UnclosedContainer);
      }
      match next.value {
        case Broken(code) =>
          return Err(Codec(code));
        case End =>
          assert attrs + [] == attrs;
          return Ok(attrs);
        case Start(_, _) =>
          return Err(WrongFieldType(0));
        case Scalar(tag, value) =>
          if !tag.Context? {
            return Err(InvalidDnAttribute(0));
          }
          var a := DecodeAttribute(tag.number, value);
          if a.Err? {
            return Err(a.error);
          }
          NameStep(attrs, es);
          attrs := attrs + [a.value];
      }
    }
  }

  lemma UintsStep(done: seq<u32>, es: seq<Element>)
    requires es != [] && es[0].Scalar? && es[0].value.Uint? && es[0].value.number < 0x1_0000_0000
    ensures Before(done, ReadUints(es)) == Before(done + [es[0].value.number], ReadUints(es[1..]))
  {
    if ReadUints(es[1..]).Ok? {
      var more := ReadUints(es[1..]).value.0;
      assert done + ([es[0].value.number] + more) == (done + [es[0].value.number]) + more;
    }
  }

  method ReadUintArray(reader: Reader) returns (r: Result<seq<u32>, Error>)
    requires reader.Valid()
    modifies reader
    ensures reader.Valid()
    ensures r.Ok? ==> ReadUints(old(reader.Rest())) == Ok((r.value, reader.Rest()))
    ensures r.Err? ==> ReadUints(old(reader.Rest())) == Err(r.error)
  {
    var out: seq<u32> := [];
    BeforeNothing(ReadUints(reader.Rest()));
    while true
      invariant reader.Valid()
      invariant ReadUints(old(reader.Rest())) == Before(out, ReadUints(reader.Rest()))
      decreases |reader.Rest()|
    {
      ghost var es := reader.Rest();
      var next := reader.Next();
      if next.None? {
        return Err(UnclosedContainer);
      }
      match next.value {
        case Broken(code) =>
          return Err(Codec(code));
        case End =>
          assert out + [] == out;
          return Ok(out);
        case Scalar(_, Uint(v)) =>
          if v >= 0x1_0000_0000 {
            return Err(FieldValueOutOfRange(3));
          }
          UintsStep(out, es);
          out := out + [v];
        case _ =>
          return Err(WrongFieldType(3));
      }
    }
  }

  method ReadConstraintsBody(reader: Reader) returns (r: Result<BasicConstraints, Error>)
    requires reader.Valid()
    modifies reader
    ensures reader.Valid()
    ensures r.Ok? ==> ReadConstraints(old(reader.Rest()), BasicConstraints(false, None)) == Ok((r.value, reader.Rest()))
    ensures r.Err? ==> ReadConstraints(old(reader.Rest()), BasicConstraints(false, None)) == Err(r.error)
  {
    var isCa, pathLen := false, None;
    while true
      invariant reader.Valid()
      invariant ReadConstraints(old(reader.Rest()), BasicConstraints(false, None))
             == ReadConstraints(reader.Rest(), BasicConstraints(isCa, pathLen))
      decreases |reader.Rest()|
    {
      var next := reader.Next();
      if next.None? {
        return Err(UnclosedContainer);
      }
      match next.value {
        case Broken(code) =>
          return Err(Codec(code));
        case End =>
          return Ok(BasicConstraints(isCa, pathLen));
        case Scalar(Context(1), Bool(b)) =>
          isCa := b;
        case Scalar(Context(2), Uint(v)) =>
          if v >= 256 {
            return Err(FieldValueOutOfRange(2));
          }
          pathLen := Some(v as byte);
        case _ =>
          return Err(WrongFieldType(1));
      }
    }
  }

  /** One extension, when the reader has just handed out its first event. */
  method ReadOneExtension(reader: Reader, e: Element, x: Extensions, ghost es: seq<Element>)
    returns (r: Result<Extensions, Error>)
    requires reader.Valid() && es != [] && es[0] == e && es[1..] == reader.Rest()
    modifies reader
    ensures reader.Valid()
    ensures r.Ok? ==> ReadExtension(es, x) == Ok((r.value, reader.Rest()))
    ensures r.Err? ==> ReadExtension(es, x) == Err(r.error)
  {
    match e {
      case Start(Context(1), Structure) =>
        if x.basicConstraints.Some? {
          return Err(DuplicateField(1));
        }
        var bc := ReadConstraintsBody(reader);
        if bc.Err? {
          return Err(bc.error);
        }
        return Ok(x.(basicConstraints := Some(bc.value)));
      case Scalar(Context(2), Uint(bits)) =>
        if x.keyUsage.Some? {
          return Err(DuplicateField(2));
        }
        if bits >= 0x1_0000 {
          return Err(FieldValueOutOfRange(2));
        }
        return Ok(x.(keyUsage := Some(bits % 0x200)));
      case Start(Context(3), Array) =>
        if x.extendedKeyUsage.Some? {
          return Err(DuplicateField(3));
        }
        var eku := ReadUintArray(reader);
        if eku.Err? {
          return Err(eku.error);
        }
        return Ok(x.(extendedKeyUsage := Some(eku.value)));
      case Scalar(Context(4), Bytes(b)) =>
        if x.subjectKeyId.Some? {
          return Err(DuplicateField(4));
        }
        var k := KeyIdFrom(b);
        if k.Err? {
          return Err(k.error);
        }
        return Ok(x.(subjectKeyId := Some(k.value)));
      case Scalar(Context(5), Bytes(b)) =>
        if x.authorityKeyId.Some? {
          return Err(DuplicateField(5));
        }
        var k := KeyIdFrom(b);
        if k.Err? {
          return Err(k.error);
        }
        return Ok(x.(authorityKeyId := Some(k.value)));
      case Broken(code) =>
        return Err(Codec(code));
      case _ =>
        return Err(WrongFieldType(ElementTagNumber(e)));
    }
  }

  method ReadExtensionsFrom(reader: Reader) returns (r: Result<Extensions, Error>)
    requires reader.Valid()
    modifies reader
    ensures reader.Valid()
    ensures r.Ok? ==> ReadExtensions(old(reader.Rest()), NO_EXTENSIONS) == Ok((r.value, reader.Rest()))
    ensures r.Err? ==> ReadExtensions(old(reader.Rest()), NO_EXTENSIONS) == Err(r.error)
  {
    var out := NO_EXTENSIONS;
    while true
      invariant reader.Valid()
      invariant ReadExtensions(old(reader.Rest()), NO_EXTENSIONS) == ReadExtensions(reader.Rest(), out)
      decreases |reader.Rest()|
    {
      ghost var es := reader.Rest();
      var next := reader.Next();
      if next.None? {
        return Err(UnclosedContainer);
      }
      if next.value.End? {
        return Ok(out);
      }
      var x := ReadOneExtension(reader, next.value, out, es);
      if x.Err? {
        return Err(x.error);
      }
      out := x.value;
    }
  }

  /** One field, when the reader has just handed out its first event. */
  method ReadOneField(reader: Reader, e: Element, s: Slots, ghost es: seq<Element>) returns (r: Result<Slots, Error>)
    requires reader.Valid() && es != [] && es[0] == e && !e.End? && es[1..] == reader.Rest()
    modifies reader
    ensures reader.Valid()
    ensures r.Ok? ==> ReadField(es, s) == Ok((r.value, reader.Rest()))
    ensures r.Err? ==> ReadField(es, s) == Err(r.error)
  {
    if e.Broken? {
      return Err(Codec(e.code));
    }
    if !e.tag.Context? {
      return Err(WrongFieldType(0));
    }
    var t := e.tag.number;
    if e.Scalar? {
      return ReadScalar(t, e.value, s);
    }
    if t != 3 && t != 6 && t != 10 {
      return Err(WrongFieldType(t));
    }
    if e.kind != List {
      return Err(WrongFieldType(t));
    }
    if t == 10 {
      if s.extensions.Some? {
        return Err(DuplicateField(t));
      }
      var x := ReadExtensionsFrom(reader);
      return if x.Err? then Err(x.error) else Ok(s.(extensions := Some(x.value)));
    }
    if (if t == 3 then s.issuer.Some? else s.subject.Some?) {
      return Err(DuplicateField(t));
    }
    var dn := ReadNameFrom(reader);
    if dn.Err? {
      return Err(dn.error);
    }
    return Ok(if t == 3 then s.(issuer := Some(dn.value)) else s.(subject := Some(dn.value)));
  }

  /** The parser: a loop that fills the slots, then a check that none is empty. */
  method ParseCertificate(events: seq<Element>) returns (r: Result<Certificate, Error>)
    ensures r == FromTlv(events)
  {
    var reader := new Reader(events);
    var first := reader.Next();
    if first.None? {
      return Err(WrongFieldType(0));
    }
    if first.value.Broken? {
      return Err(Codec(first.value.code));
    }
    if first.value != Start(Anonymous, Structure) {
      return Err(WrongFieldType(0));
    }
    var s := EMPTY;
    while true
      invariant fresh(reader) && reader.Valid()
      invariant ReadFields(events[1..], EMPTY) == ReadFields(reader.Rest(), s)
      decreases |reader.Rest()|
    {
      ghost var es := reader.Rest();
      var next := reader.Next();
      if next.None? {
        return Err(UnclosedContainer);
      }
      if next.value.End? {
        break;
      }
      var field := ReadOneField(reader, next.value, s, es);
      if field.Err? {
        return Err(field.error);
      }
      s := field.value;
    }
    return Complete(s);
  }
}
