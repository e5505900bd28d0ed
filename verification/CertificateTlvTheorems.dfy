/** The TLV form: reading inverts writing exactly on well-formed certificates, and the
    order of the fields does not matter. */
module CertificateTlvTheorems {
  import opened Wire
  import opened Certificate
  import opened CertificateTlv
  import opened Folds
  import opened Tlv

  // ---- Well-formed certificates ----

  predicate WellFormedAttribute(a: DnAttribute)
  {
    !a.VendorId? && !a.ProductId? && (a.Other? ==> IsUntypedTag(a.tag))
  }

  predicate WellFormedName(dn: DistinguishedName)
  {
    forall i :: 0 <= i < |dn| ==> WellFormedAttribute(dn[i])
  }

  predicate WellFormed(c: Certificate)
  {
    Encodable(c) && KnownUsage(c.extensions)
  }

  /** A certificate whose fields are all accepted again once written. */
  predicate Encodable(c: Certificate)
  {
    && 1 <= |c.serial| <= MAX_SERIAL_LEN
    && WellFormedName(c.issuer) && WellFormedName(c.subject)
  }

  /** Only the nine defined key-usage bits. */
  predicate KnownUsage(x: Extensions)
  {
    x.keyUsage.Some? ==> x.keyUsage.value < 0x200
  }

  /** What is kept of the extensions: the reader drops the other key-usage bits. */
  function Stored(x: Extensions): (r: Extensions)
  {
    if x.keyUsage.Some? then x.(keyUsage := Some(x.keyUsage.value % 0x200)) else x
  }

  // ---- Names ----

  lemma AttributeRoundTrip(a: DnAttribute)
    ensures WellFormedAttribute(a) <==>
      (EncodeAttribute(a).Ok? && var e := EncodeAttribute(a).value;
       e.Scalar? && e.tag.Context? && DecodeAttribute(e.tag.number, e.value) == Ok(a))
  {
  }

  lemma DecodedIsWellFormed(tag: byte, value: Tlv.Value)
    requires DecodeAttribute(tag, value).Ok?
    ensures WellFormedAttribute(DecodeAttribute(tag, value).value)
  {
  }

  lemma {:induction false} NameRoundTrip(dn: DistinguishedName, rest: seq<Element>)
    requires WellFormedName(dn)
    ensures WriteAttributes(dn).Ok? && ReadName(WriteAttributes(dn).value + [End] + rest) == Ok((dn, rest))
  {
    if dn == [] {
      assert [] + [End] + rest == [End] + rest;
      assert ([End] + rest)[1..] == rest;
    } else {
      AttributeRoundTrip(dn[0]);
      NameRoundTrip(dn[1..], rest);
      var es := WriteAttributes(dn).value + [End] + rest;
      assert es[0] == EncodeAttribute(dn[0]).value;
      assert es[1..] == WriteAttributes(dn[1..]).value + [End] + rest;
      assert [dn[0]] + dn[1..] == dn;
    }
  }

  lemma {:induction false} NameReadIsWellFormed(es: seq<Element>)
    requires ReadName(es).Ok?
    ensures WellFormedName(ReadName(es).value.0)
  {
    if es[0].Scalar? {
      DecodedIsWellFormed(es[0].tag.number, es[0].value);
      NameReadIsWellFormed(es[1..]);
    }
  }

  lemma {:induction false} NameReadExtends(es: seq<Element>, x: seq<Element>)
    requires ReadName(es).Ok?
    ensures ReadName(es + x) == Ok((ReadName(es).value.0, ReadName(es).value.1 + x))
  {
    assert (es + x)[0] == es[0] && (es + x)[1..] == es[1..] + x;
    if es[0].Scalar? {
      NameReadExtends(es[1..], x);
    }
  }

  // ---- Extensions ----

  lemma {:induction false} ConstraintsReadExtend(es: seq<Element>, bc: BasicConstraints, x: seq<Element>)
    requires ReadConstraints(es, bc).Ok?
    ensures ReadConstraints(es + x, bc) == Ok((ReadConstraints(es, bc).value.0, ReadConstraints(es, bc).value.1 + x))
    decreases es
  {
    assert (es + x)[0] == es[0] && (es + x)[1..] == es[1..] + x;
    match es[0]
    case Scalar(Context(1), Bool(b)) => ConstraintsReadExtend(es[1..], bc.(isCa := b), x);
    case Scalar(Context(2), Uint(v)) => ConstraintsReadExtend(es[1..], bc.(pathLen := Some(v)), x);
    case _ =>
  }

  lemma {:induction false} UintsReadExtend(es: seq<Element>, x: seq<Element>)
    requires ReadUints(es).Ok?
    ensures ReadUints(es + x) == Ok((ReadUints(es).value.0, ReadUints(es).value.1 + x))
  {
    assert (es + x)[0] == es[0] && (es + x)[1..] == es[1..] + x;
    if es[0].Scalar? {
      UintsReadExtend(es[1..], x);
    }
  }

  lemma ExtensionReadExtends(es: seq<Element>, x: Extensions, more: seq<Element>)
    requires es != [] && ReadExtension(es, x).Ok?
    ensures ReadExtension(es + more, x) == Ok((ReadExtension(es, x).value.0, ReadExtension(es, x).value.1 + more))
  {
    assert (es + more)[0] == es[0] && (es + more)[1..] == es[1..] + more;
    match es[0]
    case Start(Context(1), Structure) => ConstraintsReadExtend(es[1..], BasicConstraints(false, None), more);
    case Start(Context(3), Array) => UintsReadExtend(es[1..], more);
    case _ =>
  }

  lemma {:induction false} ExtensionsReadExtend(es: seq<Element>, x: Extensions, more: seq<Element>)
    requires ReadExtensions(es, x).Ok?
    ensures ReadExtensions(es + more, x) == Ok((ReadExtensions(es, x).value.0, ReadExtensions(es, x).value.1 + more))
    decreases |es|
  {
    assert (es + more)[0] == es[0] && (es + more)[1..] == es[1..] + more;
    if !es[0].End? {
      ExtensionReadExtends(es, x, more);
      ExtensionsReadExtend(ReadExtension(es, x).value.1, ReadExtension(es, x).value.0, more);
    }
  }

  lemma {:induction false} UintsRoundTrip(eku: seq<u32>, rest: seq<Element>)
    ensures ReadUints(WriteUints(eku) + [End] + rest) == Ok((eku, rest))
  {
    var es := WriteUints(eku) + [End] + rest;
    if eku == [] {
      assert es == [End] + rest && es[1..] == rest;
    } else {
      UintsRoundTrip(eku[1..], rest);
      ConsTail(Scalar(Anonymous, Tlv.Uint(eku[0])), WriteUints(eku[1..]), rest);
      assert [eku[0]] + eku[1..] == eku;
    }
  }

  lemma ConsTail(e: Element, body: seq<Element>, rest: seq<Element>)
    ensures var es := ([e] + body) + [End] + rest; es[0] == e && es[1..] == body + [End] + rest
  {
  }

  lemma ConstraintsRoundTrip(bc: BasicConstraints, rest: seq<Element>)
    ensures ReadConstraints([Scalar(Context(1), Tlv.Bool(bc.isCa))]
                            + (if bc.pathLen.Some? then [Scalar(Context(2), Tlv.Uint(bc.pathLen.value))] else [])
                            + [End] + rest,
                            BasicConstraints(false, None)) == Ok((bc, rest))
  {
    var none := BasicConstraints(false, None);
    var tail := [End] + rest;
    assert tail[1..] == rest;
    if bc.pathLen.Some? {
      var path := Scalar(Context(2), Tlv.Uint(bc.pathLen.value));
      var es := [Scalar(Context(1), Tlv.Bool(bc.isCa))] + [path] + [End] + rest;
      assert es[1..] == [path] + tail && ([path] + tail)[1..] == tail;
      assert ReadConstraints(es, none) == ReadConstraints([path] + tail, BasicConstraints(bc.isCa, None));
      assert ReadConstraints([path] + tail, BasicConstraints(bc.isCa, None)) == ReadConstraints(tail, bc);
    } else {
      var es := [Scalar(Context(1), Tlv.Bool(bc.isCa))] + [] + [End] + rest;
      assert es[1..] == tail;
      assert ReadConstraints(es, none) == ReadConstraints(tail, bc);
    }
  }

  /** One extension in front of others is read first. */
  lemma ReadsFirst(part: seq<Element>, more: seq<Element>, x: Extensions, next: Extensions)
    requires part != [] && !part[0].End? && ReadExtension(part + more, x) == Ok((next, more))
    ensures ReadExtensions(part + more, x) == ReadExtensions(more, next)
  {
  }

  lemma ReadsConstraints(x: Extensions, sofar: Extensions, more: seq<Element>)
    requires sofar.basicConstraints.None?
    ensures ReadExtensions(WriteConstraints(x) + more, sofar)
         == ReadExtensions(more, sofar.(basicConstraints := x.basicConstraints))
  {
    var part := WriteConstraints(x);
    if x.basicConstraints.None? {
      assert part + more == more;
      assert sofar == sofar.(basicConstraints := x.basicConstraints);
    } else {
      var bc := x.basicConstraints.value;
      var body := [Scalar(Context(1), Tlv.Bool(bc.isCa))]
        + (if bc.pathLen.Some? then [Scalar(Context(2), Tlv.Uint(bc.pathLen.value))] else []) + [End] + more;
      ConstraintsRoundTrip(bc, more);
      assert (part + more)[0] == Start(Context(1), Structure) && (part + more)[1..] == body;
      ReadsFirst(part, more, sofar, sofar.(basicConstraints := x.basicConstraints));
    }
  }

  lemma ReadsKeyUsage(x: Extensions, sofar: Extensions, more: seq<Element>)
    requires sofar.keyUsage.None?
    ensures ReadExtensions(WriteKeyUsage(x) + more, sofar)
         == ReadExtensions(more, sofar.(keyUsage := Stored(x).keyUsage))
  {
    var part := WriteKeyUsage(x);
    if x.keyUsage.None? {
      assert part + more == more;
      assert sofar == sofar.(keyUsage := Stored(x).keyUsage);
    } else {
      assert (part + more)[0] == part[0] && (part + more)[1..] == more;
      ReadsFirst(part, more, sofar, sofar.(keyUsage := Stored(x).keyUsage));
    }
  }

  lemma ReadsExtendedKeyUsage(x: Extensions, sofar: Extensions, more: seq<Element>)
    requires sofar.extendedKeyUsage.None?
    ensures ReadExtensions(WriteExtendedKeyUsage(x) + more, sofar)
         == ReadExtensions(more, sofar.(extendedKeyUsage := x.extendedKeyUsage))
  {
    var part := WriteExtendedKeyUsage(x);
    if x.extendedKeyUsage.None? {
      assert part + more == more;
      assert sofar == sofar.(extendedKeyUsage := x.extendedKeyUsage);
    } else {
      UintsRoundTrip(x.extendedKeyUsage.value, more);
      assert (part + more)[0] == part[0];
      assert (part + more)[1..] == WriteUints(x.extendedKeyUsage.value) + [End] + more;
      ReadsFirst(part, more, sofar, sofar.(extendedKeyUsage := x.extendedKeyUsage));
    }
  }

  lemma ReadsSubjectKeyId(x: Extensions, sofar: Extensions, more: seq<Element>)
    requires sofar.subjectKeyId.None?
    ensures ReadExtensions(WriteSubjectKeyId(x) + more, sofar)
         == ReadExtensions(more, sofar.(subjectKeyId := x.subjectKeyId))
  {
    var part := WriteSubjectKeyId(x);
    if x.subjectKeyId.None? {
      assert part + more == more;
      assert sofar == sofar.(subjectKeyId := x.subjectKeyId);
    } else {
      assert (part + more)[0] == part[0] && (part + more)[1..] == more;
      ReadsFirst(part, more, sofar, sofar.(subjectKeyId := x.subjectKeyId));
    }
  }

  lemma ReadsAuthorityKeyId(x: Extensions, sofar: Extensions, more: seq<Element>)
    requires sofar.authorityKeyId.None?
    ensures ReadExtensions(WriteAuthorityKeyId(x) + more, sofar)
         == ReadExtensions(more, sofar.(authorityKeyId := x.authorityKeyId))
  {
    var part := WriteAuthorityKeyId(x);
    if x.authorityKeyId.None? {
      assert part + more == more;
      assert sofar == sofar.(authorityKeyId := x.authorityKeyId);
    } else {
      assert (part + more)[0] == part[0] && (part + more)[1..] == more;
      ReadsFirst(part, more, sofar, sofar.(authorityKeyId := x.authorityKeyId));
    }
  }

  lemma Nested(a: seq<Element>, b: seq<Element>, c: seq<Element>, d: seq<Element>, e: seq<Element>, end: seq<Element>)
    ensures a + b + c + d + e + end == a + (b + (c + (d + (e + end))))
  {
    Associate(a + b + c + d, e, end);
    Associate(a + b + c, d, e + end);
    Associate(a + b, c, d + (e + end));
    Associate(a, b, c + (d + (e + end)));
  }

  lemma ExtensionsRegroup(x: Extensions, end: seq<Element>)
    ensures WriteExtensions(x) + end
         == WriteConstraints(x) + (WriteKeyUsage(x) + (WriteExtendedKeyUsage(x)
            + (WriteSubjectKeyId(x) + (WriteAuthorityKeyId(x) + end))))
  {
    Nested(WriteConstraints(x), WriteKeyUsage(x), WriteExtendedKeyUsage(x), WriteSubjectKeyId(x), WriteAuthorityKeyId(x),
           end);
  }

  /** Extensions come back as they were, up to the key-usage bits that are not defined. */
  lemma ExtensionsRoundTrip(x: Extensions, rest: seq<Element>)
    ensures ReadExtensions(WriteExtensions(x) + [End] + rest, NO_EXTENSIONS) == Ok((Stored(x), rest))
    ensures Stored(x) == x <==> KnownUsage(x)
  {
    var end := [End] + rest;
    var e := WriteAuthorityKeyId(x) + end;
    var d := WriteSubjectKeyId(x) + e;
    var c := WriteExtendedKeyUsage(x) + d;
    var b := WriteKeyUsage(x) + c;
    Associate(WriteExtensions(x), [End], rest);
    ExtensionsRegroup(x, end);
    var one := NO_EXTENSIONS.(basicConstraints := x.basicConstraints);
    ReadsConstraints(x, NO_EXTENSIONS, b);
    var two := one.(keyUsage := Stored(x).keyUsage);
    ReadsKeyUsage(x, one, c);
    var three := two.(extendedKeyUsage := x.extendedKeyUsage);
    ReadsExtendedKeyUsage(x, two, d);
    var four := three.(subjectKeyId := x.subjectKeyId);
    ReadsSubjectKeyId(x, three, e);
    ReadsAuthorityKeyId(x, four, end);
    assert end[0] == End && end[1..] == rest;
    assert four.(authorityKeyId := x.authorityKeyId) == Stored(x);
  }

  lemma {:induction false} ExtensionsReadAreWellFormed(es: seq<Element>, x: Extensions)
    requires ReadExtensions(es, x).Ok? && KnownUsage(x)
    ensures KnownUsage(ReadExtensions(es, x).value.0)
    decreases |es|
  {
    if !es[0].End? {
      var (next, after) := ReadExtension(es, x).value;
      ExtensionsReadAreWellFormed(after, next);
    }
  }

  // ---- Fields ----

  function Either<T>(a: Option<T>, b: Option<T>): (r: Option<T>)
  {
    if a.Some? then a else b
  }

  /** Slots filled on either side. */
  function Union(s: Slots, t: Slots): (r: Slots)
  {
    Slots(Either(s.serial, t.serial), s.signatureAlgorithm || t.signatureAlgorithm, Either(s.issuer, t.issuer),
          Either(s.notBefore, t.notBefore), Either(s.notAfter, t.notAfter), Either(s.subject, t.subject),
          s.keyAlgorithm || t.keyAlgorithm, s.curve || t.curve, Either(s.publicKey, t.publicKey),
          Either(s.extensions, t.extensions), Either(s.signature, t.signature))
  }

  predicate Disjoint(s: Slots, t: Slots)
  {
    && !(s.serial.Some? && t.serial.Some?) && !(s.signatureAlgorithm && t.signatureAlgorithm)
    && !(s.issuer.Some? && t.issuer.Some?) && !(s.notBefore.Some? && t.notBefore.Some?)
    && !(s.notAfter.Some? && t.notAfter.Some?) && !(s.subject.Some? && t.subject.Some?)
    && !(s.keyAlgorithm && t.keyAlgorithm) && !(s.curve && t.curve)
    && !(s.publicKey.Some? && t.publicKey.Some?) && !(s.extensions.Some? && t.extensions.Some?)
    && !(s.signature.Some? && t.signature.Some?)
  }

  lemma UnionWithEmpty(s: Slots)
    ensures Union(EMPTY, s) == s && Union(s, EMPTY) == s && Disjoint(EMPTY, s) && Disjoint(s, EMPTY)
  {
  }

  predicate SplitsAs(r: Result<Slots, Error>, one: Result<Slots, Error>, s: Slots)
  {
    if one.Ok? && Disjoint(s, one.value) then r == Ok(Union(s, one.value)) else r.Err?
  }

  lemma ReadBytesSplits(tag: byte, b: bytes, s: Slots)
    ensures SplitsAs(ReadBytes(tag, b, s), ReadBytes(tag, b, EMPTY), s)
  {
  }

  lemma ReadUintSplits(tag: byte, v: u64, s: Slots)
    ensures SplitsAs(ReadUint(tag, v, s), ReadUint(tag, v, EMPTY), s)
  {
  }

  lemma ReadScalarSplits(tag: byte, value: Tlv.Value, s: Slots)
    ensures SplitsAs(ReadScalar(tag, value, s), ReadScalar(tag, value, EMPTY), s)
  {
    match value
    case Bytes(b) => ReadBytesSplits(tag, b, s);
    case Uint(v) => ReadUintSplits(tag, v, s);
    case _ =>
  }

  lemma ReadContainerSplits(tag: byte, kind: Kind, es: seq<Element>, s: Slots)
    ensures ReadContainer(tag, kind, es, s).Ok? <==>
      ReadContainer(tag, kind, es, EMPTY).Ok? && Disjoint(s, ReadContainer(tag, kind, es, EMPTY).value.0)
    ensures ReadContainer(tag, kind, es, s).Ok? ==>
      ReadContainer(tag, kind, es, s).value
      == (Union(s, ReadContainer(tag, kind, es, EMPTY).value.0), ReadContainer(tag, kind, es, EMPTY).value.1)
  {
  }

  /** A field is read into any slots as into none, unless its slot is taken. */
  lemma ReadFieldSplits(es: seq<Element>, s: Slots)
    requires es != [] && !es[0].End?
    ensures ReadField(es, s).Ok? <==> ReadField(es, EMPTY).Ok? && Disjoint(s, ReadField(es, EMPTY).value.0)
    ensures ReadField(es, s).Ok? ==>
      ReadField(es, s).value == (Union(s, ReadField(es, EMPTY).value.0), ReadField(es, EMPTY).value.1)
  {
    if es[0].Scalar? && es[0].tag.Context? {
      ReadScalarSplits(es[0].tag.number, es[0].value, s);
    } else if es[0].Start? && es[0].tag.Context? {
      ReadContainerSplits(es[0].tag.number, es[0].kind, es[1..], s);
    }
  }

  lemma ReadFieldExtends(es: seq<Element>, s: Slots, x: seq<Element>)
    requires es != [] && !es[0].End? && ReadField(es, s).Ok?
    ensures ReadField(es + x, s) == Ok((ReadField(es, s).value.0, ReadField(es, s).value.1 + x))
  {
    assert (es + x)[0] == es[0] && (es + x)[1..] == es[1..] + x;
    if es[0].Start? {
      if es[0].tag.number == 10 {
        ExtensionsReadExtend(es[1..], NO_EXTENSIONS, x);
      } else {
        NameReadExtends(es[1..], x);
      }
    }
  }

  // ---- The order of the fields ----

  /** Events that are exactly one readable field. */
  predicate IsField(es: seq<Element>)
  {
    es != [] && !es[0].End? && ReadField(es, EMPTY).Ok? && ReadField(es, EMPTY).value.1 == []
  }

  /** The slot it fills; none for other events. */
  function SlotOf(es: seq<Element>): (s: Slots)
  {
    if IsField(es) then ReadField(es, EMPTY).value.0 else EMPTY
  }

  predicate AllFields(fs: seq<seq<Element>>)
  {
    forall i :: 0 <= i < |fs| ==> IsField(fs[i])
  }

  /** Slots that may be put together, none when two fill the same. */
  function Combine(a: Option<Slots>, b: Option<Slots>): (r: Option<Slots>)
  {
    if a.Some? && b.Some? && Disjoint(a.value, b.value) then Some(Union(a.value, b.value)) else None
  }

  function FieldSlots(es: seq<Element>): (r: Option<Slots>)
  {
    Some(SlotOf(es))
  }

  /** The slots filled by all fields, if no two fill the same. */
  function Gather(fs: seq<seq<Element>>): (r: Option<Slots>)
  {
    Fold(FieldSlots, Combine, Some(EMPTY), fs)
  }

  lemma CombineCommutes(a: Option<Slots>, b: Option<Slots>)
    ensures Combine(a, b) == Combine(b, a)
  {
  }

  lemma CombineAssociates(a: Option<Slots>, b: Option<Slots>, c: Option<Slots>)
    ensures Combine(Combine(a, b), c) == Combine(a, Combine(b, c))
  {
  }

  lemma ReadOneField(f: seq<Element>, more: seq<Element>, s: Slots)
    requires IsField(f)
    ensures f + more != [] && !(f + more)[0].End?
    ensures ReadField(f + more, s).Ok? <==> Disjoint(s, SlotOf(f))
    ensures Disjoint(s, SlotOf(f)) ==> ReadField(f + more, s) == Ok((Union(s, SlotOf(f)), more))
  {
    assert (f + more)[0] == f[0];
    ReadFieldExtends(f, EMPTY, more);
    assert [] + more == more;
    ReadFieldSplits(f + more, s);
  }

  /** Reading a list of fields gathers their slots, or fails on a repeated one. */
  lemma {:induction false} FieldsAreGathered(fs: seq<seq<Element>>, s: Slots, rest: seq<Element>)
    requires AllFields(fs)
    ensures var r, g := ReadFields(Concat(fs) + [End] + rest, s), Gather(fs);
            if g.Some? && Disjoint(s, g.value) then r == Ok(Union(s, g.value)) else r.Err?
    decreases |fs|
  {
    if fs == [] {
      UnionWithEmpty(s);
      assert [] + [End] + rest == [End] + rest;
    } else {
      var f, more := fs[0], Concat(fs[1..]) + [End] + rest;
      assert Concat(fs) + [End] + rest == f + more;
      ReadOneField(f, more, s);
      if Disjoint(s, SlotOf(f)) {
        FieldsAreGathered(fs[1..], Union(s, SlotOf(f)), rest);
        if Gather(fs[1..]).Some? {
          OneMoreField(s, SlotOf(f), Gather(fs[1..]).value);
        }
      } else if Gather(fs).Some? {
        OneMoreField(s, SlotOf(f), Gather(fs[1..]).value);
      }
    }
  }

  /** Two ways to add a slot. */
  lemma OneMoreField(s: Slots, f: Slots, t: Slots)
    ensures Disjoint(s, f) && Disjoint(Union(s, f), t) <==> Disjoint(f, t) && Disjoint(s, Union(f, t))
    ensures Union(Union(s, f), t) == Union(s, Union(f, t))
  {
  }

  lemma GatherPermutes(fs: seq<seq<Element>>, gs: seq<seq<Element>>)
    requires multiset(fs) == multiset(gs)
    ensures Gather(fs) == Gather(gs)
  {
    forall a, b ensures Combine(a, b) == Combine(b, a) {
      CombineCommutes(a, b);
    }
    forall a, b, c ensures Combine(Combine(a, b), c) == Combine(a, Combine(b, c)) {
      CombineAssociates(a, b, c);
    }
    FoldPermutes(FieldSlots, Combine, Some(EMPTY), fs, gs);
  }

  lemma SameMembers(fs: seq<seq<Element>>, gs: seq<seq<Element>>)
    requires AllFields(fs) && multiset(fs) == multiset(gs)
    ensures AllFields(gs)
  {
    forall i | 0 <= i < |gs| ensures IsField(gs[i]) {
      assert gs[i] in multiset(gs);
      assert gs[i] in multiset(fs);
    }
  }

  lemma FromTlvOfFields(fs: seq<seq<Element>>, rest: seq<Element>)
    requires AllFields(fs)
    ensures FromTlv(Stream(fs) + rest).Ok? <==> Gather(fs).Some? && Complete(Gather(fs).value).Ok?
    ensures Gather(fs).Some? ==> FromTlv(Stream(fs) + rest) == Complete(Gather(fs).value)
  {
    var es := Stream(fs) + rest;
    assert es[0] == Start(Anonymous, Structure);
    assert es[1..] == Concat(fs) + [End] + rest;
    FieldsAreGathered(fs, EMPTY, rest);
    if Gather(fs).Some? {
      UnionWithEmpty(Gather(fs).value);
    }
  }

  /** The same fields in another order give the same certificate. */
  lemma OrderDoesNotMatter(fs: seq<seq<Element>>, gs: seq<seq<Element>>, x: seq<Element>, y: seq<Element>)
    requires AllFields(fs) && multiset(fs) == multiset(gs)
    ensures FromTlv(Stream(fs) + x).Ok? <==> FromTlv(Stream(gs) + y).Ok?
    ensures FromTlv(Stream(fs) + x).Ok? ==> FromTlv(Stream(fs) + x) == FromTlv(Stream(gs) + y)
  {
    SameMembers(fs, gs);
    GatherPermutes(fs, gs);
    FromTlvOfFields(fs, x);
    FromTlvOfFields(gs, y);
  }

  /** Every accepted stream is a list of fields between the two ends of a structure, with
      whatever follows ignored. */
  lemma {:induction false} FieldsOf(es: seq<Element>, s: Slots) returns (fs: seq<seq<Element>>, rest: seq<Element>)
    requires ReadFields(es, s).Ok?
    ensures AllFields(fs) && es == Concat(fs) + [End] + rest
    decreases |es|
  {
    if es[0].End? {
      fs, rest := [], es[1..];
      assert es == [End] + rest && [] + [End] + rest == [End] + rest;
    } else {
      var after := ReadField(es, s).value.1;
      var f := FieldPrefix(es, s);
      var more;
      more, rest := FieldsOf(after, ReadField(es, s).value.0);
      fs := [f] + more;
      assert fs[1..] == more;
      assert f + (Concat(more) + [End] + rest) == (f + Concat(more)) + [End] + rest;
    }
  }

  lemma {:induction false} NamePrefix(es: seq<Element>) returns (used: seq<Element>)
    requires ReadName(es).Ok?
    ensures es == used + ReadName(es).value.1
    ensures ReadName(used) == Ok((ReadName(es).value.0, []))
  {
    if es[0].End? {
      used := [End];
    } else {
      var more := NamePrefix(es[1..]);
      used := [es[0]] + more;
      assert used[1..] == more;
    }
  }

  lemma {:induction false} ConstraintsPrefix(es: seq<Element>, bc: BasicConstraints) returns (used: seq<Element>)
    requires ReadConstraints(es, bc).Ok?
    ensures es == used + ReadConstraints(es, bc).value.1
    ensures ReadConstraints(used, bc) == Ok((ReadConstraints(es, bc).value.0, []))
    decreases es
  {
    match es[0]
    case Scalar(Context(1), Bool(b)) =>
      var more := ConstraintsPrefix(es[1..], bc.(isCa := b));
      used := [es[0]] + more;
      assert used[1..] == more;
    case Scalar(Context(2), Uint(v)) =>
      var more := ConstraintsPrefix(es[1..], bc.(pathLen := Some(v)));
      used := [es[0]] + more;
      assert used[1..] == more;
    case _ =>
      used := [End];
  }

  lemma {:induction false} UintsPrefix(es: seq<Element>) returns (used: seq<Element>)
    requires ReadUints(es).Ok?
    ensures es == used + ReadUints(es).value.1
    ensures ReadUints(used) == Ok((ReadUints(es).value.0, []))
  {
    if es[0].End? {
      used := [End];
    } else {
      var more := UintsPrefix(es[1..]);
      used := [es[0]] + more;
      assert used[1..] == more;
    }
  }

  lemma ExtensionPrefix(es: seq<Element>, x: Extensions) returns (used: seq<Element>)
    requires es != [] && !es[0].End? && ReadExtension(es, x).Ok?
    ensures es == used + ReadExtension(es, x).value.1 && used != [] && !used[0].End?
    ensures ReadExtension(used, x) == Ok((ReadExtension(es, x).value.0, []))
  {
    var more: seq<Element> := [];
    if es[0].Start? && es[0].tag == Context(1) {
      more := ConstraintsPrefix(es[1..], BasicConstraints(false, None));
    } else if es[0].Start? {
      more := UintsPrefix(es[1..]);
    }
    used := [es[0]] + more;
    assert used[1..] == more;
  }

  lemma {:induction false} ExtensionsPrefix(es: seq<Element>, x: Extensions) returns (used: seq<Element>)
    requires ReadExtensions(es, x).Ok?
    ensures es == used + ReadExtensions(es, x).value.1
    ensures ReadExtensions(used, x) == Ok((ReadExtensions(es, x).value.0, []))
    decreases |es|
  {
    if es[0].End? {
      used := [End];
    } else {
      var (next, after) := ReadExtension(es, x).value;
      var first := ExtensionPrefix(es, x);
      var more := ExtensionsPrefix(after, next);
      used := first + more;
      ExtensionReadExtends(first, x, more);
      assert [] + more == more;
    }
  }

  lemma FieldPrefix(es: seq<Element>, s: Slots) returns (f: seq<Element>)
    requires es != [] && !es[0].End? && ReadField(es, s).Ok?
    ensures IsField(f) && es == f + ReadField(es, s).value.1
  {
    var more: seq<Element> := [];
    if es[0].Start? && es[0].tag.number == 10 {
      more := ExtensionsPrefix(es[1..], NO_EXTENSIONS);
    } else if es[0].Start? {
      more := NamePrefix(es[1..]);
    }
    f := [es[0]] + more;
    assert f[1..] == more;
    ReadFieldSplits(f, s);
  }

  lemma AcceptedIsFields(es: seq<Element>) returns (fs: seq<seq<Element>>, rest: seq<Element>)
    requires FromTlv(es).Ok?
    ensures AllFields(fs) && es == Stream(fs) + rest
  {
    fs, rest := FieldsOf(es[1..], EMPTY);
    assert es == [Start(Anonymous, Structure)] + (Concat(fs) + [End] + rest);
  }

  // ---- The round trip ----

  lemma NameField(tag: byte, dn: DistinguishedName)
    requires WellFormedName(dn) && (tag == 3 || tag == 6)
    ensures WriteAttributes(dn).Ok?
    ensures var f := [Start(Context(tag), List)] + WriteAttributes(dn).value + [End];
            IsField(f) && SlotOf(f) == (if tag == 3 then EMPTY.(issuer := Some(dn)) else EMPTY.(subject := Some(dn)))
  {
    NameRoundTrip(dn, []);
    var body := WriteAttributes(dn).value + [End];
    assert body + [] == body;
    assert [Start(Context(tag), List)] + WriteAttributes(dn).value + [End] == [Start(Context(tag), List)] + body;
    assert ([Start(Context(tag), List)] + body)[1..] == body;
  }

  lemma ExtensionsField(x: Extensions)
    ensures var f := [Start(Context(10), List)] + WriteExtensions(x) + [End];
            IsField(f) && SlotOf(f) == EMPTY.(extensions := Some(Stored(x)))
  {
    ExtensionsRoundTrip(x, []);
    var body := WriteExtensions(x) + [End];
    assert body + [] == body;
    assert [Start(Context(10), List)] + WriteExtensions(x) + [End] == [Start(Context(10), List)] + body;
    assert ([Start(Context(10), List)] + body)[1..] == body;
  }

  /** Gathering, from the slots that the fields fill. */
  function GatherSlots(ss: seq<Slots>): (r: Option<Slots>)
  {
    if ss == [] then Some(EMPTY) else Combine(Some(ss[0]), GatherSlots(ss[1..]))
  }

  lemma {:induction false} GatherOfSlots(fs: seq<seq<Element>>, ss: seq<Slots>)
    requires |fs| == |ss| && forall i :: 0 <= i < |fs| ==> SlotOf(fs[i]) == ss[i]
    ensures Gather(fs) == GatherSlots(ss)
  {
    if fs != [] {
      GatherOfSlots(fs[1..], ss[1..]);
    }
  }

  function AllSlots(c: Certificate): (s: Slots)
  {
    Slots(Some(c.serial), true, Some(c.issuer), Some(c.notBefore), Some(c.notAfter), Some(c.subject), true, true,
          Some(c.publicKey), Some(c.extensions), Some(c.signature))
  }

  /** One slot per field. */
  function EachSlot(c: Certificate): (ss: seq<Slots>)
  {
    [EMPTY.(serial := Some(c.serial)), EMPTY.(signatureAlgorithm := true), EMPTY.(issuer := Some(c.issuer)),
     EMPTY.(notBefore := Some(c.notBefore)), EMPTY.(notAfter := Some(c.notAfter)), EMPTY.(subject := Some(c.subject)),
     EMPTY.(keyAlgorithm := true), EMPTY.(curve := true), EMPTY.(publicKey := Some(c.publicKey)),
     EMPTY.(extensions := Some(c.extensions)), EMPTY.(signature := Some(c.signature))]
  }

  lemma GatherOne(s: Slots, ss: seq<Slots>, t: Slots)
    requires GatherSlots(ss) == Some(t) && Disjoint(s, t)
    ensures GatherSlots([s] + ss) == Some(Union(s, t))
  {
  }

  lemma EachSlotGathers(c: Certificate)
    ensures GatherSlots(EachSlot(c)) == Some(AllSlots(c))
  {
    var ss := EachSlot(c);
    var i, t := |ss|, EMPTY;
    assert ss[i..] == [];
    while i > 0
      invariant 0 <= i <= |ss|
      invariant GatherSlots(ss[i..]) == Some(t)
      invariant t == Slots(if i <= 0 then Some(c.serial) else None, i <= 1, if i <= 2 then Some(c.issuer) else None,
                           if i <= 3 then Some(c.notBefore) else None, if i <= 4 then Some(c.notAfter) else None,
                           if i <= 5 then Some(c.subject) else None, i <= 6, i <= 7,
                           if i <= 8 then Some(c.publicKey) else None, if i <= 9 then Some(c.extensions) else None,
                           if i <= 10 then Some(c.signature) else None)
    {
      i := i - 1;
      GatherOne(ss[i], ss[i + 1..], t);
      assert ss[i..] == [ss[i]] + ss[i + 1..];
      t := Union(ss[i], t);
    }
    assert ss[0..] == ss;
  }

  /** What is kept of a certificate. */
  function StoredCertificate(c: Certificate): (r: Certificate)
  {
    c.(extensions := Stored(c.extensions))
  }

  lemma ScalarFields(c: Certificate, issuer: seq<Element>, subject: seq<Element>, i: nat)
    requires Encodable(c) && i < 11 && i != 2 && i != 5 && i != 9
    ensures IsField(WriteFields(c, issuer, subject)[i])
    ensures SlotOf(WriteFields(c, issuer, subject)[i]) == EachSlot(StoredCertificate(c))[i]
  {
  }

  lemma WrittenFieldsGather(c: Certificate, issuer: seq<Element>, subject: seq<Element>)
    requires Encodable(c) && WriteAttributes(c.issuer) == Ok(issuer) && WriteAttributes(c.subject) == Ok(subject)
    ensures AllFields(WriteFields(c, issuer, subject))
    ensures Gather(WriteFields(c, issuer, subject)) == Some(AllSlots(StoredCertificate(c)))
  {
    var fs, stored := WriteFields(c, issuer, subject), StoredCertificate(c);
    forall i | 0 <= i < |fs| ensures IsField(fs[i]) && SlotOf(fs[i]) == EachSlot(stored)[i] {
      if i == 2 {
        NameField(3, c.issuer);
      } else if i == 5 {
        NameField(6, c.subject);
      } else if i == 9 {
        ExtensionsField(c.extensions);
      } else {
        ScalarFields(c, issuer, subject, i);
      }
    }
    GatherOfSlots(fs, EachSlot(stored));
    EachSlotGathers(stored);
  }

  /** A certificate that can be written at all comes back with its defined key-usage bits. */
  lemma ReadsBackStored(c: Certificate)
    requires Encodable(c)
    ensures ToTlv(c).Ok? && FromTlv(ToTlv(c).value) == Ok(StoredCertificate(c))
  {
    NameRoundTrip(c.issuer, []);
    NameRoundTrip(c.subject, []);
    var issuer, subject := WriteAttributes(c.issuer).value, WriteAttributes(c.subject).value;
    WrittenFieldsGather(c, issuer, subject);
    FromTlvOfFields(WriteFields(c, issuer, subject), []);
    assert Stream(WriteFields(c, issuer, subject)) + [] == Stream(WriteFields(c, issuer, subject));
  }

  lemma WellFormedRoundTrip(c: Certificate)
    requires WellFormed(c)
    ensures ToTlv(c).Ok? && FromTlv(ToTlv(c).value) == Ok(c)
  {
    ReadsBackStored(c);
  }

  /** A scalar changes no name and no extension. */
  predicate LeavesContainers(s: Slots, r: Slots)
  {
    && r.issuer == s.issuer && r.subject == s.subject && r.extensions == s.extensions
    && (r.serial == s.serial || (r.serial.Some? && 1 <= |r.serial.value| <= MAX_SERIAL_LEN))
  }

  lemma BytesLeaveContainers(tag: byte, b: bytes, s: Slots)
    requires ReadBytes(tag, b, s).Ok?
    ensures LeavesContainers(s, ReadBytes(tag, b, s).value)
  {
  }

  lemma UintLeavesContainers(tag: byte, v: u64, s: Slots)
    requires ReadUint(tag, v, s).Ok?
    ensures LeavesContainers(s, ReadUint(tag, v, s).value)
  {
  }

  lemma StayWellFormed(s: Slots, r: Slots)
    requires LeavesContainers(s, r) && WellFormedSlots(s)
    ensures WellFormedSlots(r)
  {
  }

  lemma ScalarStaysWellFormed(tag: byte, value: Tlv.Value, s: Slots)
    requires ReadScalar(tag, value, s).Ok? && WellFormedSlots(s)
    ensures WellFormedSlots(ReadScalar(tag, value, s).value)
  {
    if value.Bytes? {
      BytesLeaveContainers(tag, value.raw, s);
    } else {
      UintLeavesContainers(tag, value.number, s);
    }
    StayWellFormed(s, ReadScalar(tag, value, s).value);
  }

  lemma ContainerStaysWellFormed(tag: byte, kind: Kind, es: seq<Element>, s: Slots)
    requires ReadContainer(tag, kind, es, s).Ok? && WellFormedSlots(s)
    ensures WellFormedSlots(ReadContainer(tag, kind, es, s).value.0)
  {
    if tag == 10 {
      ExtensionsReadAreWellFormed(es, NO_EXTENSIONS);
    } else {
      NameReadIsWellFormed(es);
    }
  }

  lemma FieldStaysWellFormed(es: seq<Element>, s: Slots)
    requires es != [] && !es[0].End? && ReadField(es, s).Ok? && WellFormedSlots(s)
    ensures WellFormedSlots(ReadField(es, s).value.0)
  {
    if es[0].Start? {
      ContainerStaysWellFormed(es[0].tag.number, es[0].kind, es[1..], s);
    } else {
      ScalarStaysWellFormed(es[0].tag.number, es[0].value, s);
    }
  }

  lemma {:induction false} SlotsStayWellFormed(es: seq<Element>, s: Slots)
    requires ReadFields(es, s).Ok? && WellFormedSlots(s)
    ensures WellFormedSlots(ReadFields(es, s).value)
    decreases |es|
  {
    if !es[0].End? {
      FieldStaysWellFormed(es, s);
      SlotsStayWellFormed(ReadField(es, s).value.1, ReadField(es, s).value.0);
    }
  }

  predicate WellFormedSlots(s: Slots)
  {
    && (s.serial.Some? ==> 1 <= |s.serial.value| <= MAX_SERIAL_LEN)
    && (s.issuer.Some? ==> WellFormedName(s.issuer.value)) && (s.subject.Some? ==> WellFormedName(s.subject.value))
    && (s.extensions.Some? ==> KnownUsage(s.extensions.value))
  }

  /** Only well-formed certificates are read. */
  lemma ReadIsWellFormed(es: seq<Element>)
    requires FromTlv(es).Ok?
    ensures WellFormed(FromTlv(es).value)
  {
    SlotsStayWellFormed(es[1..], EMPTY);
  }

  /** Reading inverts writing exactly on the well-formed certificates. */
  lemma RoundTrip(c: Certificate)
    ensures ToTlv(c).Ok? && FromTlv(ToTlv(c).value) == Ok(c) <==> WellFormed(c)
  {
    if WellFormed(c) {
      WellFormedRoundTrip(c);
    } else if ToTlv(c).Ok? && FromTlv(ToTlv(c).value).Ok? {
      ReadIsWellFormed(ToTlv(c).value);
    }
  }

  /** Writing what was read gives a canonical stream: it is read as the same certificate,
      and written again unchanged. */
  lemma CanonicalStream(es: seq<Element>)
    requires FromTlv(es).Ok?
    ensures ToTlv(FromTlv(es).value).Ok?
    ensures var w := ToTlv(FromTlv(es).value).value;
            FromTlv(w) == FromTlv(es) && ToTlv(FromTlv(w).value) == Ok(w)
  {
    ReadIsWellFormed(es);
    WellFormedRoundTrip(FromTlv(es).value);
  }

  /** What follows the certificate's structure is not looked at. */
  lemma TrailingIsIgnored(es: seq<Element>, x: seq<Element>)
    requires FromTlv(es).Ok?
    ensures FromTlv(es + x) == FromTlv(es)
  {
    var fs, rest := AcceptedIsFields(es);
    FromTlvOfFields(fs, rest);
    FromTlvOfFields(fs, rest + x);
    assert Stream(fs) + rest + x == Stream(fs) + (rest + x);
  }
}
