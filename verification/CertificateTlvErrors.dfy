/** Which streams are refused as certificates, and for what: the first event that is wrong where
    it stands, or the first field missing at the end.  The events are taken one at a time, with
    a record of the list they are in and of the tags that have been used. */
module CertificateTlvErrors {
  import opened Wire
  import opened Certificate
  import opened Tlv
  import opened CertificateTlv
  import opened CertificateTlvMeaning

  datatype Place = AtTop | InName | InExtensions | InConstraints | InPurposes

  datatype Progress = Progress(place: Place, fields: set<byte>, extensions: set<byte>)

  // ---- What is wrong with an event ----

  predicate HasBytes(e: Element)
  {
    e.Scalar? && e.value.Bytes?
  }

  predicate HasUint(e: Element)
  {
    e.Scalar? && e.value.Uint?
  }

  predicate HasText(e: Element)
  {
    e.Scalar? && e.value.Utf8?
  }

  predicate FieldType(k: byte, e: Element)
  {
    || (k in [1, 9, 11] && HasBytes(e))
    || (k in [2, 4, 5, 7, 8] && HasUint(e))
    || (k in [3, 6, 10] && e.Start? && e.kind == List)
  }

  function AlgorithmWrong(k: byte, v: u64): (r: Option<Error>)
  {
    if v >= 256 then Some(FieldValueOutOfRange(k))
    else if v == 1 then None
    else if k == 2 then Some(UnsupportedSignatureAlgorithm(v))
    else if k == 7 then Some(UnsupportedPublicKeyAlgorithm(v))
    else Some(UnsupportedEcCurve(v))
  }

  function FieldValueWrong(k: byte, e: Element): (r: Option<Error>)
    requires FieldType(k, e)
  {
    if k == 1 then
      if 1 <= |e.value.raw| <= 20 then None else Some(InvalidSerialLength(|e.value.raw|))
    else if k == 9 then
      if |e.value.raw| != 65 then Some(WrongPublicKeyLength(|e.value.raw|))
      else if e.value.raw[0] != 4 then Some(BadPublicKeyPrefix) else None
    else if k == 11 then
      if |e.value.raw| != 64 then Some(WrongSignatureLength(|e.value.raw|)) else None
    else if k == 4 || k == 5 then
      if e.value.number < 0x1_0000_0000 then None else Some(FieldValueOutOfRange(k))
    else if k == 2 || k == 7 || k == 8 then AlgorithmWrong(k, e.value.number)
    else None
  }

  function FieldWrong(used: set<byte>, e: Element): (r: Option<Error>)
    requires e.Scalar? || e.Start?
  {
    if !e.tag.Context? then Some(WrongFieldType(0))
    else if !FieldType(e.tag.number, e) then Some(WrongFieldType(e.tag.number))
    else if e.tag.number in used then Some(DuplicateField(e.tag.number))
    else FieldValueWrong(e.tag.number, e)
  }

  predicate AttributeType(k: byte, e: Element)
  {
    || (1 <= k <= 16 && HasText(e))
    || ((k == 17 || 19 <= k <= 22) && HasUint(e))
    || ((k == 18 || 23 <= k <= 26) && (HasText(e) || HasUint(e) || HasBytes(e)))
  }

  function AttributeWrong(e: Element): (r: Option<Error>)
    requires e.Scalar? || e.Start?
  {
    if e.Start? then Some(WrongFieldType(0))
    else if !e.tag.Context? then Some(InvalidDnAttribute(0))
    else if !(1 <= e.tag.number <= 26) then Some(InvalidDnAttribute(e.tag.number))
    else if !AttributeType(e.tag.number, e) then Some(InvalidDnAttributeType(e.tag.number))
    else if e.tag.number == 22 && e.value.number >= 0x1_0000_0000 then Some(FieldValueOutOfRange(22))
    else None
  }

  predicate ExtensionType(k: byte, e: Element)
  {
    || (k == 1 && e.Start? && e.kind == Structure)
    || (k == 2 && HasUint(e))
    || (k == 3 && e.Start? && e.kind == Array)
    || (k in [4, 5] && HasBytes(e))
  }

  function ExtensionWrong(used: set<byte>, e: Element): (r: Option<Error>)
    requires e.Scalar? || e.Start?
  {
    if !e.tag.Context? then Some(WrongFieldType(0))
    else if !ExtensionType(e.tag.number, e) then Some(WrongFieldType(e.tag.number))
    else if e.tag.number in used then Some(DuplicateField(e.tag.number))
    else if e.tag.number == 2 && e.value.number >= 0x1_0000 then Some(FieldValueOutOfRange(2))
    else if e.tag.number in [4, 5] && |e.value.raw| != 20 then Some(WrongKeyIdentifierLength(|e.value.raw|))
    else None
  }

  function ConstraintWrong(e: Element): (r: Option<Error>)
    requires e.Scalar? || e.Start?
  {
    if e.Scalar? && e.tag == Context(1) && e.value.Bool? then None
    else if e.tag == Context(2) && HasUint(e) then
      if e.value.number < 256 then None else Some(FieldValueOutOfRange(2))
    else Some(WrongFieldType(1))
  }

  function PurposeWrong(e: Element): (r: Option<Error>)
    requires e.Scalar? || e.Start?
  {
    if !HasUint(e) then Some(WrongFieldType(3))
    else if e.value.number < 0x1_0000_0000 then None
    else Some(FieldValueOutOfRange(3))
  }

  /** What is wrong with an event where it stands; the end of a container never is. */
  function Wrong(p: Progress, e: Element): (r: Option<Error>)
  {
    if e.Broken? then Some(Codec(e.code))
    else if e.End? then None
    else
      match p.place
      case AtTop => FieldWrong(p.fields, e)
      case InName => AttributeWrong(e)
      case InExtensions => ExtensionWrong(p.extensions, e)
      case InConstraints => ConstraintWrong(e)
      case InPurposes => PurposeWrong(e)
  }

  /** Where the events after it stand. */
  function Next(p: Progress, e: Element): (r: Progress)
    requires Wrong(p, e).None? && !(p.place.AtTop? && e.End?)
  {
    match p.place
    case AtTop =>
      var place := if e.Scalar? then AtTop else if e.tag.number == 10 then InExtensions else InName;
      Progress(place, p.fields + {e.tag.number}, {})
    case InName => if e.End? then p.(place := AtTop) else p
    case InExtensions =>
      if e.End? then p.(place := AtTop)
      else
        var place := if e.Scalar? then InExtensions else if e.tag.number == 1 then InConstraints else InPurposes;
        Progress(place, p.fields, p.extensions + {e.tag.number})
    case _ => if e.End? then p.(place := InExtensions) else p
  }

  /** The first of the tags that was not used. */
  function FirstOf(tags: seq<byte>, used: set<byte>): (r: Option<Error>)
  {
    if tags == [] then None
    else if tags[0] !in used then Some(MissingField(tags[0]))
    else FirstOf(tags[1..], used)
  }

  /** The algorithms are looked for before the other fields. */
  const REQUIRED: seq<byte> := [2, 7, 8, 1, 3, 4, 5, 6, 9, 10, 11]

  /** The first thing wrong with the events inside a certificate's structure. */
  function FirstWrong(p: Progress, es: seq<Element>): (r: Option<Error>)
    decreases |es|
  {
    if es == [] then Some(UnclosedContainer)
    else if Wrong(p, es[0]).Some? then Wrong(p, es[0])
    else if p.place.AtTop? && es[0].End? then FirstOf(REQUIRED, p.fields)
    else FirstWrong(Next(p, es[0]), es[1..])
  }

  function ErrorOf(es: seq<Element>): (r: Option<Error>)
  {
    if es != [] && es[0] == Start(Anonymous, Structure) then FirstWrong(Progress(AtTop, {}, {}), es[1..])
    else if es != [] && es[0].Broken? then Some(Codec(es[0].code))
    else Some(WrongFieldType(0))
  }

  // ---- The reader finds it ----

  /** What a reader of part of the events gave agrees with the first thing wrong with them. */
  predicate Agrees<T>(r: Result<(T, seq<Element>), Error>, p: Progress, es: seq<Element>, q: Progress)
  {
    match r
    case Err(e) => FirstWrong(p, es) == Some(e)
    case Ok((_, after)) => FirstWrong(p, es) == FirstWrong(q, after)
  }

  lemma AttributeIs(tag: byte, value: Value)
    ensures var r := DecodeAttribute(tag, value);
            AttributeWrong(Scalar(Context(tag), value)) == if r.Err? then Some(r.error) else None
  {
  }

  lemma {:induction false} NameAgrees(es: seq<Element>, p: Progress)
    requires p.place.InName?
    ensures Agrees(ReadName(es), p, es, p.(place := AtTop))
    decreases |es|
  {
    if es != [] && es[0].Scalar? && es[0].tag.Context? {
      AttributeIs(es[0].tag.number, es[0].value);
      NameAgrees(es[1..], p);
    }
  }

  lemma {:induction false} ConstraintsAgree(es: seq<Element>, bc: BasicConstraints, p: Progress)
    requires p.place.InConstraints?
    ensures Agrees(ReadConstraints(es, bc), p, es, p.(place := InExtensions))
    decreases |es|
  {
    if es != [] && Wrong(p, es[0]).None? && es[0].Scalar? {
      ConstraintsAgree(es[1..], if es[0].value.Bool? then bc.(isCa := es[0].value.flag)
                                else bc.(pathLen := Some(es[0].value.number)), p);
    }
  }

  lemma {:induction false} UintsAgree(es: seq<Element>, p: Progress)
    requires p.place.InPurposes?
    ensures Agrees(ReadUints(es), p, es, p.(place := InExtensions))
    decreases |es|
  {
    if es != [] && HasUint(es[0]) {
      UintsAgree(es[1..], p);
    }
  }

  predicate UsedExtensions(used: set<byte>, x: Extensions)
  {
    forall k :: k in used <==> Present(x, k)
  }

  /** One extension: the tags used are those present. */
  lemma ExtensionAgrees(es: seq<Element>, x: Extensions, p: Progress)
    requires es != [] && !es[0].End? && p.place.InExtensions? && UsedExtensions(p.extensions, x)
    ensures var r := ReadExtension(es, x);
            var q := p.(extensions := p.extensions + {ElementTagNumber(es[0])});
            Agrees(r, p, es, q) && (r.Ok? ==> UsedExtensions(q.extensions, r.value.0))
  {
    var k := ElementTagNumber(es[0]);
    assert k in p.extensions <==> Present(x, k);
    if Wrong(p, es[0]).None? {
      if k == 1 {
        ConstraintsAgree(es[1..], BasicConstraints(false, None), Next(p, es[0]));
      } else if k == 3 {
        UintsAgree(es[1..], Next(p, es[0]));
      }
    }
  }

  lemma {:induction false} ExtensionsAgree(es: seq<Element>, x: Extensions, p: Progress) returns (used: set<byte>)
    requires p.place.InExtensions? && UsedExtensions(p.extensions, x)
    ensures Agrees(ReadExtensions(es, x), p, es, Progress(AtTop, p.fields, used))
    decreases |es|
  {
    used := p.extensions;
    if es != [] && !es[0].End? {
      ExtensionAgrees(es, x, p);
      if ReadExtension(es, x).Ok? {
        var (y, after) := ReadExtension(es, x).value;
        used := ExtensionsAgree(after, y, p.(extensions := p.extensions + {ElementTagNumber(es[0])}));
      }
    }
  }

  predicate UsedFields(used: set<byte>, s: Slots)
  {
    forall k: byte :: k in used <==> Filled(s, k)
  }

  /** A field that was read is used from then on. */
  predicate Uses(used: set<byte>, k: byte, s: Slots)
  {
    UsedFields(used + {k}, s)
  }

  lemma BytesAre(k: byte, b: bytes, s: Slots, used: set<byte>)
    requires UsedFields(used, s)
    ensures var r := ReadBytes(k, b, s);
            && FieldWrong(used, Scalar(Context(k), Tlv.Bytes(b))) == (if r.Err? then Some(r.error) else None)
            && (r.Ok? ==> Uses(used, k, r.value))
  {
    assert k in used <==> Filled(s, k as nat);
  }

  lemma UintIs(k: byte, v: u64, s: Slots, used: set<byte>)
    requires UsedFields(used, s)
    ensures var r := ReadUint(k, v, s);
            FieldWrong(used, Scalar(Context(k), Tlv.Uint(v))) == if r.Err? then Some(r.error) else None
  {
    assert k in used <==> Filled(s, k as nat);
  }

  lemma UintFills(k: byte, v: u64, s: Slots, used: set<byte>)
    requires UsedFields(used, s) && ReadUint(k, v, s).Ok?
    ensures Uses(used, k, ReadUint(k, v, s).value)
  {
  }

  lemma ScalarIs(k: byte, value: Value, s: Slots, used: set<byte>)
    requires UsedFields(used, s)
    ensures var r := ReadScalar(k, value, s);
            && FieldWrong(used, Scalar(Context(k), value)) == (if r.Err? then Some(r.error) else None)
            && (r.Ok? ==> Uses(used, k, r.value))
  {
    match value
    case Bytes(b) =>
      BytesAre(k, b, s, used);
    case Uint(v) =>
      UintIs(k, v, s, used);
      if ReadUint(k, v, s).Ok? { UintFills(k, v, s, used); }
    case _ =>
  }

  lemma ContainerIs(tag: byte, kind: Kind, es: seq<Element>, s: Slots, used: set<byte>)
    requires UsedFields(used, s)
    ensures FieldWrong(used, Start(Context(tag), kind)).Some? ==>
              ReadContainer(tag, kind, es, s) == Err(FieldWrong(used, Start(Context(tag), kind)).value)
    ensures ReadContainer(tag, kind, es, s).Ok? ==> UsedFields(used + {tag}, ReadContainer(tag, kind, es, s).value.0)
  {
    assert tag in used <==> Filled(s, tag as nat);
  }

  lemma ContainerAgrees(tag: byte, kind: Kind, es: seq<Element>, s: Slots, p: Progress) returns (extensions: set<byte>)
    requires p.place.AtTop? && UsedFields(p.fields, s) && FieldWrong(p.fields, Start(Context(tag), kind)).None?
    ensures Agrees(ReadContainer(tag, kind, es, s), Next(p, Start(Context(tag), kind)), es,
                   Progress(AtTop, p.fields + {tag}, extensions))
  {
    assert tag in p.fields <==> Filled(s, tag as nat);
    var q := Next(p, Start(Context(tag), kind));
    extensions := {};
    if tag == 10 {
      extensions := ExtensionsAgree(es, NO_EXTENSIONS, q);
    } else {
      NameAgrees(es, q);
    }
  }

  lemma FieldAgrees(es: seq<Element>, s: Slots, p: Progress) returns (q: Progress)
    requires es != [] && !es[0].End? && p.place.AtTop? && UsedFields(p.fields, s)
    ensures Agrees(ReadField(es, s), p, es, q) && q.place.AtTop?
    ensures ReadField(es, s).Ok? ==> UsedFields(q.fields, ReadField(es, s).value.0)
  {
    q := p;
    if es[0].Scalar? && es[0].tag.Context? {
      ScalarIs(es[0].tag.number, es[0].value, s, p.fields);
      if Wrong(p, es[0]).None? {
        q := Next(p, es[0]);
      }
    } else if es[0].Start? && es[0].tag.Context? {
      var tag, kind := es[0].tag.number, es[0].kind;
      ContainerIs(tag, kind, es[1..], s, p.fields);
      if Wrong(p, es[0]).None? {
        var extensions := ContainerAgrees(tag, kind, es[1..], s, p);
        q := Progress(AtTop, p.fields + {tag}, extensions);
      }
    }
  }

  lemma {:induction false} FirstOfIs(tags: seq<byte>, used: set<byte>, j: nat)
    requires j <= |tags| && (forall i :: 0 <= i < j ==> tags[i] in used) && (j < |tags| ==> tags[j] !in used)
    ensures FirstOf(tags, used) == if j < |tags| then Some(MissingField(tags[j])) else None
  {
    if j > 0 {
      FirstOfIs(tags[1..], used, j - 1);
    }
  }

  lemma MissingIs(s: Slots, used: set<byte>)
    requires UsedFields(used, s)
    ensures FirstOf(REQUIRED, used) == if Complete(s).Err? then Some(Complete(s).error) else None
  {
    var j := 0;
    while j < |REQUIRED| && REQUIRED[j] in used
      invariant j <= |REQUIRED| && forall i :: 0 <= i < j ==> REQUIRED[i] in used && Filled(s, REQUIRED[i] as nat)
    {
      j := j + 1;
    }
    FirstOfIs(REQUIRED, used, j);
    CompleteIs(s, j);
  }

  lemma CompleteIs(s: Slots, j: nat)
    requires j <= |REQUIRED| && (forall i :: 0 <= i < j ==> Filled(s, REQUIRED[i] as nat))
    requires j < |REQUIRED| ==> !Filled(s, REQUIRED[j] as nat)
    ensures j < |REQUIRED| ==> Complete(s) == Err(MissingField(REQUIRED[j]))
    ensures j == |REQUIRED| ==> Complete(s).Ok?
  {
    assert [REQUIRED[0], REQUIRED[1], REQUIRED[2], REQUIRED[3], REQUIRED[4], REQUIRED[5], REQUIRED[6], REQUIRED[7],
            REQUIRED[8], REQUIRED[9], REQUIRED[10]] == REQUIRED;
  }

  lemma {:induction false} FieldsAgree(es: seq<Element>, s: Slots, p: Progress)
    requires p.place.AtTop? && UsedFields(p.fields, s)
    ensures var r := ReadFields(es, s);
            FirstWrong(p, es) == if r.Err? then Some(r.error)
                                 else if Complete(r.value).Err? then Some(Complete(r.value).error) else None
    decreases |es|
  {
    if es != [] && es[0].End? {
      MissingIs(s, p.fields);
    } else if es != [] {
      var q := FieldAgrees(es, s, p);
      if ReadField(es, s).Ok? {
        FieldsAgree(ReadField(es, s).value.1, ReadField(es, s).value.0, q);
      }
    }
  }

  /** A stream is refused exactly for the first thing wrong with it. */
  lemma ErrorIff(es: seq<Element>, e: Error)
    ensures FromTlv(es) == Err(e) <==> ErrorOf(es) == Some(e)
  {
    if es != [] && es[0] == Start(Anonymous, Structure) {
      FieldsAgree(es[1..], EMPTY, Progress(AtTop, {}, {}));
    }
  }

  // ---- What is not written ----

  predicate HasNoTag(a: DnAttribute)
  {
    a.VendorId? || a.ProductId?
  }

  lemma {:induction false} AttributesAreWritten(dn: DistinguishedName)
    ensures var r := WriteAttributes(dn);
            if exists i :: 0 <= i < |dn| && HasNoTag(dn[i]) then r == Err(DnAttributeNotTlvEncodable)
            else r.Ok? && |r.value| == |dn| && forall i :: 0 <= i < |dn| ==> EncodeAttribute(dn[i]) == Ok(r.value[i])
  {
    if dn != [] {
      AttributesAreWritten(dn[1..]);
      if !HasNoTag(dn[0]) {
        if i :| 0 <= i < |dn[1..]| && HasNoTag(dn[1..][i]) {
          assert HasNoTag(dn[i + 1]);
        }
        if i :| 0 <= i < |dn| && HasNoTag(dn[i]) {
          assert HasNoTag(dn[1..][i - 1]);
        }
      }
    }
  }

  /** A certificate is written unless a name holds a vendor or product identifier. */
  lemma WriteErrorIff(c: Certificate, e: Error)
    ensures ToTlv(c) == Err(e) <==>
      e == DnAttributeNotTlvEncodable && exists i :: 0 <= i < |c.issuer + c.subject| && HasNoTag((c.issuer + c.subject)[i])
  {
    AttributesAreWritten(c.issuer);
    AttributesAreWritten(c.subject);
    var both := c.issuer + c.subject;
    if i :| 0 <= i < |c.issuer| && HasNoTag(c.issuer[i]) {
      assert HasNoTag(both[i]);
    }
    if i :| 0 <= i < |c.subject| && HasNoTag(c.subject[i]) {
      assert HasNoTag(both[|c.issuer| + i]);
    }
  }
}
