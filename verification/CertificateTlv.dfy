/** The certificate in its TLV form: what the reader makes of a stream of events, and what
    the writer emits. */
module CertificateTlv {
  import opened Wire
  import opened Certificate
  import opened Tlv

  // ---- Names ----

  function TextTag(kind: TextKind): (tag: byte)
    ensures 1 <= tag <= 16
  {
    match kind
    case CommonName => 1
    case Surname => 2
    case SerialNumber => 3
    case CountryName => 4
    case LocalityName => 5
    case StateOrProvinceName => 6
    case OrganizationName => 7
    case OrganizationalUnitName => 8
    case Title => 9
    case Name => 10
    case GivenName => 11
    case Initials => 12
    case GenerationQualifier => 13
    case DnQualifier => 14
    case Pseudonym => 15
    case DomainComponent => 16
  }

  function KindOfTag(tag: byte): (kind: TextKind)
    requires 1 <= tag <= 16
  {
    match tag
    case 1 => CommonName
    case 2 => Surname
    case 3 => SerialNumber
    case 4 => CountryName
    case 5 => LocalityName
    case 6 => StateOrProvinceName
    case 7 => OrganizationName
    case 8 => OrganizationalUnitName
    case 9 => Title
    case 10 => Name
    case 11 => GivenName
    case 12 => Initials
    case 13 => GenerationQualifier
    case 14 => DnQualifier
    case 15 => Pseudonym
    case _ => DomainComponent
  }

  predicate IsUntypedTag(tag: byte)
  {
    tag == 18 || 23 <= tag <= 26
  }

  function DecodeAttribute(tag: byte, value: Tlv.Value): (r: Result<DnAttribute, Error>)
  {
    if 1 <= tag <= 16 && value.Utf8? then Ok(Text(KindOfTag(tag), value.text))
    else if tag == 17 && value.Uint? then Ok(NodeId(value.number))
    else if tag == 19 && value.Uint? then Ok(IcacId(value.number))
    else if tag == 20 && value.Uint? then Ok(RcacId(value.number))
    else if tag == 21 && value.Uint? then Ok(FabricId(value.number))
    else if tag == 22 && value.Uint? then
      if value.number < 0x1_0000_0000 then Ok(CaseAuthenticatedTag(value.number)) else Err(FieldValueOutOfRange(tag))
    else if IsUntypedTag(tag) && value.Utf8? then Ok(Other(tag, DnValue.Utf8(value.text)))
    else if IsUntypedTag(tag) && value.Uint? then Ok(Other(tag, DnValue.Uint(value.number)))
    else if IsUntypedTag(tag) && value.Bytes? then Ok(Other(tag, DnValue.Bytes(value.raw)))
    else if tag < 1 || tag > 26 then Err(InvalidDnAttribute(tag))
    else Err(InvalidDnAttributeType(tag))
  }

  function EncodeAttribute(a: DnAttribute): (r: Result<Element, Error>)
  {
    match a
    case Text(kind, s) => Ok(Scalar(Context(TextTag(kind)), Tlv.Utf8(s)))
    case NodeId(v) => Ok(Scalar(Context(17), Tlv.Uint(v)))
    case IcacId(v) => Ok(Scalar(Context(19), Tlv.Uint(v)))
    case RcacId(v) => Ok(Scalar(Context(20), Tlv.Uint(v)))
    case FabricId(v) => Ok(Scalar(Context(21), Tlv.Uint(v)))
    case CaseAuthenticatedTag(v) => Ok(Scalar(Context(22), Tlv.Uint(v)))
    case VendorId(_) => Err(DnAttributeNotTlvEncodable)
    case ProductId(_) => Err(DnAttributeNotTlvEncodable)
    case Other(tag, Utf8(s)) => Ok(Scalar(Context(tag), Tlv.Utf8(s)))
    case Other(tag, Uint(v)) => Ok(Scalar(Context(tag), Tlv.Uint(v)))
    case Other(tag, Bytes(b)) => Ok(Scalar(Context(tag), Tlv.Bytes(b)))
  }

  /** The attributes up to the end of the open list, and the events after it. */
  function ReadName(es: seq<Element>): (r: Result<(DistinguishedName, seq<Element>), Error>)
    ensures r.Ok? ==> |r.value.1| < |es|
  {
    if es == [] then Err(UnclosedContainer)
    else
      match es[0]
      case Broken(code) => Err(Codec(code))
      case End => Ok(([], es[1..]))
      case Start(_, _) => Err(WrongFieldType(0))
      case Scalar(tag, value) =>
        if !tag.Context? then Err(InvalidDnAttribute(0))
        else
          match DecodeAttribute(tag.number, value)
          case Err(e) => Err(e)
          case Ok(a) =>
            match ReadName(es[1..])
            case Err(e) => Err(e)
            case Ok((rest, after)) => Ok(([a] + rest, after))
  }

  function WriteAttributes(dn: DistinguishedName): (r: Result<seq<Element>, Error>)
  {
    if dn == [] then Ok([])
    else
      match EncodeAttribute(dn[0])
      case Err(e) => Err(e)
      case Ok(first) =>
        match WriteAttributes(dn[1..])
        case Err(e) => Err(e)
        case Ok(rest) => Ok([first] + rest)
  }

  // ---- Extensions ----

  /** The body of the basic-constraints structure; a repeated field overwrites. */
  function ReadConstraints(es: seq<Element>, bc: BasicConstraints): (r: Result<(BasicConstraints, seq<Element>), Error>)
    ensures r.Ok? ==> |r.value.1| < |es|
  {
    if es == [] then Err(UnclosedContainer)
    else
      match es[0]
      case Broken(code) => Err(Codec(code))
      case End => Ok((bc, es[1..]))
      case Scalar(Context(1), Bool(b)) => ReadConstraints(es[1..], bc.(isCa := b))
      case Scalar(Context(2), Uint(v)) =>
        if v < 256 then ReadConstraints(es[1..], bc.(pathLen := Some(v))) else Err(FieldValueOutOfRange(2))
      case _ => Err(WrongFieldType(1))
  }

  function ReadUints(es: seq<Element>): (r: Result<(seq<u32>, seq<Element>), Error>)
    ensures r.Ok? ==> |r.value.1| < |es|
  {
    if es == [] then Err(UnclosedContainer)
    else
      match es[0]
      case Broken(code) => Err(Codec(code))
      case End => Ok(([], es[1..]))
      case Scalar(_, Uint(v)) =>
        if v >= 0x1_0000_0000 then Err(FieldValueOutOfRange(3))
        else
          (match ReadUints(es[1..])
           case Err(e) => Err(e)
           case Ok((rest, after)) => Ok(([v] + rest, after)))
      case _ => Err(WrongFieldType(3))
  }

  function ElementTagNumber(e: Element): (n: byte)
  {
    if (e.Scalar? || e.Start?) && e.tag.Context? then e.tag.number else 0
  }

  function KeyIdFrom(b: bytes): (r: Result<KeyId, Error>)
  {
    if |b| == 20 then Ok(b) else Err(WrongKeyIdentifierLength(|b|))
  }

  /** One extension, added to those already read. */
  function ReadExtension(es: seq<Element>, x: Extensions): (r: Result<(Extensions, seq<Element>), Error>)
    requires es != []
    ensures r.Ok? ==> |r.value.1| < |es|
  {
    match es[0]
    case Start(Context(1), Structure) =>
      if x.basicConstraints.Some? then Err(DuplicateField(1))
      else
        (match ReadConstraints(es[1..], BasicConstraints(false, None))
         case Err(e) => Err(e)
         case Ok((bc, after)) => Ok((x.(basicConstraints := Some(bc)), after)))
    case Scalar(Context(2), Uint(bits)) =>
      if x.keyUsage.Some? then Err(DuplicateField(2))
      else if bits >= 0x1_0000 then Err(FieldValueOutOfRange(2))
      else Ok((x.(keyUsage := Some(bits % 0x200)), es[1..]))
    case Start(Context(3), Array) =>
      if x.extendedKeyUsage.Some? then Err(DuplicateField(3))
      else
        (match ReadUints(es[1..])
         case Err(e) => Err(e)
         case Ok((eku, after)) => Ok((x.(extendedKeyUsage := Some(eku)), after)))
    case Scalar(Context(4), Bytes(b)) =>
      if x.subjectKeyId.Some? then Err(DuplicateField(4))
      else
        (match KeyIdFrom(b)
         case Err(e) => Err(e)
         case Ok(k) => Ok((x.(subjectKeyId := Some(k)), es[1..])))
    case Scalar(Context(5), Bytes(b)) =>
      if x.authorityKeyId.Some? then Err(DuplicateField(5))
      else
        (match KeyIdFrom(b)
         case Err(e) => Err(e)
         case Ok(k) => Ok((x.(authorityKeyId := Some(k)), es[1..])))
    case Broken(code) => Err(Codec(code))
    case _ => Err(WrongFieldType(ElementTagNumber(es[0])))
  }

  function ReadExtensions(es: seq<Element>, x: Extensions): (r: Result<(Extensions, seq<Element>), Error>)
    ensures r.Ok? ==> |r.value.1| < |es|
    decreases |es|
  {
    if es == [] then Err(UnclosedContainer)
    else if es[0].End? then Ok((x, es[1..]))
    else
      match ReadExtension(es, x)
      case Err(e) => Err(e)
      case Ok((next, after)) => ReadExtensions(after, next)
  }

  function WriteConstraints(x: Extensions): (es: seq<Element>)
  {
    if x.basicConstraints.None? then []
    else
      var bc := x.basicConstraints.value;
      [Start(Context(1), Structure), Scalar(Context(1), Tlv.Bool(bc.isCa))]
      + (if bc.pathLen.Some? then [Scalar(Context(2), Tlv.Uint(bc.pathLen.value))] else []) + [End]
  }

  function WriteKeyUsage(x: Extensions): (es: seq<Element>)
  {
    if x.keyUsage.None? then [] else [Scalar(Context(2), Tlv.Uint(x.keyUsage.value))]
  }

  function WriteUints(eku: seq<u32>): (es: seq<Element>)
  {
    if eku == [] then [] else [Scalar(Anonymous, Tlv.Uint(eku[0]))] + WriteUints(eku[1..])
  }

  function WriteExtendedKeyUsage(x: Extensions): (es: seq<Element>)
  {
    if x.extendedKeyUsage.None? then []
    else [Start(Context(3), Array)] + WriteUints(x.extendedKeyUsage.value) + [End]
  }

  function WriteSubjectKeyId(x: Extensions): (es: seq<Element>)
  {
    if x.subjectKeyId.None? then [] else [Scalar(Context(4), Tlv.Bytes(x.subjectKeyId.value))]
  }

  function WriteAuthorityKeyId(x: Extensions): (es: seq<Element>)
  {
    if x.authorityKeyId.None? then [] else [Scalar(Context(5), Tlv.Bytes(x.authorityKeyId.value))]
  }

  function WriteExtensions(x: Extensions): (es: seq<Element>)
  {
    WriteConstraints(x) + WriteKeyUsage(x) + WriteExtendedKeyUsage(x) + WriteSubjectKeyId(x) + WriteAuthorityKeyId(x)
  }

  // ---- Certificates ----

  /** The slots filled while the fields of a certificate are read. */
  datatype Slots = Slots(
    serial: Option<bytes>,
    signatureAlgorithm: bool,
    issuer: Option<DistinguishedName>,
    notBefore: Option<u32>,
    notAfter: Option<u32>,
    subject: Option<DistinguishedName>,
    keyAlgorithm: bool,
    curve: bool,
    publicKey: Option<PublicKey>,
    extensions: Option<Extensions>,
    signature: Option<Signature>)

  const EMPTY: Slots := Slots(None, false, None, None, None, None, false, false, None, None, None)

  const MAX_SERIAL_LEN: nat := 20

  function PublicKeyFrom(b: bytes): (r: Result<PublicKey, Error>)
  {
    if |b| != 65 then Err(WrongPublicKeyLength(|b|))
    else if b[0] != 0x04 then Err(BadPublicKeyPrefix)
    else Ok(b)
  }

  function SignatureFrom(b: bytes): (r: Result<Signature, Error>)
  {
    if |b| != 64 then Err(WrongSignatureLength(|b|)) else Ok(b)
  }

  /** An algorithm identifier: one byte, and the only supported value is 1. */
  function AlgorithmFault(tag: byte, v: u64, seen: bool, unsupported: Error): (f: Option<Error>)
  {
    if seen then Some(DuplicateField(tag))
    else if v >= 256 then Some(FieldValueOutOfRange(tag))
    else if v != 1 then Some(unsupported)
    else None
  }

  function ReadBytes(tag: byte, b: bytes, s: Slots): (r: Result<Slots, Error>)
  {
    if tag == 1 then
      if s.serial.Some? then Err(DuplicateField(1))
      else if |b| == 0 || |b| > MAX_SERIAL_LEN then Err(InvalidSerialLength(|b|))
      else Ok(s.(serial := Some(b)))
    else if tag == 9 then
      if s.publicKey.Some? then Err(DuplicateField(9))
      else
        (match PublicKeyFrom(b)
         case Err(e) => Err(e)
         case Ok(k) => Ok(s.(publicKey := Some(k))))
    else if tag == 11 then
      if s.signature.Some? then Err(DuplicateField(11))
      else
        (match SignatureFrom(b)
         case Err(e) => Err(e)
         case Ok(k) => Ok(s.(signature := Some(k))))
    else Err(WrongFieldType(tag))
  }

  function ReadUint(tag: byte, v: u64, s: Slots): (r: Result<Slots, Error>)
  {
    if tag == 2 then
      (match AlgorithmFault(2, v, s.signatureAlgorithm, UnsupportedSignatureAlgorithm(v % 256))
       case Some(e) => Err(e)
       case None => Ok(s.(signatureAlgorithm := true)))
    else if tag == 4 then
      if s.notBefore.Some? then Err(DuplicateField(4))
      else if v >= 0x1_0000_0000 then Err(FieldValueOutOfRange(4))
      else Ok(s.(notBefore := Some(v)))
    else if tag == 5 then
      if s.notAfter.Some? then Err(DuplicateField(5))
      else if v >= 0x1_0000_0000 then Err(FieldValueOutOfRange(5))
      else Ok(s.(notAfter := Some(v)))
    else if tag == 7 then
      (match AlgorithmFault(7, v, s.keyAlgorithm, UnsupportedPublicKeyAlgorithm(v % 256))
       case Some(e) => Err(e)
       case None => Ok(s.(keyAlgorithm := true)))
    else if tag == 8 then
      (match AlgorithmFault(8, v, s.curve, UnsupportedEcCurve(v % 256))
       case Some(e) => Err(e)
       case None => Ok(s.(curve := true)))
    else Err(WrongFieldType(tag))
  }

  /** A scalar field stored in its slot. */
  function ReadScalar(tag: byte, value: Tlv.Value, s: Slots): (r: Result<Slots, Error>)
  {
    match value
    case Bytes(b) => ReadBytes(tag, b, s)
    case Uint(v) => ReadUint(tag, v, s)
    case _ => Err(WrongFieldType(tag))
  }

  /** A container field, from the events after its start. */
  function ReadContainer(tag: byte, kind: Kind, es: seq<Element>, s: Slots): (r: Result<(Slots, seq<Element>), Error>)
    ensures r.Ok? ==> |r.value.1| < |es|
  {
    if tag != 3 && tag != 6 && tag != 10 then Err(WrongFieldType(tag))
    else if kind != List then Err(WrongFieldType(tag))
    else if tag == 3 then
      if s.issuer.Some? then Err(DuplicateField(3))
      else
        (match ReadName(es)
         case Err(e) => Err(e)
         case Ok((dn, after)) => Ok((s.(issuer := Some(dn)), after)))
    else if tag == 6 then
      if s.subject.Some? then Err(DuplicateField(6))
      else
        (match ReadName(es)
         case Err(e) => Err(e)
         case Ok((dn, after)) => Ok((s.(subject := Some(dn)), after)))
    else if s.extensions.Some? then Err(DuplicateField(10))
    else
      match ReadExtensions(es, NO_EXTENSIONS)
      case Err(e) => Err(e)
      case Ok((x, after)) => Ok((s.(extensions := Some(x)), after))
  }

  /** One field of a certificate. */
  function ReadField(es: seq<Element>, s: Slots): (r: Result<(Slots, seq<Element>), Error>)
    requires es != [] && !es[0].End?
    ensures r.Ok? ==> |r.value.1| < |es|
  {
    match es[0]
    case Broken(code) => Err(Codec(code))
    case Scalar(tag, value) =>
      if !tag.Context? then Err(WrongFieldType(0))
      else
        (match ReadScalar(tag.number, value, s)
         case Err(e) => Err(e)
         case Ok(next) => Ok((next, es[1..])))
    case Start(tag, kind) =>
      if !tag.Context? then Err(WrongFieldType(0)) else ReadContainer(tag.number, kind, es[1..], s)
  }

  /** Every field up to the end of the certificate's structure. */
  function ReadFields(es: seq<Element>, s: Slots): (r: Result<Slots, Error>)
    decreases |es|
  {
    if es == [] then Err(UnclosedContainer)
    else if es[0].End? then Ok(s)
    else
      match ReadField(es, s)
      case Err(e) => Err(e)
      case Ok((next, after)) => ReadFields(after, next)
  }

  /** The certificate, when no slot is empty. */
  function Complete(s: Slots): (r: Result<Certificate, Error>)
  {
    if !s.signatureAlgorithm then Err(MissingField(2))
    else if !s.keyAlgorithm then Err(MissingField(7))
    else if !s.curve then Err(MissingField(8))
    else if s.serial.None? then Err(MissingField(1))
    else if s.issuer.None? then Err(MissingField(3))
    else if s.notBefore.None? then Err(MissingField(4))
    else if s.notAfter.None? then Err(MissingField(5))
    else if s.subject.None? then Err(MissingField(6))
    else if s.publicKey.None? then Err(MissingField(9))
    else if s.extensions.None? then Err(MissingField(10))
    else if s.signature.None? then Err(MissingField(11))
    else Ok(Certificate(s.serial.value, s.issuer.value, s.notBefore.value, s.notAfter.value, s.subject.value,
                        s.publicKey.value, s.extensions.value, s.signature.value))
  }

  function FromTlv(es: seq<Element>): (r: Result<Certificate, Error>)
  {
    if es == [] then Err(WrongFieldType(0))
    else if es[0].Broken? then Err(Codec(es[0].code))
    else if es[0] != Start(Anonymous, Structure) then Err(WrongFieldType(0))
    else
      match ReadFields(es[1..], EMPTY)
      case Err(e) => Err(e)
      case Ok(s) => Complete(s)
  }

  /** The eleven fields of a certificate, in their fixed order. */
  function WriteFields(c: Certificate, issuer: seq<Element>, subject: seq<Element>): (fs: seq<seq<Element>>)
  {
    [[Scalar(Context(1), Tlv.Bytes(c.serial))],
     [Scalar(Context(2), Tlv.Uint(1))],
     [Start(Context(3), List)] + issuer + [End],
     [Scalar(Context(4), Tlv.Uint(c.notBefore))],
     [Scalar(Context(5), Tlv.Uint(c.notAfter))],
     [Start(Context(6), List)] + subject + [End],
     [Scalar(Context(7), Tlv.Uint(1))],
     [Scalar(Context(8), Tlv.Uint(1))],
     [Scalar(Context(9), Tlv.Bytes(c.publicKey))],
     [Start(Context(10), List)] + WriteExtensions(c.extensions) + [End],
     [Scalar(Context(11), Tlv.Bytes(c.signature))]]
  }

  function Concat(fs: seq<seq<Element>>): (es: seq<Element>)
  {
    if fs == [] then [] else fs[0] + Concat(fs[1..])
  }

  /** A certificate's structure around its fields. */
  function Stream(fs: seq<seq<Element>>): (es: seq<Element>)
  {
    [Start(Anonymous, Structure)] + Concat(fs) + [End]
  }

  function ToTlv(c: Certificate): (r: Result<seq<Element>, Error>)
  {
    match WriteAttributes(c.issuer)
    case Err(e) => Err(e)
    case Ok(issuer) =>
      match WriteAttributes(c.subject)
      case Err(e) => Err(e)
      case Ok(subject) => Ok(Stream(WriteFields(c, issuer, subject)))
  }
}
