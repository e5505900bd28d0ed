/** The certificate as a value, shared by the TLV form, the X.509 form, the issuers and the
    chain validator. */
module Certificate {
  import opened Wire

  type u16 = n: nat | n < 0x1_0000
  type u32 = n: nat | n < 0x1_0000_0000
  type u64 = n: nat | n < 0x1_0000_0000_0000_0000

  type KeyId = s: bytes | |s| == 20 witness seq(20, _ => 0)
  type PublicKey = s: bytes | |s| == 65 && s[0] == 0x04 witness seq(65, _ => 4)
  type Signature = s: bytes | |s| == 64 witness seq(64, _ => 0)

  /** The name attributes whose value is a string. */
  datatype TextKind =
    | CommonName | Surname | SerialNumber | CountryName | LocalityName | StateOrProvinceName
    | OrganizationName | OrganizationalUnitName | Title | Name | GivenName | Initials
    | GenerationQualifier | DnQualifier | Pseudonym | DomainComponent

  datatype DnValue = Utf8(text: bytes) | Uint(number: u64) | Bytes(raw: bytes)

  datatype DnAttribute =
    | Text(kind: TextKind, text: bytes)
    | NodeId(id: u64)
    | IcacId(id: u64)
    | RcacId(id: u64)
    | FabricId(id: u64)
    | CaseAuthenticatedTag(cat: u32)
    | VendorId(vid: u16)
    | ProductId(pid: u16)
    | Other(tag: byte, value: DnValue)

  type DistinguishedName = seq<DnAttribute>

  datatype BasicConstraints = BasicConstraints(isCa: bool, pathLen: Option<byte>)

  datatype Extensions = Extensions(
    basicConstraints: Option<BasicConstraints>,
    keyUsage: Option<u16>,
    extendedKeyUsage: Option<seq<u32>>,
    subjectKeyId: Option<KeyId>,
    authorityKeyId: Option<KeyId>)

  const NO_EXTENSIONS: Extensions := Extensions(None, None, None, None, None)

  datatype Certificate = Certificate(
    serial: bytes,
    issuer: DistinguishedName,
    notBefore: u32,
    notAfter: u32,
    subject: DistinguishedName,
    publicKey: PublicKey,
    extensions: Extensions,
    signature: Signature)

  /** The value of `not_after` that means the certificate does not expire. */
  const NO_EXPIRY: u32 := 0

  datatype Unprintable = NotPrintable | NotAscii | NotTwoCharacters

  datatype Error =
    | MissingField(tag: byte)
    | DuplicateField(tag: byte)
    | WrongFieldType(tag: byte)
    | FieldValueOutOfRange(tag: byte)
    | InvalidSerialLength(len: nat)
    | UnsupportedSignatureAlgorithm(algorithm: byte)
    | UnsupportedPublicKeyAlgorithm(algorithm: byte)
    | UnsupportedEcCurve(curve: byte)
    | WrongPublicKeyLength(len: nat)
    | BadPublicKeyPrefix
    | WrongSignatureLength(len: nat)
    | InvalidDnAttribute(tag: byte)
    | InvalidDnAttributeType(tag: byte)
    | WrongKeyIdentifierLength(len: nat)
    | DnAttributeHasNoX509Oid(tag: byte)
    | DnAttributeNotTlvEncodable
    | InvalidDnAttributeForX509(kind: TextKind, reason: Unprintable)
    | Codec(code: nat)
    | UnclosedContainer
    | SignatureVerificationFailed
}
