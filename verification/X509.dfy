/** The X.509 form of a certificate as a tree of DER elements. */
module X509 {
  import opened Wire
  import opened Der
  import opened Certificate
  import opened CivilTime

  const SEQUENCE: byte := 0x30
  const SET: byte := 0x31
  const UTF8_STRING: byte := 0x0C
  const PRINTABLE_STRING: byte := 0x13
  const IA5_STRING: byte := 0x16
  const UTC_TIME: byte := 0x17
  const GENERALIZED_TIME: byte := 0x18

  // Object identifiers, by content (section 8.19 of ITU-T X.690).
  const EC_PUBLIC_KEY: bytes := [0x2A, 0x86, 0x48, 0xCE, 0x3D, 0x02, 0x01]
  const EC_CURVE_P256: bytes := [0x2A, 0x86, 0x48, 0xCE, 0x3D, 0x03, 0x01, 0x07]
  const ECDSA_WITH_SHA256: bytes := [0x2A, 0x86, 0x48, 0xCE, 0x3D, 0x04, 0x03, 0x02]
  const DOMAIN_COMPONENT: bytes := [0x09, 0x92, 0x26, 0x89, 0x93, 0xF2, 0x2C, 0x64, 0x01, 0x19]

  /** An attribute under the Matter arc 1.3.6.1.4.1.37244. */
  function MatterArc(a: byte, b: byte): (oid: bytes)
  {
    [0x2B, 0x06, 0x01, 0x04, 0x01, 0x82, 0xA2, 0x7C, a, b]
  }

  /** The last component of an X.520 attribute under 2.5.4. */
  function X520Arc(kind: TextKind): (arc: byte)
    requires kind != DomainComponent
  {
    match kind
    case CommonName => 3
    case Surname => 4
    case SerialNumber => 5
    case CountryName => 6
    case LocalityName => 7
    case StateOrProvinceName => 8
    case OrganizationName => 10
    case OrganizationalUnitName => 11
    case Title => 12
    case Name => 41
    case GivenName => 42
    case Initials => 43
    case GenerationQualifier => 44
    case DnQualifier => 46
    case Pseudonym => 65
  }

  function TextOid(kind: TextKind): (oid: bytes)
  {
    if kind == DomainComponent then DOMAIN_COMPONENT else [0x55, 0x04, X520Arc(kind)]
  }

  function Oid(content: bytes): (n: Node)
  {
    Prim(0x06, content)
  }

  // ---- Numbers as text ----

  function HexDigit(d: nat): (c: byte)
    requires d < 16
  {
    if d < 10 then 0x30 + d else 0x41 + d - 10
  }

  /** The low `k` hexadecimal digits, upper case. */
  function Hex(v: nat, k: nat): (s: bytes)
    ensures |s| == k
  {
    if k == 0 then [] else Hex(v / 16, k - 1) + [HexDigit(v % 16)]
  }

  /** The low `k` decimal digits. */
  function Decimal(v: nat, k: nat): (s: bytes)
    ensures |s| == k
  {
    if k == 0 then [] else Decimal(v / 10, k - 1) + [0x30 + v % 10]
  }

  // ---- Names ----

  predicate IsPrintable(b: byte)
  {
    || 0x30 <= b <= 0x39 || 0x41 <= b <= 0x5A || 0x61 <= b <= 0x7A
    || b in [0x20, 0x27, 0x28, 0x29, 0x2B, 0x2C, 0x2D, 0x2E, 0x2F, 0x3A, 0x3D, 0x3F]
  }

  predicate AllPrintable(s: bytes)
  {
    forall i :: 0 <= i < |s| ==> IsPrintable(s[i])
  }

  predicate AllAscii(s: bytes)
  {
    forall i :: 0 <= i < |s| ==> s[i] <= 0x7F
  }

  function StringTag(kind: TextKind): (tag: byte)
  {
    match kind
    case SerialNumber | CountryName | DnQualifier => PRINTABLE_STRING
    case DomainComponent => IA5_STRING
    case _ => UTF8_STRING
  }

  /** What keeps a string out of its X.509 string type. */
  function TextFault(kind: TextKind, s: bytes): (f: Option<Unprintable>)
  {
    if StringTag(kind) == PRINTABLE_STRING && !AllPrintable(s) then Some(NotPrintable)
    else if kind == CountryName && |s| != 2 then Some(NotTwoCharacters)
    else if StringTag(kind) == IA5_STRING && !AllAscii(s) then Some(NotAscii)
    else None
  }

  datatype Entry = Entry(oid: bytes, tag: byte, value: bytes)

  /** The object identifier, string type and value of an attribute. */
  function AttributeEntry(a: DnAttribute): (r: Result<Entry, Error>)
  {
    match a
    case NodeId(v) => Ok(Entry(MatterArc(1, 1), UTF8_STRING, Hex(v, 16)))
    case IcacId(v) => Ok(Entry(MatterArc(1, 3), UTF8_STRING, Hex(v, 16)))
    case RcacId(v) => Ok(Entry(MatterArc(1, 4), UTF8_STRING, Hex(v, 16)))
    case FabricId(v) => Ok(Entry(MatterArc(1, 5), UTF8_STRING, Hex(v, 16)))
    case CaseAuthenticatedTag(v) => Ok(Entry(MatterArc(1, 6), UTF8_STRING, Hex(v, 8)))
    case VendorId(v) => Ok(Entry(MatterArc(2, 1), PRINTABLE_STRING, Hex(v, 4)))
    case ProductId(v) => Ok(Entry(MatterArc(2, 2), PRINTABLE_STRING, Hex(v, 4)))
    case Text(kind, s) =>
      (match TextFault(kind, s)
       case Some(f) => Err(InvalidDnAttributeForX509(kind, f))
       case None => Ok(Entry(TextOid(kind), StringTag(kind), s)))
    case Other(tag, _) => Err(DnAttributeHasNoX509Oid(tag))
  }

  function EntryTree(e: Entry): (n: Node)
  {
    Cons(SEQUENCE, [Oid(e.oid), Prim(e.tag, e.value)])
  }

  /** One set per attribute; the first attribute that has no X.509 form fails the name. */
  function NameSets(dn: DistinguishedName): (r: Result<seq<Node>, Error>)
  {
    if dn == [] then Ok([])
    else
      match AttributeEntry(dn[0])
      case Err(e) => Err(e)
      case Ok(entry) =>
        match NameSets(dn[1..])
        case Err(e) => Err(e)
        case Ok(rest) => Ok([Cons(SET, [EntryTree(entry)])] + rest)
  }

  function NameTree(dn: DistinguishedName): (r: Result<Node, Error>)
  {
    match NameSets(dn)
    case Err(e) => Err(e)
    case Ok(sets) => Ok(Cons(SEQUENCE, sets))
  }

  // ---- Serial number, validity, key ----

  function SerialTree(serial: bytes): (n: Node)
    requires serial != []
  {
    Prim(0x02, if serial[0] >= 0x80 then [0x00] + serial else serial)
  }

  function UnixSeconds(t: u32): (n: nat)
  {
    t + 946_684_800
  }

  function DateDigits(t: DateTime): (s: bytes)
  {
    Decimal(t.month, 2) + Decimal(t.day, 2) + Decimal(t.hour, 2) + Decimal(t.minute, 2) + Decimal(t.second, 2)
  }

  /** A date with a two-digit year, or with a four-digit one. */
  function DateTree(c: DateTime, short: bool): (n: Node)
    ensures n.Prim? && !IsConstructed(n.tag)
  {
    if short then Prim(UTC_TIME, Decimal(c.year % 100, 2) + DateDigits(c) + [0x5A])
    else Prim(GENERALIZED_TIME, Decimal(c.year, 4) + DateDigits(c) + [0x5A])
  }

  function TimeTree(t: u32, isNotAfter: bool): (n: Node)
    ensures n.Prim? && !IsConstructed(n.tag)
  {
    if t == NO_EXPIRY && isNotAfter then DateTree(DateTime(9999, 12, 31, 23, 59, 59), false)
    else
      var unix := UnixSeconds(t);
      DateTree(UnixToYmdhms(unix), unix < 2_524_608_000)
  }

  function ValidityTree(notBefore: u32, notAfter: u32): (n: Node)
  {
    Cons(SEQUENCE, [TimeTree(notBefore, false), TimeTree(notAfter, true)])
  }

  function AlgorithmTree(): (n: Node)
  {
    Cons(SEQUENCE, [Oid(ECDSA_WITH_SHA256)])
  }

  function KeyTree(key: PublicKey): (n: Node)
  {
    Cons(SEQUENCE, [Cons(SEQUENCE, [Oid(EC_PUBLIC_KEY), Oid(EC_CURVE_P256)]), Prim(0x03, [0x00] + key)])
  }

  // ---- Extensions ----

  /** An extension under 2.5.29, its value wrapped in an octet string. */
  function ExtensionTree(arc: byte, critical: bool, value: Node): (n: Node)
  {
    Cons(SEQUENCE,
         [Oid([0x55, 0x1D, arc])] + (if critical then [Prim(0x01, [0xFF])] else []) + [Prim(0x04, Encode(value))])
  }

  function BasicConstraintsValue(bc: BasicConstraints): (n: Node)
  {
    Cons(SEQUENCE,
         if !bc.isCa then []
         else [Prim(0x01, [0xFF])] + (if bc.pathLen.Some? then [Prim(0x02, [bc.pathLen.value])] else []))
  }

  /** The low `k` bits of `b` in the opposite order. */
  function ReverseBits(b: nat, k: nat): (r: nat)
    ensures r < Pow2(k)
  {
    if k == 0 then 0 else (b % 2) * Pow2(k - 1) + ReverseBits(b / 2, k - 1)
  }

  function ReverseByte(b: byte): (r: byte)
  {
    PowersOfTwo();
    ReverseBits(b, 8)
  }

  /** How many of the low `k` bits are zero before the first set bit. */
  function TrailingZeros(b: nat, k: nat): (r: nat)
    ensures r <= k
  {
    if k == 0 || b % 2 == 1 then 0 else 1 + TrailingZeros(b / 2, k - 1)
  }

  /** The usage bits as a bit string: a count of unused bits, then the bits, first bit
      highest. */
  function KeyUsageBits(raw: u16): (s: bytes)
  {
    var low, high := ReverseByte(raw % 256), ReverseByte(raw / 256);
    if high != 0 then [TrailingZeros(high, 8), low, high]
    else if low != 0 then [TrailingZeros(low, 8), low]
    else [0x00, 0x00]
  }

  /** The purposes that have an identifier under 1.3.6.1.5.5.7.3. */
  function PurposeArc(v: u32): (arc: Option<byte>)
  {
    if 1 <= v <= 4 then Some(v as byte)
    else if v == 5 then Some(8)
    else if v == 6 then Some(9)
    else None
  }

  function PurposeOids(eku: seq<u32>): (ns: seq<Node>)
  {
    if eku == [] then []
    else
      (match PurposeArc(eku[0])
       case Some(arc) => [Oid([0x2B, 0x06, 0x01, 0x05, 0x05, 0x07, 0x03, arc])]
       case None => []) + PurposeOids(eku[1..])
  }

  const ARC_BASIC_CONSTRAINTS: byte := 19
  const ARC_KEY_USAGE: byte := 15
  const ARC_EXTENDED_KEY_USAGE: byte := 37
  const ARC_SUBJECT_KEY_ID: byte := 14
  const ARC_AUTHORITY_KEY_ID: byte := 35

  function BasicConstraintsTrees(x: Extensions): (ns: seq<Node>)
  {
    if x.basicConstraints.None? then []
    else [ExtensionTree(ARC_BASIC_CONSTRAINTS, true, BasicConstraintsValue(x.basicConstraints.value))]
  }

  function KeyUsageTrees(x: Extensions): (ns: seq<Node>)
  {
    if x.keyUsage.None? then []
    else [ExtensionTree(ARC_KEY_USAGE, true, Prim(0x03, KeyUsageBits(x.keyUsage.value)))]
  }

  function ExtendedKeyUsageTrees(x: Extensions): (ns: seq<Node>)
  {
    if x.extendedKeyUsage.None? then []
    else [ExtensionTree(ARC_EXTENDED_KEY_USAGE, true, Cons(SEQUENCE, PurposeOids(x.extendedKeyUsage.value)))]
  }

  function SubjectKeyIdTrees(x: Extensions): (ns: seq<Node>)
  {
    if x.subjectKeyId.None? then []
    else [ExtensionTree(ARC_SUBJECT_KEY_ID, false, Prim(0x04, x.subjectKeyId.value))]
  }

  function AuthorityKeyIdTrees(x: Extensions): (ns: seq<Node>)
  {
    if x.authorityKeyId.None? then []
    else [ExtensionTree(ARC_AUTHORITY_KEY_ID, false, Cons(SEQUENCE, [Prim(0x80, x.authorityKeyId.value)]))]
  }

  function ExtensionTrees(x: Extensions): (ns: seq<Node>)
  {
    BasicConstraintsTrees(x) + KeyUsageTrees(x) + ExtendedKeyUsageTrees(x) + SubjectKeyIdTrees(x)
    + AuthorityKeyIdTrees(x)
  }

  function ExtensionsTree(x: Extensions): (n: Node)
  {
    Cons(0xA3, [Cons(SEQUENCE, ExtensionTrees(x))])
  }

  // ---- The certificate ----

  function HeadTrees(serial: Node, issuer: Node): (ns: seq<Node>)
  {
    [Cons(0xA0, [Prim(0x02, [0x02])]), serial, AlgorithmTree(), issuer]
  }

  function TailTrees(validity: Node, subject: Node, key: Node, extensions: Node): (ns: seq<Node>)
  {
    [validity, subject, key, extensions]
  }

  /** The to-be-signed part; the signature is not in it. */
  function TbsTree(c: Certificate): (r: Result<Node, Error>)
  {
    if c.serial == [] then Err(FieldValueOutOfRange(1))
    else
      match NameTree(c.issuer)
      case Err(e) => Err(e)
      case Ok(issuer) =>
        match NameTree(c.subject)
        case Err(e) => Err(e)
        case Ok(subject) =>
          Ok(Cons(SEQUENCE,
                  HeadTrees(SerialTree(c.serial), issuer)
                  + TailTrees(ValidityTree(c.notBefore, c.notAfter), subject, KeyTree(c.publicKey),
                              ExtensionsTree(c.extensions))))
  }

  function TbsDer(c: Certificate): (r: Result<bytes, Error>)
  {
    match TbsTree(c)
    case Err(e) => Err(e)
    case Ok(t) => Ok(Encode(t))
  }
}
